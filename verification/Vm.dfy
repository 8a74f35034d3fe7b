/** vm_fault, vm_fault_cow, vm_copy_phys, vm_protect_readonly, the frame allocator and address-space teardown. */
module Vm {
  import opened Basics
  import opened Bits
  import opened Pte
  import opened Frames
  import opened Cow
  import opened Mapping
  import opened Protect

  const FIRST_USER := 1
  const END_USER := 768

  /** The page that address va reads, if it is mapped. */
  ghost function Look(ts: Tables, mem: seq<seq<Word>>, va: Va): Option<seq<Word>> {
    if va.key in ts && va.j < |ts[va.key].ptes| && Present(ts[va.key].ptes[va.j]) && Frame(ts[va.key].ptes[va.j]) < |mem|
    then Some(mem[Frame(ts[va.key].ptes[va.j])]) else None
  }

  /** Every address reads the same as before, or is unmapped as before. */
  ghost predicate SameReads(ts: Tables, mem: seq<seq<Word>>, ts': Tables, mem': seq<seq<Word>>) {
    forall va :: Look(ts', mem', va) == Look(ts, mem, va)
  }

  /** The same, but for one space. */
  ghost predicate SameReadsBut(ts: Tables, mem: seq<seq<Word>>, ts': Tables, mem': seq<seq<Word>>, space: int) {
    forall va: Va :: va.key.space != space ==> Look(ts', mem', va) == Look(ts, mem, va)
  }

  /** No two addresses share a frame. */
  ghost predicate Injective(ts: Tables) {
    forall va, va', f :: Maps(ts, va, f) && Maps(ts, va', f) ==> va == va'
  }

  /** An address that maps the same frames, or none, before and after. */
  lemma {:induction false} LookSame(ts: Tables, mem: seq<seq<Word>>, ts': Tables, mem': seq<seq<Word>>, va: Va)
    requires |mem'| == |mem| && forall f: nat :: Maps(ts', va, f) <==> Maps(ts, va, f)
    requires forall f: nat :: Maps(ts, va, f) && f < |mem| ==> mem'[f] == mem[f]
    ensures Look(ts', mem', va) == Look(ts, mem, va)
  {
    hide Present, Frame;
    if va.key in ts && va.j < |ts[va.key].ptes| && Present(ts[va.key].ptes[va.j]) {
      assert Maps(ts, va, Frame(ts[va.key].ptes[va.j]));
    }
    if va.key in ts' && va.j < |ts'[va.key].ptes| && Present(ts'[va.key].ptes[va.j]) {
      assert Maps(ts', va, Frame(ts'[va.key].ptes[va.j]));
    }
  }

  ghost predicate Pages(mem: seq<seq<Word>>) {
    |mem| == NUM_PAGES && forall f :: 0 <= f < NUM_PAGES ==> |mem[f]| == WORDS
  }

  /** Isolation: a store through a writable entry is seen through no other entry. */
  lemma {:induction false} StoreIsolated(st: State, mem: seq<seq<Word>>, va: Va, f: nat, page: seq<Word>, va': Va, f': nat)
    requires Good(st) && st.gone == {} && Pages(mem)
    requires Maps(st.tables, va, f) && Writable(st.tables[va.key].ptes[va.j]) && Maps(st.tables, va', f') && va' != va
    ensures f < NUM_PAGES && f' < NUM_PAGES && mem[f := page][f'] == mem[f']
  {
    assert TableOk(st.tables[va.key]) && TableOk(st.tables[va'.key]);
    assert Holders(st, f) == {va};
    UsersHas(st.tables, f, va');
  }

  /** The faults vm_fault_cow resolves: a present user entry that is writable, or alone on its frame, or can be given a copy. */
  ghost predicate Handles(st: State, va: Va) {
    va.key in st.tables && va.j < |st.tables[va.key].ptes| &&
    var w := st.tables[va.key].ptes[va.j];
    Present(w) && User(w) && (Writable(w) || (Frame(w) < |st.refs| && st.refs[Frame(w)] == 1) || st.freeq != [])
  }

  /** The entry is present and writable. */
  predicate WritableAt(ts: Tables, va: Va) {
    va.key in ts && va.j < |ts[va.key].ptes| && Present(ts[va.key].ptes[va.j]) && Writable(ts[va.key].ptes[va.j])
  }

  /** Exactly the present entries below j have been released. */
  ghost predicate ReleasedBelow(ptes: seq<Word>, key: Key, j: nat, gone: set<Va>)
    requires j <= |ptes|
  {
    forall va :: va in gone <==> va.key == key && va.j < j && Present(ptes[va.j])
  }

  lemma {:induction false} ReleasedNone(ptes: seq<Word>, key: Key)
    ensures ReleasedBelow(ptes, key, 0, {})
  {
  }

  lemma {:induction false} ReleasedNext(ptes: seq<Word>, key: Key, j: nat, gone: set<Va>)
    requires j < |ptes| && ReleasedBelow(ptes, key, j, gone)
    ensures Va(key, j) !in gone
    ensures ReleasedBelow(ptes, key, j + 1, if Present(ptes[j]) then gone + {Va(key, j)} else gone)
  {
    hide Present;
  }

  lemma {:induction false} ReleasedAll(st: State, key: Key)
    requires key in st.tables && ReleasedBelow(st.tables[key].ptes, key, |st.tables[key].ptes|, st.gone)
    ensures Emptied(st, key) && OnlyOf(st, key)
  {
    hide Present;
  }

  /** The managed frames below n, in order. */
  function Ramp(n: nat): (r: seq<nat>)
    ensures |r| == if n < PAGE_START_INDEX then 0 else n - PAGE_START_INDEX
    ensures forall k :: 0 <= k < |r| ==> r[k] == PAGE_START_INDEX + k
  {
    if n <= PAGE_START_INDEX then [] else Ramp(n - 1) + [n - 1]
  }

  lemma {:induction false} RampHas(f: nat)
    requires Managed(f)
    ensures f in Ramp(NUM_PAGES)
  {
    assert Ramp(NUM_PAGES)[f - PAGE_START_INDEX] == f;
  }

  lemma {:induction false} InitialGood(refs: seq<nat>)
    requires |refs| == NUM_PAGES && forall k :: 0 <= k < NUM_PAGES ==> refs[k] == 0
    ensures Good(State(map[], map[], refs, Ramp(NUM_PAGES), {}, {})) && forall f: nat :: Managed(f) ==> f in Ramp(NUM_PAGES)
  {
    hide Ramp;
    var st := State(map[], map[], refs, Ramp(NUM_PAGES), {}, {});
    forall f: nat | Managed(f) ensures f in Ramp(NUM_PAGES) && FrameOk(st, f) {
      RampHas(f);
      assert Holders(st, f) == {};
    }
    GoodFrom(st);
  }

  class Machine {
    var tables: Tables
    var dirs: map<int, nat>
    var refs: seq<nat>
    var freeq: seq<nat>
    var mem: seq<seq<Word>>
    ghost var other: set<nat>

    ghost function StateWith(gone: set<Va>): State
      reads this
    {
      State(tables, dirs, refs, freeq, other, gone)
    }

    ghost predicate Valid()
      reads this
    {
      Good(StateWith({})) && Pages(mem)
    }

    /** paging_init: every managed frame is free, in order, and no user table exists. */
    constructor (mem: seq<seq<Word>>)
      requires Pages(mem)
      ensures Valid() && this.mem == mem && tables == map[] && dirs == map[]
      ensures freeq == Ramp(NUM_PAGES)
    {
      this.mem := mem;
      tables, dirs, other := map[], map[], {};
      refs, freeq := [], [];
      new;
      for i := 0 to NUM_PAGES
        invariant |refs| == i && forall k :: 0 <= k < i ==> refs[k] == 0
        invariant freeq == Ramp(i) && tables == map[] && dirs == map[] && other == {} && this.mem == mem
      {
        refs := refs + [0];
        if i >= PAGE_START_INDEX {
          freeq := freeq + [i];
        }
      }
      InitialGood(refs);
    }

    /** alloc_page_frame: the head of the free list, or 0. Memory pressure frees nothing, so the second attempt fails too. */
    method AllocFrame() returns (f: nat)
      requires Valid()
      modifies this`freeq, this`refs, this`other
      ensures Valid()
      ensures f == 0 <==> old(freeq) == []
      ensures f == 0 ==> StateWith({}) == old(StateWith({}))
      ensures f != 0 ==> Shaped(old(StateWith({}))) && StateWith({}) == Taken(old(StateWith({}))) && f == old(freeq)[0] && Managed(f)
      ensures f != 0 ==> f < |old(refs)| && freeq == old(freeq)[1..] && refs == old(refs)[f := 1]
    {
      hide Good;
      GoodParts(StateWith({}));
      if freeq == [] {
        return 0;
      }
      TakenGood(StateWith({}));
      f := freeq[0];
      freeq := freeq[1..];
      refs := refs[f := 1];
      other := other + {f};
    }

    /** paging_create_task_pd. */
    method NewSpace(space: int) returns (ok: bool)
      requires Valid() && space !in dirs
      modifies this`freeq, this`refs, this`other, this`dirs
      ensures Valid()
      ensures ok <==> old(freeq) != []
      ensures !ok ==> StateWith({}) == old(StateWith({}))
      ensures ok ==> dirs == old(dirs)[space := old(freeq)[0]] && freeq == old(freeq)[1..] && other == old(other)
    {
      hide Good, Separate, TablesOk, Holders;
      ghost var st := StateWith({});
      GoodParts(st);
      if freeq != [] { TakenGood(st); }
      var f := AllocFrame();
      if f == 0 {
        return false;
      }
      OtherUse(StateWith({}), f);
      DirectedGood(StateWith({}), space, f);
      dirs := dirs[space := f];
      other := other - {f};
      ok := true;
    }

    /** map_page of a fresh user page. With no page table and no frame for one it does nothing. */
    method MapPage(space: int, i: nat, j: nat, f: nat)
      requires Valid() && j < ENTRIES && f in other && Managed(f) && |refs| == NUM_PAGES && refs[f] == 1
      requires Key(space, i) in tables ==> j < |tables[Key(space, i)].ptes| && !Present(tables[Key(space, i)].ptes[j])
      modifies this`tables, this`freeq, this`other
      ensures Valid()
      ensures var va := Va(Key(space, i), j);
              if va.key in old(tables) || old(freeq) != [] then
                && tables == Placed(old(tables), old(freeq), va, f) && other == old(other) - {f}
                && freeq == (if va.key in old(tables) then old(freeq) else old(freeq)[1..])
              else StateWith({}) == old(StateWith({}))
    {
      hide Good, Separate, TablesOk, Holders, Present, Frame, User, Writable, And, Or;
      var key := Key(space, i);
      GoodParts(StateWith({}));
      if key !in tables {
        if freeq == [] {
          return;
        }
        FreeManaged(StateWith({}));
        TabledGood(StateWith({}), key);
        ZeroTableOk(freeq[0]);
        var pt := freeq[0];
        freeq := freeq[1..];
        tables := tables[key := Table(pt, seq(ENTRIES, j => 0))];
        GoodParts(StateWith({}));
      }
      NewEntry(f);
      EntryLength(tables, key);
      EntryGood(StateWith({}), Va(key, j), UserEntry(f));
      tables := tables[key := Table(tables[key].frame, tables[key].ptes[j := Or(f * 4096, And(PTE_ALL, FLAGS))])];
      other := other - {f};
    }

    /** free_page_frame. */
    method FreeFrame(f: nat)
      modifies this`refs, this`freeq
      ensures refs == FreedRefs(old(refs), f) && freeq == FreedList(old(refs), old(freeq), f)
      ensures |refs| == |old(refs)| && forall g :: 0 <= g < |refs| ==>
                refs[g] == if g == f && old(refs)[g] > 0 then old(refs)[g] - 1 else old(refs)[g]
      ensures freeq == if 1024 <= f < 16384 && (f < |refs| ==> refs[f] == 0) then [f] + old(freeq) else old(freeq)
    {
      if f < |refs| {
        if refs[f] > 0 {
          refs := refs[f := refs[f] - 1];
        }
        if refs[f] > 0 {
          return;
        }
      }
      if Managed(f) {
        freeq := [f] + freeq;
      }
    }

    /** vm_copy_phys. */
    method CopyPhys(from: nat, to: nat)
      requires Pages(mem) && from < NUM_PAGES && to < NUM_PAGES && from != to
      modifies this`mem
      ensures Pages(mem) && mem == old(mem)[to := old(mem)[from]]
    {
      for i := 0 to WORDS
        invariant Pages(mem) && forall g :: 0 <= g < NUM_PAGES && g != to ==> mem[g] == old(mem)[g]
        invariant mem[to][..i] == old(mem)[from][..i]
      {
        mem := mem[to := mem[to][i := mem[from][i]]];
        assert mem[to][..i + 1] == mem[to][..i] + [mem[to][i]];
        assert old(mem)[from][..i + 1] == old(mem)[from][..i] + [old(mem)[from][i]];
      }
      assert mem[to] == mem[to][..WORDS] && old(mem)[from][..WORDS] == old(mem)[from];
    }

    /** A user store through a writable entry: its page changes, and nobody else's. */
    method StoreWord(va: Va, k: nat, value: Word)
      requires Valid() && k < WORDS && WritableAt(tables, va)
      modifies this`mem
      ensures Valid()
      ensures var page := old(Look(tables, mem, va));
              page.Some? && k < |page.value| && Look(tables, mem, va) == Some(page.value[k := value])
      ensures forall x :: x != va ==> Look(tables, mem, x) == old(Look(tables, mem, x))
    {
      hide Good, Present, Writable, Frame, Look;
      var f := Frame(tables[va.key].ptes[va.j]);
      assert Maps(tables, va, f);
      assert f < NUM_PAGES by { GoodParts(StateWith({})); TablesMaps(tables, va, f); }
      var page: seq<Word> := mem[f][k := value];
      StoredReads(StateWith({}), mem, va, f, page);
      mem := mem[f := page];
    }

    /** vm_fault_cow, for a task with a memory map. */
    method FaultCow(space: int, vaddr: Word) returns (r: int)
      requires Valid()
      modifies this
      ensures Valid()
      ensures r == 0 || r == -1
      ensures r == -1 ==> StateWith({}) == old(StateWith({})) && mem == old(mem)
      ensures var va := Va(Key(space, vaddr / 0x40_0000), vaddr / 4096 % 1024);
              r == 0 ==> WritableAt(tables, va)
      ensures SameReads(old(tables), old(mem), tables, mem)
      ensures Injective(old(tables)) ==> Injective(tables)
      ensures dirs == old(dirs) && other == old(other) && tables.Keys == old(tables.Keys)
      ensures r == 0 <==> Handles(old(StateWith({})), Va(Key(space, vaddr / 0x40_0000), vaddr / 4096 % 1024))
    {
      hide Good, Present, Writable, User, Frame, And, Or, Separate, Exclusive, Holders;
      ghost var st := StateWith({});
      GoodParts(st);
      KeepsReads(tables, mem);
      var i, j := vaddr / 0x40_0000, vaddr / 4096 % 1024;
      var key := Key(space, i);
      if key !in tables {
        return -1;
      }
      assert TableOk(tables[key]);
      var pte := tables[key].ptes[j];
      if !Present(pte) || !User(pte) {
        return -1;
      }
      if Writable(pte) {
        return 0;
      }
      var from := Frame(pte);
      var va := Va(key, j);
      SoleHolder(st, va);
      if refs[from] == 1 {
        GrantWrite(va);
        return 0;
      }
      var to := AllocFrame();
      if to == 0 {
        return -1;
      }
      TakenGood(st);
      Break(st, va, to);
      r := 0;
    }

    /** The branch of vm_fault_cow for an entry that is alone on its frame. */
    method GrantWrite(va: Va)
      requires Valid() && va.key in tables && va.j < |tables[va.key].ptes|
      requires var w := tables[va.key].ptes[va.j];
               EntryOk(StateWith({}), va, w) && Maps(tables, va, Frame(w)) && Good(StateWith({}))
                   && Shaped(StateWith({})) && Holders(StateWith({}), Frame(w)) == {va}
      modifies this`tables
      ensures Valid() && SameReads(old(tables), mem, tables, mem) && tables.Keys == old(tables.Keys)
      ensures Injective(old(tables)) ==> Injective(tables)
      ensures WritableAt(tables, va)
    {
      hide Good, Present, Writable, User, Frame, And, Or, Maps;
      ghost var st := StateWith({});
      var pte := tables[va.key].ptes[va.j];
      SetWritable(pte);
      ghost var w := Or(pte, PTE_RW);
      UnprotectedGood(st, va, w);
      UnprotectedReads(st, va, w, mem);
      tables := tables[va.key := Table(tables[va.key].frame, tables[va.key].ptes[va.j := Or(pte, PTE_RW)])];
    }

    /** The copying half of vm_fault_cow, with the new frame in hand. */
    method Break(ghost st: State, va: Va, to: nat)
      requires Good(st) && st.gone == {} && st.freeq != [] && to == st.freeq[0] && Shaped(st)
               && StateWith({}) == Taken(st) && Good(StateWith({}))
      requires Pages(mem) && va.key in tables && va.j < |tables[va.key].ptes|
      requires var w := tables[va.key].ptes[va.j];
               && Present(w) && User(w) && !Writable(w) && Managed(Frame(w))
               && refs[Frame(w)] > 1 && Frame(w) != to
      modifies this
      ensures Valid() && dirs == old(dirs) && other == st.other && tables.Keys == old(tables.Keys)
      ensures WritableAt(tables, va)
      ensures SameReads(old(tables), old(mem), tables, mem)
      ensures Injective(old(tables)) ==> Injective(tables)
    {
      hide Good, Present, Writable, User, Frame, And, Or, Users, Separate, Exclusive, SameReads, Counted;
      GoodParts(st);
      FreeManaged(st);
      TakenGood(st);
      var pte := tables[va.key].ptes[va.j];
      var from := Frame(pte);
      CopyPhys(from, to);
      ghost var st1 := StateWith({});
      DroppedGood(st1, va, from);
      FreeFrame(from);
      ghost var st2 := Dropped(st1, va, from);
      Redirect(pte, to);
      ghost var w := Or(Or(to * 4096, And(pte, FLAGS)), PTE_RW);
      PointedGood(st2, va, w);
      BrokenReads(st, va, w, old(mem), mem);
      tables := tables[va.key := Table(tables[va.key].frame, tables[va.key].ptes[va.j := Or(Or(to * 4096, And(pte, FLAGS)), PTE_RW)])];
      other := other - {to};
    }

    /** vm_fault: only a present user write fault is a copy-on-write fault. */
    method Fault(hasMap: bool, space: int, vaddr: Word, error: Word) returns (r: int)
      requires Valid()
      modifies this
      ensures Valid() && SameReads(old(tables), old(mem), tables, mem)
      ensures Injective(old(tables)) ==> Injective(tables)
      ensures r == 0 <==> hasMap && And(error, 4) != 0 && And(error, 1) != 0 && And(error, 2) != 0
                          && Handles(old(StateWith({})), Va(Key(space, vaddr / 0x40_0000), vaddr / 4096 % 1024))
      ensures var va := Va(Key(space, vaddr / 0x40_0000), vaddr / 4096 % 1024);
              r == 0 ==> WritableAt(tables, va)
      ensures r != 0 ==> r == -1 && StateWith({}) == old(StateWith({})) && mem == old(mem)
      ensures dirs == old(dirs) && other == old(other) && tables.Keys == old(tables.Keys)
    {
      hide Good, Handles, Present, Writable, And;
      if hasMap && And(error, 4) != 0 && And(error, 1) != 0 && And(error, 2) != 0 {
        r := FaultCow(space, vaddr);
      } else {
        KeepsReads(tables, mem);
        r := -1;
      }
    }

    /** The inner loop of vm_protect_readonly. */
    method ProtectTable(key: Key)
      requires key in tables && TablesOk(tables) && |refs| == NUM_PAGES
      modifies this`tables, this`refs
      ensures tables.Keys == old(tables).Keys && (forall k <- tables :: k != key ==> tables[k] == old(tables)[k])
      ensures tables[key].frame == old(tables)[key].frame && ClearedBelow(old(tables)[key].ptes, tables[key].ptes, |old(tables)[key].ptes|)
      ensures Ones(old(refs), refs, Marked(old(tables)[key].ptes, |old(tables)[key].ptes|))
    {
      hide Present, Writable, User, Frame, And;
      ghost var ptes := tables[key].ptes;
      assert TableOk(tables[key]);
      assert Marked(ptes, 0) == {};
      hide Marked;
      for j := 0 to ENTRIES
        invariant tables.Keys == old(tables).Keys && forall k <- tables :: k != key ==> tables[k] == old(tables)[k]
        invariant tables[key].frame == old(tables)[key].frame && ClearedBelow(ptes, tables[key].ptes, j)
        invariant Ones(old(refs), refs, Marked(ptes, j))
      {
        MarkedNext(ptes, j);
        var pte := tables[key].ptes[j];
        assert pte == ptes[j];
        if Present(pte) && User(pte) {
          ClearIs(pte);
          assert Clear(pte) == And(pte, NOT_RW);
          var ro := And(pte, NOT_RW);
          tables := tables[key := Table(tables[key].frame, tables[key].ptes[j := ro])];
          refs := refs[Frame(ro) := 1];
        }
      }
    }

    /**
     vm_protect_readonly: the space keeps every mapping and loses every writable bit. The counts stay right
     if and only if none of its frames is shared.
     */
    method ProtectReadonly(space: int)
      requires Valid() && forall k <- tables :: k.space == space ==> FIRST_USER <= k.i < END_USER
      modifies this`tables, this`refs
      ensures Protects(old(StateWith({})), StateWith({}), space)
      ensures Valid() <==> Unshared(old(StateWith({})), space)
      ensures SameReads(old(tables), mem, tables, mem)
      ensures Injective(old(tables)) ==> Injective(tables)
    {
      hide Good, Present, Writable, User, Frame, TablesOk, ProtectedBelow, ClearedBelow, Ones, Guarded, Separate, Exclusive;
      ghost var st := StateWith({});
      GoodParts(st);
      ProtectedStart(tables, refs, space, FIRST_USER);
      for i := FIRST_USER to END_USER
        invariant ProtectedBelow(st.tables, st.refs, tables, refs, space, i)
      {
        ProtectedKeys(st.tables, st.refs, tables, refs, space, i);
        if Key(space, i) in tables {
          ghost var ts1, refs1 := tables, refs;
          ProtectTable(Key(space, i));
          ProtectedTable(st.tables, st.refs, ts1, refs1, space, i, tables, refs);
        } else {
          ProtectedSkip(st.tables, st.refs, tables, refs, space, i);
        }
      }
      ProtectedKeys(st.tables, st.refs, tables, refs, space, END_USER);
      ProtectedDone(st.tables, st.refs, tables, refs, space, END_USER);
      assert Protects(st, StateWith({}), space);
      ProtectedGood(st, StateWith({}), space);
      ProtectedReads(st, StateWith({}), space, mem);
    }

    /** The inner loop of teardown_current_pd: drop the references of one page table's entries. */
    method ReleaseEntries(key: Key) returns (ghost gone: set<Va>)
      requires Valid() && key in tables
      modifies this`refs, this`freeq
      ensures Good(StateWith(gone)) && Emptied(StateWith(gone), key) && OnlyOf(StateWith(gone), key)
    {
      hide Good, Present, Writable, User, Frame, Separate, Exclusive, ReleasedBelow, Emptied, OnlyOf;
      gone := {};
      ReleasedNone(tables[key].ptes, key);
      GoodParts(StateWith({}));
      assert |tables[key].ptes| == ENTRIES by { assert TableOk(tables[key]); }
      hide TablesOk, Shaped, Counted;
      for j := 0 to ENTRIES
        invariant Good(StateWith(gone))
        invariant ReleasedBelow(tables[key].ptes, key, j, gone)
      {
        ReleasedNext(tables[key].ptes, key, j, gone);
        ReleaseEntry(key, j, gone);
        gone := if Present(tables[key].ptes[j]) then gone + {Va(key, j)} else gone;
      }
      ReleasedAll(StateWith(gone), key);
    }

    /** free_page_frame of one entry's frame, if the entry is present. */
    method ReleaseEntry(key: Key, j: nat, ghost gone: set<Va>)
      requires key in tables && j < |tables[key].ptes| && Good(StateWith(gone)) && Va(key, j) !in gone
      modifies this`refs, this`freeq
      ensures Good(StateWith(if Present(tables[key].ptes[j]) then gone + {Va(key, j)} else gone))
    {
      hide Good, Present, Writable, User, Frame;
      var pte := tables[key].ptes[j];
      if Present(pte) {
        ghost var st, va, f := StateWith(gone), Va(key, j), Frame(pte);
        assert Maps(tables, va, f);
        DroppedGood(st, va, f);
        FreeFrame(Frame(pte));
        assert StateWith(gone + {va}) == Dropped(st, va, f);
      }
    }

    /** One directory entry of teardown_current_pd. */
    method ReleaseTable(key: Key)
      requires Valid() && key in tables
      modifies this`refs, this`freeq, this`tables
      ensures Valid() && tables == old(tables) - {key}
    {
      hide Good, Emptied, OnlyOf;
      ghost var gone := ReleaseEntries(key);
      ghost var st := StateWith(gone);
      UnlinkedGood(st, key);
      FreeFrame(tables[key].frame);
      tables := tables - {key};
      assert StateWith({}) == Unlinked(st, key);
    }

    /** teardown_current_pd: free every frame reference, every page table and the directory of an address space. */
    method Teardown(space: int)
      requires Valid() && space in dirs && forall k <- tables :: k.space == space ==> FIRST_USER <= k.i < END_USER
      modifies this`refs, this`freeq, this`tables, this`dirs
      ensures Valid() && mem == old(mem) && other == old(other) && dirs == old(dirs) - {space}
      ensures forall k :: k in tables <==> k in old(tables) && k.space != space
      ensures forall k <- tables :: tables[k] == old(tables)[k]
      ensures SameReadsBut(old(tables), old(mem), tables, mem, space)
      ensures forall va: Va :: va.key.space == space ==> Look(tables, mem, va) == None
      ensures Injective(old(tables)) ==> Injective(tables)
    {
      hide Good;
      for i := FIRST_USER to END_USER
        invariant Valid() && dirs == old(dirs)
        invariant forall k :: k in tables <==> k in old(tables) && !(k.space == space && FIRST_USER <= k.i < i)
        invariant forall k <- tables :: tables[k] == old(tables)[k]
      {
        if Key(space, i) in tables {
          ReleaseTable(Key(space, i));
        }
      }
      ghost var st := StateWith({});
      UndirectedGood(st, space);
      FreeFrame(dirs[space]);
      dirs := dirs - {space};
      assert StateWith({}) == Undirected(st, space);
      TornReads(old(tables), tables, mem, space);
    }
  }

  lemma {:induction false} KeepsReads(ts: Tables, mem: seq<seq<Word>>)
    ensures SameReads(ts, mem, ts, mem)
  {
  }

  /** A count of one means the entry is the frame's only holder. */
  lemma {:induction false} SoleHolder(st: State, va: Va)
    requires Good(st) && st.gone == {} && va.key in st.tables && va.j < |st.tables[va.key].ptes| && Present(st.tables[va.key].ptes[va.j])
    ensures var f := Frame(st.tables[va.key].ptes[va.j]);
            && |st.refs| == NUM_PAGES && Managed(f) && st.refs[f] >= 1 && f !in st.freeq && EntryOk(st, va, st.tables[va.key].ptes[va.j])
            && Maps(st.tables, va, f) && (st.refs[f] == 1 ==> Holders(st, f) == {va})
  {
    hide Present, Frame, User, Separate, Exclusive;
    GoodParts(st);
    assert TableOk(st.tables[va.key]);
    var f := Frame(st.tables[va.key].ptes[va.j]);
    UsersHas(st.tables, f, va);
    FrameOf(st, f);
    if st.refs[f] == 1 { Smaller(Holders(st, f), va); }
  }

  lemma {:induction false} UnprotectedReads(st: State, va: Va, w: Word, mem: seq<seq<Word>>)
    requires EntryOk(st, va, w) && Maps(st.tables, va, Frame(w))
    ensures SameReads(st.tables, mem, Unprotected(st, va, w).tables, mem)
    ensures Injective(st.tables) ==> Injective(Unprotected(st, va, w).tables)
  {
    hide Present, Frame, User, Look;
    var ts, ts' := st.tables, Unprotected(st, va, w).tables;
    forall x, f: nat ensures Maps(ts', x, f) <==> Maps(ts, x, f) { }
    forall x ensures Look(ts', mem, x) == Look(ts, mem, x) { LookSame(ts, mem, ts', mem, x); }
  }

  lemma {:induction false} ProtectedReads(st: State, st': State, space: int, mem: seq<seq<Word>>)
    requires TablesOk(st.tables) && Protects(st, st', space)
    ensures SameReads(st.tables, mem, st'.tables, mem)
    ensures Injective(st.tables) ==> Injective(st'.tables)
  {
    hide Maps, Guarded, Look;
    var ts, ts' := st.tables, st'.tables;
    forall x, f: nat ensures Maps(ts', x, f) <==> Maps(ts, x, f) { GuardedMaps(ts, ts', space, x, f); }
    forall x ensures Look(ts', mem, x) == Look(ts, mem, x) { LookSame(ts, mem, ts', mem, x); }
  }

  /** Copying the page and redirecting one entry to the copy changes nobody's view. */
  lemma {:induction false} BrokenReads(st: State, va: Va, w: Word, mem: seq<seq<Word>>, mem': seq<seq<Word>>)
    requires Good(st) && st.gone == {} && Pages(mem) && EntryOk(st, va, w) && Maps(st.tables, va, Frame(st.tables[va.key].ptes[va.j]))
    requires Frame(w) in st.freeq
    requires var from := Frame(st.tables[va.key].ptes[va.j]); from < NUM_PAGES && mem' == mem[Frame(w) := mem[from]]
    ensures SameReads(st.tables, mem, SetEntry(st.tables, va, w), mem')
    ensures Injective(st.tables) ==> Injective(SetEntry(st.tables, va, w))
  {
    hide Present, User, Frame, Users, Good, Counted;
    var ts, ts', to := st.tables, SetEntry(st.tables, va, w), Frame(w);
    forall x, f: nat ensures Maps(ts', x, f) <==> if x == va then f == to else Maps(ts, x, f) { }
    forall x ensures !Maps(ts, x, to) { FreeUnmapped(st, x, to); }
    forall x ensures Look(ts', mem', x) == Look(ts, mem, x) {
      if x != va { LookSame(ts, mem, ts', mem', x); }
    }
  }

  lemma {:induction false} StoredReads(st: State, mem: seq<seq<Word>>, va: Va, f: nat, page: seq<Word>)
    requires Good(st) && st.gone == {} && Pages(mem)
    requires Maps(st.tables, va, f) && Writable(st.tables[va.key].ptes[va.j])
    ensures f < NUM_PAGES && Look(st.tables, mem, va) == Some(mem[f])
    ensures var mem' := mem[f := page];
            && Look(st.tables, mem', va) == Some(page)
            && forall x :: x != va ==> Look(st.tables, mem', x) == Look(st.tables, mem, x)
  {
    hide Good, Present, Writable, Frame;
    GoodParts(st);
    TablesMaps(st.tables, va, f);
    var mem' := mem[f := page];
    forall x | x != va ensures Look(st.tables, mem', x) == Look(st.tables, mem, x) {
      forall g: nat | Maps(st.tables, x, g) && g < |mem| ensures mem'[g] == mem[g] {
        StoreIsolated(st, mem, va, f, page, x, g);
      }
      LookSame(st.tables, mem, st.tables, mem', x);
    }
  }

  lemma {:induction false} EntryLength(ts: Tables, key: Key)
    requires TablesOk(ts) && key in ts
    ensures |ts[key].ptes| == ENTRIES
  {
    assert TableOk(ts[key]);
  }

  /** Nothing maps a free frame. */
  lemma {:induction false} FreeUnmapped(st: State, va: Va, f: nat)
    requires Good(st) && st.gone == {} && f in st.freeq
    ensures !Maps(st.tables, va, f)
  {
    hide Present, User, Frame, Users;
    GoodParts(st);
    FrameOf(st, f);
    UsersHas(st.tables, f, va);
  }

  lemma {:induction false} TornReads(ts: Tables, ts': Tables, mem: seq<seq<Word>>, space: int)
    requires (forall k :: k in ts' <==> k in ts && k.space != space) && forall k <- ts' :: ts'[k] == ts[k]
    ensures SameReadsBut(ts, mem, ts', mem, space)
    ensures forall va: Va :: va.key.space == space ==> Look(ts', mem, va) == None
    ensures Injective(ts) ==> Injective(ts')
  {
    assert forall va, f :: Maps(ts', va, f) ==> Maps(ts, va, f);
  }
}
