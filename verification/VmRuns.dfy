/**
 Whole runs of address spaces, from paging_init: spaces come and go, pages are mapped, forked, protected,
 written and faulted on, in any order. An operation whose conditions do not hold is refused.
 */
module VmRuns {
  import opened Basics
  import opened Bits
  import opened Pte
  import opened Frames
  import opened Cow
  import opened Protect
  import opened Mapping
  import opened Vm
  import opened Forking

  datatype Op =
    | NewSpace(space: int)
    | MapNew(va: Va)  // elf_load: alloc_page_frame and map_page where no page is present
    | ForkSpace(parent: int, child: int)
    | FaultAt(hasMap: bool, space: int, vaddr: Word, error: Word)
    | StoreAt(va: Va, k: nat, value: Word)
    | ProtectSpace(space: int)
    | Drop(space: int)

  /** The operations after which an address may read differently. */
  predicate Changes(op: Op, va: Va) {
    match op
    case MapNew(x) => x == va
    case StoreAt(x, _, _) => x == va
    case ForkSpace(_, child) => child == va.key.space
    case Drop(space) => space == va.key.space
    case _ => false
  }

  /** What holds in every state of a run: ownership is right, no frame is shared, and tables belong to spaces. */
  ghost predicate Reached(m: Machine)
    reads m
  {
    m.Valid() && Injective(m.tables) && Housed(m.tables, m.dirs)
  }

  /** Eager copying shares nothing, so vm_protect_readonly finds no frame shared in any run. */
  lemma {:induction false} NothingShared(st: State, space: int)
    requires Good(st) && st.gone == {} && Injective(st.tables)
    ensures TablesOk(st.tables) && Unshared(st, space)
  {
    hide Users, Maps, Exclusive, FrameOk, Separate;
    GoodParts(st);
    forall va, f | Maps(st.tables, va, f) && va.key.space == space ensures Holders(st, f) == {va} {
      forall x ensures x in Holders(st, f) <==> x == va { UsersHas(st.tables, f, x); }
    }
  }

  /** A page is present at the address. */
  predicate PresentAt(ts: Tables, va: Va) {
    va.key in ts && va.j < |ts[va.key].ptes| && Present(ts[va.key].ptes[va.j])
  }

  /** alloc_page_frame and map_page for an address of a space with no page there. */
  method MapFresh(m: Machine, va: Va)
    requires Reached(m) && va.key.space in m.dirs && FIRST_USER <= va.key.i < END_USER && va.j < ENTRIES && !PresentAt(m.tables, va)
    modifies m
    ensures Reached(m) && m.mem == old(m.mem) && m.dirs == old(m.dirs)
    ensures forall x :: x != va ==> Look(m.tables, m.mem, x) == old(Look(m.tables, m.mem, x))
    ensures var q := old(m.freeq);
            if q != [] && (va.key in old(m.tables) || |q| > 1) then
              && Managed(q[0]) && Look(m.tables, m.mem, va) == Some(m.mem[q[0]]) && m.other == old(m.other)
              && (forall x, f :: Maps(m.tables, x, f) <==> if x == va then f == q[0] else Maps(old(m.tables), x, f))
              && |m.freeq| == |q| - (if va.key in old(m.tables) then 1 else 2)
            else m.tables == old(m.tables)
  {
    hide Good, Look, Placed, Present, Frame, Holders, Maps, Separate, TablesOk;
    ghost var st := m.StateWith({});
    GoodParts(st);
    if m.freeq != [] { TakenGood(st); }
    var f := m.AllocFrame();
    if f == 0 {
      return;
    }
    if va.key in m.tables { EntryLength(m.tables, va.key); }
    m.MapPage(va.key.space, va.key.i, va.j, f);
    assert va.key == Key(va.key.space, va.key.i) && va == Va(va.key, va.j);
    assert st.other + {f} - {f} == st.other;
    if va.key in st.tables || |st.freeq| > 1 {
      FreshReads(st, m.mem, va);
    }
  }

  lemma {:induction false} FreshReads(st: State, mem: seq<seq<Word>>, va: Va)
    requires Good(st) && st.gone == {} && |mem| == NUM_PAGES && va.j < ENTRIES && st.freeq != [] && Managed(st.freeq[0])
    requires if va.key in st.tables then va.j < |st.tables[va.key].ptes| else |st.freeq| > 1
    ensures var f := st.freeq[0];
            var ts' := Placed(st.tables, st.freeq[1..], va, f);
            && (forall x :: Look(ts', mem, x) == if x == va then Some(mem[f]) else Look(st.tables, mem, x))
            && (forall x, g :: Maps(ts', x, g) <==> if x == va then g == f else Maps(st.tables, x, g))
            && (Injective(st.tables) ==> Injective(ts')) && ts'.Keys == st.tables.Keys + {va.key}
  {
    hide Good, Look, Placed, Maps;
    var f := st.freeq[0];
    var ts' := Placed(st.tables, st.freeq[1..], va, f);
    assert mem[f := mem[f]] == mem;
    PlacedReads(st, mem, va, mem[f], va);
    forall x ensures Look(ts', mem, x) == if x == va then Some(mem[f]) else Look(st.tables, mem, x) { PlacedReads(st, mem, va, mem[f], x); }
    PlacedMaps(st.tables, st.freeq[1..], va, f, va, f);
    forall x, g: nat ensures Maps(ts', x, g) <==> if x == va then g == f else Maps(st.tables, x, g) {
      PlacedMaps(st.tables, st.freeq[1..], va, f, x, g);
    }
  }

  /** One operation, if its conditions hold. */
  method Perform(m: Machine, op: Op)
    requires Reached(m)
    modifies m
    ensures Reached(m)
    ensures forall va :: !Changes(op, va) ==> Look(m.tables, m.mem, va) == old(Look(m.tables, m.mem, va))
  {
    hide Good, Look, Injective, Present, Writable, Frame, And, Maps, Handles, UserPages, Affords, LosesLast, Starves, ReadsAs;
    match op
    case NewSpace(space) =>
      if space !in m.dirs {
        var ok := m.NewSpace(space);
      }
    case MapNew(va) =>
      if va.key.space in m.dirs && FIRST_USER <= va.key.i < END_USER && va.j < ENTRIES && !PresentAt(m.tables, va) {
        MapFresh(m, va);
      }
    case ForkSpace(parent, child) =>
      if parent in m.dirs && child !in m.dirs {
        var r := Fork(m, parent, child);
      }
    case FaultAt(hasMap, space, vaddr, error) =>
      var r := m.Fault(hasMap, space, vaddr, error);
    case StoreAt(va, k, value) =>
      if k < WORDS && WritableAt(m.tables, va) {
        m.StoreWord(va, k, value);
      }
    case ProtectSpace(space) =>
      NothingShared(m.StateWith({}), space);
      m.ProtectReadonly(space);
    case Drop(space) =>
      if space in m.dirs {
        m.Teardown(space);
      }
  }

  /**
   A whole run. Ownership stays right and no frame is ever shared. What an address reads is changed only by
   its own stores, mapping or teardown: no other space's doings can be seen through it.
   */
  method Run(m: Machine, ops: seq<Op>)
    requires Reached(m)
    modifies m
    ensures Reached(m)
    ensures forall va :: (forall op <- ops :: !Changes(op, va)) ==> Look(m.tables, m.mem, va) == old(Look(m.tables, m.mem, va))
    decreases |ops|
  {
    hide Reached, Look, Changes;
    if ops == [] {
      return;
    }
    Perform(m, ops[0]);
    ghost var ts1, mem1 := m.tables, m.mem;
    Run(m, ops[1..]);
    forall va | forall op <- ops :: !Changes(op, va) ensures Look(m.tables, m.mem, va) == old(Look(m.tables, m.mem, va)) {
      assert ops[0] in ops && forall op <- ops[1..] :: op in ops;
      assert Look(ts1, mem1, va) == old(Look(m.tables, m.mem, va));
    }
  }

  lemma {:induction false} Unmapped(ts: Tables, mem: seq<seq<Word>>)
    requires ts == map[]
    ensures Injective(ts) && (forall x, f :: !Maps(ts, x, f)) && forall x :: Look(ts, mem, x) == None
  {
  }

  /** Any run from paging_init. */
  method RunFromInit(mem: seq<seq<Word>>, ops: seq<Op>) returns (m: Machine)
    requires Pages(mem)
    ensures fresh(m) && Reached(m)
    ensures forall va :: (forall op <- ops :: !Changes(op, va)) ==> Look(m.tables, m.mem, va) == None
  {
    hide Look, Maps, Good, Injective, Changes;
    m := new Machine(mem);
    Unmapped(m.tables, mem);
    Run(m, ops);
  }

  /**
   A fork that the free frames suffice for, and any run after it: an address of the child that the run
   neither maps, stores to nor tears down still reads what the parent read there at the fork.
   */
  method ForkAndRun(m: Machine, parent: int, child: int, ops: seq<Op>) returns (r: int)
    requires Reached(m) && parent in m.dirs && child !in m.dirs
    requires |UserPages(m.tables, parent)| <= MAX_USER_PAGES && Affords(UserPages(m.tables, parent), |m.freeq|)
    modifies m
    ensures Reached(m) && r == 0
    ensures forall i: nat, j: nat :: (forall op <- ops :: !Changes(op, Va(Key(child, i), j))) ==>
              Look(m.tables, m.mem, Va(Key(child, i), j)) == old(Look(m.tables, m.mem, Va(Key(parent, i), j)))
  {
    hide Look, Changes, UserPages, Affords, LosesLast, Starves, Injective, Good;
    r := Fork(m, parent, child);
    Run(m, ops);
  }

  /** The index of a page's entry, from an address: ten bits for the table, ten for the page. */
  function Address(vaddr: Word, space: int): Va {
    Va(Key(space, vaddr / 0x40_0000), vaddr / 0x1000 % 0x400)
  }

  /**
   A user task with a map writes to a page that is present: if a frame is free, or no frame is shared, the
   fault that the write may take is handled, and the write goes through without being seen anywhere else.
   */
  method FaultThenStore(m: Machine, space: int, vaddr: Word, k: nat, value: Word) returns (r: int)
    requires m.Valid() && k < 1024 && PresentAt(m.tables, Address(vaddr, space)) && (m.freeq != [] || Injective(m.tables))
    modifies m
    ensures m.Valid() && r == 0
    ensures var va := Address(vaddr, space);
            var page := old(Look(m.tables, m.mem, va));
            && page.Some? && k < |page.value| && Look(m.tables, m.mem, va) == Some(page.value[k := value])
            && forall x :: x != va ==> Look(m.tables, m.mem, x) == old(Look(m.tables, m.mem, x))
  {
    hide Good, Look, Present, Writable, Frame, User, Maps, Holders, TablesOk, Separate, Exclusive, And, Injective;
    var va := Address(vaddr, space);
    CanHandle(m.StateWith({}), va);
    assert And(7, 4) == 4 && And(7, 1) == 1 && And(7, 2) == 2 by { UserWriteFault(); }
    r := m.Fault(true, space, vaddr, 7);
    m.StoreWord(va, k, value);
  }

  /** The error code of a user's write to a present page. */
  lemma {:induction false} UserWriteFault()
    ensures And(7, 4) == 4 && And(7, 1) == 1 && And(7, 2) == 2
  {
  }

  /** A free frame can take a copy, and a page that is alone on its frame needs none. */
  lemma {:induction false} CanHandle(st: State, va: Va)
    requires Good(st) && st.gone == {} && PresentAt(st.tables, va) && (st.freeq != [] || Injective(st.tables))
    ensures Handles(st, va)
  {
    hide Users, Present, Frame, Writable, Exclusive, Separate, User;
    GoodParts(st);
    var f := Frame(st.tables[va.key].ptes[va.j]);
    assert Maps(st.tables, va, f);
    assert TableOk(st.tables[va.key]);
    if Injective(st.tables) {
      NothingShared(st, va.key.space);
      assert Holders(st, f) == {va};
      FrameOf(st, f);
    }
  }

  lemma {:induction false} OnePage(pages: seq<PageRef>, p: PageRef)
    requires InOrder(pages) && forall x :: x in pages <==> x == p
    ensures pages == [p]
  {
    assert p in pages && forall a :: 0 <= a < |pages| ==> pages[a] in pages;
    assert |pages| > 1 ==> Before(pages[0], pages[1]);
  }

  /** Where spawn_user_process puts the stack: 0xBFFFF000. */
  const STACK := Va(Key(0, 767), 1023)

  /** A space with one page: two frames do not do for its fork, but sys_fork does not notice. */
  lemma {:induction false} StackCost(ts: Tables, f: nat)
    requires forall x, g :: Maps(ts, x, g) <==> x == STACK && g == f
    ensures UserPages(ts, 0) == [PageRef(767, 1023, f)]
    ensures LosesLast(UserPages(ts, 0), 2) && !Affords(UserPages(ts, 0), 2)
  {
    hide Maps, SpacePages;
    SpacePagesAre(ts, 0, END_USER);
    var pages, p := UserPages(ts, 0), PageRef(767, 1023, f);
    forall x ensures x in pages <==> x == p {
      assert x in pages <==> FIRST_USER <= x.i < END_USER && Maps(ts, Va(Key(0, x.i), x.j), x.frame);
    }
    OnePage(pages, p);
    assert Cost(pages, 0) == 1 && NewTable(pages, 0);
  }

  /**
   From paging_init: a space with a stack page and, once the kernel has taken all but two frames, a fork of
   it. The fork succeeds, and the child has no stack.
   */
  method ForkWithoutStack(mem: seq<seq<Word>>) returns (m: Machine, r: int)
    requires Pages(mem)
    ensures fresh(m) && Reached(m) && r == 0
    ensures Look(m.tables, m.mem, STACK).Some? && Look(m.tables, m.mem, Va(Key(1, 767), 1023)) == None
  {
    hide Look, Maps, UserPages, Affords, LosesLast, Starves, Good, Injective, Ramp, Placed;
    m := new Machine(mem);
    Unmapped(m.tables, mem);
    var ok := m.NewSpace(0);
    MapFresh(m, STACK);
    ghost var f, ts := Ramp(NUM_PAGES)[1], m.tables;
    while |m.freeq| > 2
      invariant Reached(m) && m.tables == ts && m.mem == mem && m.dirs.Keys == {0} && |m.freeq| >= 2
    {
      var taken := m.AllocFrame();
    }
    StackCost(ts, f);
    r := Fork(m, 0, 1);
  }
}
