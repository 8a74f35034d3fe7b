/** What each step of a copy-on-write fault, of page allocation and of teardown does to who owns which frame. */
module Cow {
  import opened Basics
  import opened Bits
  import opened Pte
  import opened Frames

  const WORDS := 1024

  // ------------------------------------------------------------------ what each operation does to ownership

  ghost predicate Shaped(st: State) {
    TablesOk(st.tables) && |st.refs| == NUM_PAGES && Separate(st)
  }

  /** What is known of frame f. */
  lemma {:induction false} FrameOf(st: State, f: nat)
    requires Counted(st) && Managed(f)
    ensures FrameOk(st, f) && (|Holders(st, f)| == 0 <==> Holders(st, f) == {})
  {
  }

  /** Good, from its parts. */
  lemma {:induction false} GoodFrom(st: State)
    requires Shaped(st) && Exclusive(st) && forall f :: Managed(f) ==> FrameOk(st, f)
    ensures Good(st)
  {
  }

  lemma {:induction false} GoodParts(st: State)
    requires Good(st)
    ensures Shaped(st) && Exclusive(st) && Counted(st)
  {
  }

  // ------------------------------------------------------------------ taking a free frame

  /** alloc_page_frame on a non-empty free list: the frame is in kernel hands. */
  ghost function Taken(st: State): (st': State)
    requires Shaped(st) && st.freeq != []
    ensures |st'.refs| == NUM_PAGES && st'.tables == st.tables
  {
    FreeManaged(st);
    var f := st.freeq[0];
    st.(freeq := st.freeq[1..], refs := st.refs[f := 1], other := st.other + {f})
  }

  lemma {:induction false} FreeManaged(st: State)
    requires Separate(st) && st.freeq != []
    ensures Managed(st.freeq[0]) && st.freeq[0] !in st.freeq[1..]
    ensures forall g :: g in st.freeq <==> g == st.freeq[0] || g in st.freeq[1..]
  {
    assert st.freeq[0] in st.freeq;
    assert st.freeq == [st.freeq[0]] + st.freeq[1..];
  }

  lemma {:induction false} TakenFrame(st: State, g: nat)
    requires Good(st) && st.freeq != [] && Managed(g)
    ensures FrameOk(Taken(st), g)
  {
    hide Exclusive, Users, IsTable, IsDir, Separate, Good, TablesOk;
    GoodParts(st);
    FrameOf(st, g);
    FreeManaged(st);
    FrameOf(st, st.freeq[0]);
    var st' := Taken(st);
    TakenSame(st, g);
  }

  lemma {:induction false} TakenSame(st: State, g: nat)
    requires Shaped(st) && st.freeq != []
    ensures var st' := Taken(st);
            && Holders(st', g) == Holders(st, g) && (IsTable(st', g) <==> IsTable(st, g)) && (IsDir(st', g) <==> IsDir(st, g))
  {
  }

  lemma {:induction false} TakenGood(st: State)
    requires Good(st) && st.freeq != []
    ensures Good(Taken(st)) && Managed(st.freeq[0]) && Holders(st, st.freeq[0]) == {} && st.freeq[0] !in st.other
  {
    hide FrameOk, Users;
    GoodParts(st);
    FreeManaged(st);
    FrameOf(st, st.freeq[0]);
    assert OneUse(true, |Holders(st, st.freeq[0])|, IsTable(st, st.freeq[0]), IsDir(st, st.freeq[0]),
        st.freeq[0] in st.other, st.refs[st.freeq[0]]) by {
      UseOf(st, st.freeq[0]);
    }
    var st' := Taken(st);
    forall g | Managed(g) ensures FrameOk(st', g) { TakenFrame(st, g); }
    SameHolders(st, st');
    GoodFrom(st');
  }

  lemma {:induction false} UseOf(st: State, f: nat)
    requires Counted(st) && Managed(f)
    ensures OneUse(f in st.freeq, |Holders(st, f)|, IsTable(st, f), IsDir(st, f), f in st.other, st.refs[f])
  {
    FrameOf(st, f);
  }

  lemma {:induction false} SameHolders(st: State, st': State)
    requires TablesOk(st.tables) && st'.tables == st.tables && st'.gone == st.gone && Exclusive(st)
    ensures Exclusive(st')
  {
    forall va, f | Maps(st'.tables, va, f) && va !in st'.gone && Writable(st'.tables[va.key].ptes[va.j])
      ensures Holders(st', f) == {va}
    {
      assert Holders(st, f) == {va};
    }
  }

  // ------------------------------------------------------------------ dropping a reference

  /** free_page_frame's effect on counts and free list. */
  function FreedRefs(refs: seq<nat>, f: nat): seq<nat> {
    if f < |refs| && refs[f] > 0 then refs[f := refs[f] - 1] else refs
  }

  function FreedList(refs: seq<nat>, freeq: seq<nat>, f: nat): seq<nat> {
    if f < |refs| && refs[f] > 1 then freeq else if Managed(f) then [f] + freeq else freeq
  }

  ghost function Dropped(st: State, va: Va, f: nat): State {
    st.(refs := FreedRefs(st.refs, f), freeq := FreedList(st.refs, st.freeq, f), gone := st.gone + {va})
  }

  lemma {:induction false} DroppedFrame(st: State, va: Va, f: nat, g: nat)
    requires Good(st) && Maps(st.tables, va, f) && va !in st.gone && Managed(f) && Managed(g)
    ensures FrameOk(Dropped(st, va, f), g)
  {
    hide Exclusive, Users, IsTable, IsDir, Separate, Good, TablesOk, Maps;
    GoodParts(st);
    FrameOf(st, g);
    FrameOf(st, f);
    DroppedSame(st, va, f, g);
    UsersHas(st.tables, f, va);
    Smaller(Holders(st, f), va);
  }

  lemma {:induction false} DroppedSame(st: State, va: Va, f: nat, g: nat)
    requires TablesOk(st.tables) && Maps(st.tables, va, f)
    ensures var st' := Dropped(st, va, f);
            && Holders(st', g) == (if g == f then Holders(st, g) - {va} else Holders(st, g))
            && (IsTable(st', g) <==> IsTable(st, g)) && (IsDir(st', g) <==> IsDir(st, g))
  {
    UsersHas(st.tables, g, va);
  }

  lemma {:induction false} Smaller(s: set<Va>, x: Va)
    requires x in s
    ensures |s - {x}| == |s| - 1 && (s - {x} == {} <==> |s| == 1)
  {
    assert s == s - {x} + {x};
    assert s - {x} == {} <==> |s - {x}| == 0;
  }

  lemma {:induction false} DroppedGood(st: State, va: Va, f: nat)
    requires Good(st) && Maps(st.tables, va, f) && va !in st.gone
    ensures Managed(f) && Good(Dropped(st, va, f))
  {
    hide FrameOk, Users;
    GoodParts(st);
    assert TableOk(st.tables[va.key]);
    var st' := Dropped(st, va, f);
    forall g | Managed(g) ensures FrameOk(st', g) { DroppedFrame(st, va, f, g); }
    UsersHas(st.tables, f, va);
    UseOf(st, f);
    FrameOf(st, f);
    assert f !in st.freeq;
    DroppedExclusive(st, va, f);
    GoodFrom(st');
  }

  lemma {:induction false} DroppedExclusive(st: State, va: Va, f: nat)
    requires TablesOk(st.tables) && Exclusive(st) && Maps(st.tables, va, f)
    ensures Exclusive(Dropped(st, va, f))
  {
    var st' := Dropped(st, va, f);
    forall x, g | Maps(st'.tables, x, g) && x !in st'.gone && Writable(st'.tables[x.key].ptes[x.j]) ensures Holders(st', g) == {x} {
      assert Holders(st, g) == {x};
      DroppedSame(st, va, f, g);
    }
  }

  // ------------------------------------------------------------------ changing an entry

  lemma {:induction false} SameTables(st: State, st': State, g: nat)
    requires st'.tables.Keys == st.tables.Keys && (forall k <- st.tables :: st'.tables[k].frame == st.tables[k].frame)
    ensures IsTable(st', g) <==> IsTable(st, g)
  {
    if IsTable(st, g) { var k :| k in st.tables && st.tables[k].frame == g; assert st'.tables[k].frame == g; }
    if IsTable(st', g) { var k :| k in st'.tables && st'.tables[k].frame == g; assert st.tables[k].frame == g; }
  }

  ghost predicate EntryOk(st: State, va: Va, w: Word) {
    && va.key in st.tables && va.j < |st.tables[va.key].ptes| == ENTRIES && Present(w) && User(w) && Managed(Frame(w))
  }

  /** Pointing a released entry at a frame that was in kernel hands. */
  ghost function Pointed(st: State, va: Va, w: Word): (st': State)
    requires EntryOk(st, va, w)
  {
    st.(tables := SetEntry(st.tables, va, w), other := st.other - {Frame(w)}, gone := st.gone - {va})
  }

  lemma {:induction false} PointedHolders(st: State, va: Va, w: Word, g: nat)
    requires TablesOk(st.tables) && EntryOk(st, va, w) && va in st.gone && Holders(st, Frame(w)) == {}
    ensures TablesOk(Pointed(st, va, w).tables)
    ensures Holders(Pointed(st, va, w), g) == if g == Frame(w) then {va} else Holders(st, g)
    ensures IsTable(Pointed(st, va, w), g) <==> IsTable(st, g)
  {
    hide Present, Writable, User, Users, Frame;
    SetEntryUsers(st.tables, va, w, g);
    SameTables(st, Pointed(st, va, w), g);
  }

  lemma {:induction false} PointedGood(st: State, va: Va, w: Word)
    requires Good(st) && EntryOk(st, va, w) && va in st.gone && Frame(w) in st.other && st.refs[Frame(w)] == 1
    ensures Good(Pointed(st, va, w))
  {
    hide Present, Writable, User, Users, Frame, Exclusive, IsTable, TablesOk, SetEntry;
    GoodParts(st);
    var st', f := Pointed(st, va, w), Frame(w);
    FrameOf(st, f);
    forall g | Managed(g) ensures TablesOk(st'.tables) && FrameOk(st', g) {
      FrameOf(st, g);
      PointedHolders(st, va, w, g);
      assert |{va}| == 1;
    }
    PointedHolders(st, va, w, f);
    PointedSeparate(st, va, w);
    PointedExclusive(st, va, w);
    GoodFrom(st');
  }

  lemma {:induction false} PointedSeparate(st: State, va: Va, w: Word)
    requires Separate(st) && EntryOk(st, va, w)
    ensures Separate(Pointed(st, va, w))
  {
    hide Present, User, Frame;
  }

  lemma {:induction false} PointedExclusive(st: State, va: Va, w: Word)
    requires TablesOk(st.tables) && Exclusive(st) && EntryOk(st, va, w) && va in st.gone && Holders(st, Frame(w)) == {}
    ensures TablesOk(Pointed(st, va, w).tables) && Exclusive(Pointed(st, va, w))
  {
    hide Present, Writable, User, Users, Frame, TablesOk;
    var st' := Pointed(st, va, w);
    PointedHolders(st, va, w, 0);
    forall x, g | Maps(st'.tables, x, g) && x !in st'.gone && Writable(st'.tables[x.key].ptes[x.j]) ensures Holders(st', g) == {x} {
      PointedHolders(st, va, w, g);
      if x != va {
        assert Maps(st.tables, x, g);
        assert Holders(st, g) == {x};
      }
    }
  }

  /** Making the sole entry of a frame writable. */
  ghost function Unprotected(st: State, va: Va, w: Word): (st': State)
    requires EntryOk(st, va, w)
  {
    st.(tables := SetEntry(st.tables, va, w))
  }

  lemma {:induction false} UnprotectedHolders(st: State, va: Va, w: Word, g: nat)
    requires TablesOk(st.tables) && EntryOk(st, va, w) && Maps(st.tables, va, Frame(w))
    ensures TablesOk(Unprotected(st, va, w).tables)
    ensures Holders(Unprotected(st, va, w), g) == Holders(st, g)
    ensures IsTable(Unprotected(st, va, w), g) <==> IsTable(st, g)
  {
    hide Present, Writable, User, Users, Frame;
    SetEntryUsers(st.tables, va, w, g);
    UsersHas(st.tables, g, va);
    SameTables(st, Unprotected(st, va, w), g);
  }

  lemma {:induction false} UnprotectedGood(st: State, va: Va, w: Word)
    requires Good(st) && EntryOk(st, va, w) && Maps(st.tables, va, Frame(w)) && Holders(st, Frame(w)) == {va}
    ensures Good(Unprotected(st, va, w))
  {
    hide Present, Writable, User, Users, Frame, Exclusive, IsTable, TablesOk, SetEntry, Maps;
    GoodParts(st);
    var st' := Unprotected(st, va, w);
    forall g | Managed(g) ensures TablesOk(st'.tables) && FrameOk(st', g) {
      FrameOf(st, g);
      UnprotectedHolders(st, va, w, g);
    }
    UnprotectedHolders(st, va, w, 0);
    UnprotectedSeparate(st, va, w);
    UnprotectedExclusive(st, va, w);
    GoodFrom(st');
  }

  lemma {:induction false} UnprotectedSeparate(st: State, va: Va, w: Word)
    requires Separate(st) && EntryOk(st, va, w)
    ensures Separate(Unprotected(st, va, w))
  {
    hide Present, User, Frame;
  }

  lemma {:induction false} UnprotectedExclusive(st: State, va: Va, w: Word)
    requires TablesOk(st.tables) && Exclusive(st) && EntryOk(st, va, w) && Maps(st.tables, va, Frame(w)) && Holders(st, Frame(w)) == {va}
    ensures TablesOk(Unprotected(st, va, w).tables) && Exclusive(Unprotected(st, va, w))
  {
    hide Present, Writable, User, Users, Frame, TablesOk;
    var st' := Unprotected(st, va, w);
    UnprotectedHolders(st, va, w, 0);
    forall x, g | Maps(st'.tables, x, g) && x !in st'.gone && Writable(st'.tables[x.key].ptes[x.j]) ensures Holders(st', g) == {x} {
      UnprotectedHolders(st, va, w, g);
      if x != va {
        assert Maps(st.tables, x, g);
        assert Holders(st, g) == {x};
      }
    }
  }

  // ------------------------------------------------------------------ freeing tables and directories

  /** Every present entry of the table has been released. */
  ghost predicate Emptied(st: State, key: Key) {
    forall j, f :: Maps(st.tables, Va(key, j), f) ==> Va(key, j) in st.gone
  }

  ghost predicate OnlyOf(st: State, key: Key) {
    forall va <- st.gone :: va.key == key
  }

  /** Freeing an emptied page table: the released entries are forgotten with it. */
  ghost function Unlinked(st: State, key: Key): (st': State)
    requires key in st.tables
  {
    var f := st.tables[key].frame;
    st.(tables := st.tables - {key}, refs := FreedRefs(st.refs, f), freeq := FreedList(st.refs, st.freeq, f), gone := {})
  }

  lemma {:induction false} UnlinkedSame(st: State, key: Key, g: nat)
    requires TablesOk(st.tables) && key in st.tables && Emptied(st, key) && OnlyOf(st, key) && Separate(st)
    ensures TablesOk(Unlinked(st, key).tables)
    ensures Holders(Unlinked(st, key), g) == Holders(st, g)
    ensures IsTable(Unlinked(st, key), g) <==> IsTable(st, g) && g != st.tables[key].frame
  {
    hide Present, Frame, User, FreedRefs, FreedList;
    var st' := Unlinked(st, key);
    forall k <- st'.tables ensures TableOk(st'.tables[k]) { assert TableOk(st.tables[k]); }
    forall x ensures x in Holders(st', g) <==> x in Holders(st, g) {
      UsersHas(st.tables, g, x);
      UsersHas(st'.tables, g, x);
      if x.key == key && Maps(st.tables, x, g) { assert x == Va(key, x.j); }
    }
    if IsTable(st, g) && g != st.tables[key].frame { var k :| k in st.tables && st.tables[k].frame == g; assert k in st'.tables; }
    if IsTable(st', g) { var k :| k in st'.tables && st'.tables[k].frame == g; assert k in st.tables && k != key; }
  }

  lemma {:induction false} UnlinkedGood(st: State, key: Key)
    requires Good(st) && key in st.tables && Emptied(st, key) && OnlyOf(st, key)
    ensures Good(Unlinked(st, key))
  {
    hide FrameOk, Users, Exclusive, Emptied, OnlyOf, Separate, Holders, TablesOk, Good;
    GoodParts(st);
    var st' := Unlinked(st, key);
    forall g | Managed(g) ensures TablesOk(st'.tables) && FrameOk(st', g) {
      UnlinkedSame(st, key, g);
      UnlinkedFrame(st, key, g);
    }
    UnlinkedSame(st, key, 0);
    UnlinkedExclusive(st, key);
    UnlinkedSeparate(st, key);
    GoodFrom(st');
  }

  lemma {:induction false} UnlinkedFrame(st: State, key: Key, g: nat)
    requires Good(st) && key in st.tables && Emptied(st, key) && OnlyOf(st, key) && Managed(g) && TablesOk(Unlinked(st, key).tables)
    ensures |Unlinked(st, key).refs| == NUM_PAGES && FrameOk(Unlinked(st, key), g)
  {
    hide Users, Exclusive, Emptied, OnlyOf, Separate, IsTable, IsDir, Good, TablesOk;
    GoodParts(st);
    TableFrame(st, key);
    FrameOf(st, st.tables[key].frame);
    FrameOf(st, g);
    UnlinkedSame(st, key, g);
    assert IsDir(Unlinked(st, key), g) <==> IsDir(st, g) by { SameDirs(st, Unlinked(st, key), g); }
  }

  lemma {:induction false} SameDirs(st: State, st': State, g: nat)
    requires st'.dirs == st.dirs
    ensures IsDir(st', g) <==> IsDir(st, g)
  {
  }

  lemma {:induction false} TableFrame(st: State, key: Key)
    requires TablesOk(st.tables) && key in st.tables
    ensures Managed(st.tables[key].frame) && IsTable(st, st.tables[key].frame)
  {
    assert TableOk(st.tables[key]);
  }

  lemma {:induction false} UnlinkedSeparate(st: State, key: Key)
    requires Counted(st) && key in st.tables
    ensures Separate(Unlinked(st, key))
  {
    hide Users;
    TableFrame(st, key);
    UseOf(st, st.tables[key].frame);
  }

  lemma {:induction false} UnlinkedExclusive(st: State, key: Key)
    requires TablesOk(st.tables) && Exclusive(st) && key in st.tables && Emptied(st, key) && OnlyOf(st, key) && Separate(st)
    ensures TablesOk(Unlinked(st, key).tables) && Exclusive(Unlinked(st, key))
  {
    hide Present, User, Users, Frame, TablesOk, FreedRefs, FreedList;
    var st' := Unlinked(st, key);
    UnlinkedSame(st, key, 0);
    forall x, g | Maps(st'.tables, x, g) && x !in st'.gone && Writable(st'.tables[x.key].ptes[x.j]) ensures Holders(st', g) == {x} {
      UnlinkedSame(st, key, g);
      assert Maps(st.tables, x, g) && x !in st.gone;
      assert Holders(st, g) == {x};
    }
  }

  /** Freeing a page directory. */
  ghost function Undirected(st: State, space: int): (st': State)
    requires space in st.dirs
  {
    var f := st.dirs[space];
    st.(dirs := st.dirs - {space}, refs := FreedRefs(st.refs, f), freeq := FreedList(st.refs, st.freeq, f))
  }

  lemma {:induction false} UndirectedGood(st: State, space: int)
    requires Good(st) && space in st.dirs
    ensures Good(Undirected(st, space))
  {
    hide Users, Exclusive, TablesOk;
    GoodParts(st);
    var st', d := Undirected(st, space), st.dirs[space];
    assert Managed(d);
    FrameOf(st, d);
    assert IsDir(st, d);
    forall g | Managed(g) ensures FrameOk(st', g) {
      FrameOf(st, g);
      assert Holders(st', g) == Holders(st, g);
      assert IsTable(st', g) <==> IsTable(st, g);
      UndirectedDirs(st, space, g);
    }
    SameHolders(st, st');
    assert Separate(st') by { UseOf(st, d); }
    GoodFrom(st');
  }

  lemma {:induction false} UndirectedDirs(st: State, space: int, g: nat)
    requires Separate(st) && space in st.dirs
    ensures IsDir(Undirected(st, space), g) <==> IsDir(st, g) && g != st.dirs[space]
  {
    hide FreedRefs, FreedList;
    var st' := Undirected(st, space);
    if IsDir(st, g) && g != st.dirs[space] { var s :| s in st.dirs && st.dirs[s] == g; assert s in st'.dirs; }
    if IsDir(st', g) { var s :| s in st'.dirs && st'.dirs[s] == g; assert s in st.dirs && s != space; }
  }
}
