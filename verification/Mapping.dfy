/** What new address spaces, page tables and entries do to who owns which frame. */
module Mapping {
  import opened Basics
  import opened Bits
  import opened Pte
  import opened Frames
  import opened Cow

  // ------------------------------------------------------------------ a page directory

  /** paging_create_task_pd: a frame in kernel hands becomes the directory of a space. */
  ghost function Directed(st: State, space: int, f: nat): State {
    st.(dirs := st.dirs[space := f], other := st.other - {f})
  }

  lemma {:induction false} DirectedDirs(st: State, space: int, f: nat, g: nat)
    requires space !in st.dirs
    ensures IsDir(Directed(st, space, f), g) <==> IsDir(st, g) || g == f
  {
    var st' := Directed(st, space, f);
    if IsDir(st, g) { var s :| s in st.dirs && st.dirs[s] == g; assert s in st'.dirs && st'.dirs[s] == g; }
    if g == f { assert st'.dirs[space] == g; }
  }

  lemma {:induction false} DirectedGood(st: State, space: int, f: nat)
    requires Good(st) && space !in st.dirs && f in st.other && Managed(f) && |st.refs| == NUM_PAGES && st.refs[f] == 1 && f !in st.freeq
    requires !IsDir(st, f)
    ensures Good(Directed(st, space, f))
  {
    hide Users, Exclusive, TablesOk, Maps, IsDir;
    GoodParts(st);
    var st' := Directed(st, space, f);
    forall g | Managed(g) ensures FrameOk(st', g) {
      FrameOf(st, g);
      assert Holders(st', g) == Holders(st, g);
      assert IsTable(st', g) <==> IsTable(st, g);
      DirectedDirs(st, space, f, g);
    }
    SameHolders(st, st');
    DirectedSeparate(st, space, f);
    GoodFrom(st');
  }

  lemma {:induction false} DirectedSeparate(st: State, space: int, f: nat)
    requires Separate(st) && space !in st.dirs && !IsDir(st, f) && Managed(f)
    ensures Separate(Directed(st, space, f))
  {
  }

  /** What is in kernel hands is in no other use. */
  lemma {:induction false} OtherUse(st: State, f: nat)
    requires Good(st) && f in st.other && Managed(f)
    ensures |st.refs| == NUM_PAGES && TablesOk(st.tables) && f !in st.freeq && !IsDir(st, f) && !IsTable(st, f) && Holders(st, f) == {}
  {
    hide Users, Exclusive, TablesOk, Maps, IsDir, IsTable, Separate;
    GoodParts(st);
    FrameOf(st, f);
  }

  // ------------------------------------------------------------------ a page table

  function ZeroTable(f: nat): Table {
    Table(f, seq(ENTRIES, j => 0))
  }

  /** map_page's new page table: _alloc_phys_page leaves the reference count at 0. */
  ghost function Tabled(st: State, key: Key): State
    requires st.freeq != []
  {
    st.(freeq := st.freeq[1..], tables := st.tables[key := ZeroTable(st.freeq[0])])
  }

  lemma {:induction false} ZeroTableOk(f: nat)
    requires Managed(f)
    ensures TableOk(ZeroTable(f)) && !Present(0)
  {
    hide And;
    FlagsAre(0);
  }

  lemma {:induction false} TabledMaps(st: State, key: Key, va: Va, g: nat)
    requires st.freeq != [] && key !in st.tables
    ensures Maps(Tabled(st, key).tables, va, g) <==> Maps(st.tables, va, g)
  {
    hide Present, Frame;
    assert !Present(0) by { ZeroTableOk(PAGE_START_INDEX); }
  }

  lemma {:induction false} TabledOk(st: State, key: Key)
    requires TablesOk(st.tables) && st.freeq != [] && Managed(st.freeq[0]) && key !in st.tables
    ensures TablesOk(Tabled(st, key).tables)
  {
    hide TableOk;
    ZeroTableOk(st.freeq[0]);
    var ts' := Tabled(st, key).tables;
    forall k <- ts' ensures TableOk(ts'[k]) { assert k != key ==> TableOk(st.tables[k]); }
  }

  lemma {:induction false} TabledHolders(st: State, key: Key, g: nat)
    requires TablesOk(st.tables) && st.freeq != [] && Managed(st.freeq[0]) && key !in st.tables
    ensures TablesOk(Tabled(st, key).tables) && Holders(Tabled(st, key), g) == Holders(st, g)
    ensures IsTable(Tabled(st, key), g) <==> IsTable(st, g) || g == st.freeq[0]
  {
    hide Maps, Users, TablesOk;
    TabledOk(st, key);
    var st' := Tabled(st, key);
    forall x ensures x in Users(st'.tables, g) <==> x in Users(st.tables, g) {
      UsersHas(st.tables, g, x);
      UsersHas(st'.tables, g, x);
      TabledMaps(st, key, x, g);
    }
    TabledTables(st, key, g);
  }

  lemma {:induction false} TabledTables(st: State, key: Key, g: nat)
    requires st.freeq != [] && key !in st.tables
    ensures IsTable(Tabled(st, key), g) <==> IsTable(st, g) || g == st.freeq[0]
  {
    var st' := Tabled(st, key);
    if IsTable(st, g) { var k :| k in st.tables && st.tables[k].frame == g; assert k in st'.tables && st'.tables[k].frame == g; }
    if g == st.freeq[0] { assert st'.tables[key].frame == g; }
    if IsTable(st', g) { var k :| k in st'.tables && st'.tables[k].frame == g; assert k != key ==> st.tables[k].frame == g; }
  }

  lemma {:induction false} TabledGood(st: State, key: Key)
    requires Good(st) && st.freeq != [] && key !in st.tables
    ensures Good(Tabled(st, key))
  {
    hide Users, Exclusive, TablesOk, Maps, IsDir, IsTable, Separate, Holders, Tabled;
    GoodParts(st);
    FreeManaged(st);
    var st' := Tabled(st, key);
    forall g | Managed(g) ensures TablesOk(st'.tables) && |st'.refs| == NUM_PAGES && FrameOk(st', g) { TabledFrame(st, key, g); }
    TabledFrame(st, key, st.freeq[0]);
    TabledSeparate(st, key);
    TabledExclusive(st, key);
    GoodFrom(st');
  }

  lemma {:induction false} TabledFrame(st: State, key: Key, g: nat)
    requires Good(st) && st.freeq != [] && key !in st.tables && Managed(g)
    ensures TablesOk(Tabled(st, key).tables) && |Tabled(st, key).refs| == NUM_PAGES && FrameOk(Tabled(st, key), g)
  {
    hide Users, Exclusive, TablesOk, Maps, IsDir, IsTable, Separate;
    GoodParts(st);
    FreeManaged(st);
    FrameOf(st, st.freeq[0]);
    FrameOf(st, g);
    TabledHolders(st, key, g);
    SameDirs(st, Tabled(st, key), g);
  }

  lemma {:induction false} TabledSeparate(st: State, key: Key)
    requires Counted(st) && st.freeq != [] && key !in st.tables
    ensures Separate(Tabled(st, key))
  {
    hide Users;
    FreeManaged(st);
    UseOf(st, st.freeq[0]);
  }

  lemma {:induction false} TabledExclusive(st: State, key: Key)
    requires TablesOk(st.tables) && Exclusive(st) && st.freeq != [] && Managed(st.freeq[0]) && key !in st.tables
    ensures TablesOk(Tabled(st, key).tables) && Exclusive(Tabled(st, key))
  {
    hide Users, TablesOk, Holders, Writable, Present, Frame;
    var st' := Tabled(st, key);
    TabledHolders(st, key, 0);
    forall x, g | Maps(st'.tables, x, g) && x !in st'.gone && Writable(st'.tables[x.key].ptes[x.j]) ensures Holders(st', g) == {x} {
      TabledHolders(st, key, g);
      TabledMaps(st, key, x, g);
      assert st'.tables[x.key] == st.tables[x.key];
    }
  }

  // ------------------------------------------------------------------ an entry

  /** The flags of a user page: present, writable, user. */
  const PTE_ALL: Word := 7

  lemma {:induction false} NewEntry(f: nat)
    requires Managed(f)
    ensures var w := Or(f * 4096, And(PTE_ALL, FLAGS));
            w < WRAP && Present(w) && Writable(w) && User(w) && Frame(w) == f
  {
    hide And, Or, Present, Writable, User, Frame;
    FrameIs(PTE_ALL);
    OrFlags(f, 7);
    FrameIs(f * 4096 + 7);
    FlagsAre(f * 4096 + 7);
  }

  function UserEntry(f: nat): Word
    requires Managed(f)
  {
    NewEntry(f);
    Or(f * 4096, And(PTE_ALL, FLAGS))
  }

  lemma {:induction false} UserEntryIs(f: nat)
    requires Managed(f)
    ensures var w := UserEntry(f); Present(w) && Writable(w) && User(w) && Frame(w) == f
  {
    hide And, Or, Present, Writable, User, Frame;
    NewEntry(f);
  }

  /** map_page on an entry that is not present: the frame leaves kernel hands. */
  lemma {:induction false} EntryGood(st: State, va: Va, w: Word)
    requires Good(st) && st.gone == {} && EntryOk(st, va, w) && !Present(st.tables[va.key].ptes[va.j])
    requires Frame(w) in st.other && |st.refs| == NUM_PAGES && st.refs[Frame(w)] == 1
    ensures Good(st.(tables := SetEntry(st.tables, va, w), other := st.other - {Frame(w)}))
  {
    hide Good, Present, User, Frame, SetEntry;
    GoneGood(st, va);
    var st1 := st.(gone := {va});
    PointedGood(st1, va, w);
    assert {va} - {va} == {};
    assert Pointed(st1, va, w) == st.(tables := SetEntry(st.tables, va, w), other := st.other - {Frame(w)});
  }

  /** To call an entry that is not present released changes nothing. */
  lemma {:induction false} GoneGood(st: State, va: Va)
    requires Good(st) && st.gone == {} && va.key in st.tables && va.j < |st.tables[va.key].ptes| && !Present(st.tables[va.key].ptes[va.j])
    ensures Good(st.(gone := {va}))
  {
    hide Present, User, Frame, Users, IsDir, IsTable, TablesOk;
    GoodParts(st);
    var st' := st.(gone := {va});
    forall g: nat ensures Holders(st', g) == Holders(st, g) { UsersHas(st.tables, g, va); }
    forall g | Managed(g) ensures FrameOk(st', g) {
      FrameOf(st, g);
      SameDirs(st, st', g);
      SameTables(st, st', g);
    }
    GoodFrom(st');
  }

  /** The tables after map_page of frame f, when a page table is there or can be had. */
  ghost function Placed(ts: Tables, freeq: seq<nat>, va: Va, f: nat): (ts': Tables)
    requires Managed(f) && va.j < ENTRIES && (if va.key in ts then va.j < |ts[va.key].ptes| else freeq != [])
  {
    SetEntry(if va.key in ts then ts else ts[va.key := ZeroTable(freeq[0])], va, UserEntry(f))
  }

  lemma {:induction false} PlacedMaps(ts: Tables, freeq: seq<nat>, va: Va, f: nat, x: Va, g: nat)
    requires Managed(f) && va.j < ENTRIES && (if va.key in ts then va.j < |ts[va.key].ptes| else freeq != [])
    ensures Maps(Placed(ts, freeq, va, f), x, g) <==> if x == va then g == f else Maps(ts, x, g)
    ensures Placed(ts, freeq, va, f).Keys == ts.Keys + {va.key}
    ensures forall k <- ts :: k != va.key ==> Placed(ts, freeq, va, f)[k] == ts[k]
  {
    hide Present, Frame, UserEntry, And, Or, User, Writable, TableOk;
    UserEntryIs(f);
    ZeroTableOk(PAGE_START_INDEX);
  }

  /** Conservation: a frame is free exactly when it is mapped nowhere, is no table or directory and is in no kernel use. */
  lemma {:induction false} FreeExactly(st: State, f: nat)
    requires Good(st) && Managed(f)
    ensures TablesOk(st.tables)
    ensures f in st.freeq <==> Holders(st, f) == {} && !IsTable(st, f) && !IsDir(st, f) && f !in st.other
  {
    hide Users, Exclusive, Separate, IsTable, IsDir, TablesOk;
    FrameOf(st, f);
  }
}
