/**
 Who owns each page frame. A frame is free, or mapped by as many user entries as its reference count
 says, or holds a page table or a page directory, or is in some other kernel use.
 */
module Frames {
  import opened Basics
  import opened Bits
  import opened Pte

  const PAGE_START_INDEX := 1024
  const ENTRIES := 1024

  /** One page table of one address space: directory index i. */
  datatype Key = Key(space: int, i: nat)

  /** A user address, as the place of its entry. */
  datatype Va = Va(key: Key, j: nat)

  datatype Table = Table(frame: nat, ptes: seq<Word>)

  type Tables = map<Key, Table>

  /** The tables and directories, the reference counts, the free list, frames in other kernel use, and entries already released. */
  datatype State = State(tables: Tables, dirs: map<int, nat>, refs: seq<nat>, freeq: seq<nat>, other: set<nat>, gone: set<Va>)

  predicate Managed(f: nat) {
    PAGE_START_INDEX <= f < NUM_PAGES
  }

  ghost predicate TableOk(t: Table) {
    && Managed(t.frame) && |t.ptes| == ENTRIES
    && forall j :: 0 <= j < ENTRIES && Present(t.ptes[j]) ==> Managed(Frame(t.ptes[j])) && User(t.ptes[j])
  }

  ghost predicate TablesOk(ts: Tables) {
    forall k <- ts :: TableOk(ts[k])
  }

  ghost predicate Maps(ts: Tables, va: Va, f: nat) {
    && va.key in ts && va.j < |ts[va.key].ptes| && Present(ts[va.key].ptes[va.j]) && Frame(ts[va.key].ptes[va.j]) == f
  }

  /** The entries that map frame f. */
  ghost function Users(ts: Tables, f: nat): set<Va>
    requires TablesOk(ts)
  {
    set k, j | k in ts.Keys && 0 <= j < ENTRIES && Maps(ts, Va(k, j), f) :: Va(k, j)
  }

  lemma {:induction false} UsersHas(ts: Tables, f: nat, va: Va)
    requires TablesOk(ts)
    ensures va in Users(ts, f) <==> Maps(ts, va, f)
  {
    if Maps(ts, va, f) {
      assert TableOk(ts[va.key]);
      assert va == Va(va.key, va.j);
    }
  }

  /** The entries that still hold a reference on f. */
  ghost function Holders(st: State, f: nat): set<Va>
    requires TablesOk(st.tables)
  {
    Users(st.tables, f) - st.gone
  }

  ghost predicate IsTable(st: State, f: nat) {
    exists k <- st.tables :: st.tables[k].frame == f
  }

  ghost predicate IsDir(st: State, f: nat) {
    exists sp <- st.dirs :: st.dirs[sp] == f
  }

  /** A frame is in exactly one use, and its reference count is right for it. */
  predicate OneUse(free: bool, holders: nat, table: bool, dir: bool, other: bool, refs: nat) {
    if free then holders == 0 && !table && !dir && !other && refs == 0
    else if table then holders == 0 && !dir && !other && refs == 0
    else if dir then holders == 0 && !other && refs == 1
    else if other then holders == 0
    else holders > 0 && refs == holders
  }

  ghost predicate FrameOk(st: State, f: nat)
    requires TablesOk(st.tables) && |st.refs| == NUM_PAGES && Managed(f)
  {
    OneUse(f in st.freeq, |Holders(st, f)|, IsTable(st, f), IsDir(st, f), f in st.other, st.refs[f])
  }

  ghost predicate Separate(st: State) {
    && (forall k, k' :: k in st.tables && k' in st.tables && st.tables[k].frame == st.tables[k'].frame ==> k == k')
    && (forall s, s' :: s in st.dirs && s' in st.dirs && st.dirs[s] == st.dirs[s'] ==> s == s')
    && (forall s <- st.dirs :: Managed(st.dirs[s]))
    && (forall i, j :: 0 <= i < j < |st.freeq| ==> st.freeq[i] != st.freeq[j])
    && (forall f <- st.freeq :: Managed(f))
  }

  ghost predicate Counted(st: State) {
    && TablesOk(st.tables) && |st.refs| == NUM_PAGES && Separate(st)
    && (forall f :: Managed(f) ==> FrameOk(st, f))
  }

  /** A writable entry is the only one on its frame. */
  ghost predicate Exclusive(st: State)
    requires TablesOk(st.tables)
  {
    forall va, f :: Maps(st.tables, va, f) && va !in st.gone && Writable(st.tables[va.key].ptes[va.j]) ==> Holders(st, f) == {va}
  }

  ghost predicate Good(st: State) {
    Counted(st) && Exclusive(st)
  }

  // ------------------------------------------------------------------ changing one entry

  function SetEntry(ts: Tables, va: Va, w: Word): Tables
    requires va.key in ts && va.j < |ts[va.key].ptes|
  {
    ts[va.key := Table(ts[va.key].frame, ts[va.key].ptes[va.j := w])]
  }

  lemma {:induction false} SetEntryUsers(ts: Tables, va: Va, w: Word, f: nat)
    requires TablesOk(ts) && va.key in ts && va.j < ENTRIES && (Present(w) ==> Managed(Frame(w)) && User(w))
    ensures TableOk(ts[va.key]) && TablesOk(SetEntry(ts, va, w))
    ensures Users(SetEntry(ts, va, w), f) == Users(ts, f) - {va} + if Present(w) && Frame(w) == f then {va} else {}
  {
    hide Present, Frame, User;
    assert TableOk(ts[va.key]);
    var ts' := SetEntry(ts, va, w);
    forall k <- ts' ensures TableOk(ts'[k]) { assert k in ts && TableOk(ts[k]); }
    forall x ensures x in Users(ts', f) <==> x in Users(ts, f) - {va} + if Present(w) && Frame(w) == f then {va} else {} {
      UsersHas(ts, f, x);
      UsersHas(ts', f, x);
    }
  }
}
