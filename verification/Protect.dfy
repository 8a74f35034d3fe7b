/** What vm_protect_readonly does to the entries and reference counts of one address space. */
module Protect {
  import opened Basics
  import opened Bits
  import opened Pte
  import opened Frames
  import opened Cow

  const NOT_RW: Word := 0xFFFF_FFFD

  /** A present user entry loses its writable bit. */
  function Clear(w: Word): Word {
    if Present(w) && User(w) then And(w, NOT_RW) else w
  }

  lemma {:induction false} ClearIs(w: Word)
    requires Present(w) ==> User(w)
    ensures Present(Clear(w)) <==> Present(w)
    ensures Present(w) ==> !Writable(Clear(w)) && Frame(Clear(w)) == Frame(w) && User(Clear(w))
  {
    hide Present, Writable, User, Frame, And;
    ClearWritable(w);
  }

  ghost predicate ClearedBelow(ptes: seq<Word>, ptes': seq<Word>, n: nat) {
    |ptes'| == |ptes| && forall j :: 0 <= j < |ptes| ==> ptes'[j] == if j < n then Clear(ptes[j]) else ptes[j]
  }

  /** The frames the first n entries map. */
  ghost function Marked(ptes: seq<Word>, n: nat): set<nat>
    requires n <= |ptes|
  {
    set j | 0 <= j < n && Present(ptes[j]) :: Frame(ptes[j])
  }

  lemma {:induction false} MarkedNext(ptes: seq<Word>, n: nat)
    requires n < |ptes|
    ensures Marked(ptes, n + 1) == Marked(ptes, n) + if Present(ptes[n]) then {Frame(ptes[n])} else {}
  {
    hide Present, Frame;
  }

  /** The frames that a space maps below directory index i. */
  ghost predicate MapsBelow(ts: Tables, space: int, i: nat, f: nat) {
    exists va :: Maps(ts, va, f) && va.key.space == space && va.key.i < i
  }

  lemma {:induction false} BelowNext(ts: Tables, space: int, i: nat, f: nat)
    requires TablesOk(ts)
    ensures MapsBelow(ts, space, i + 1, f) <==>
            MapsBelow(ts, space, i, f) || (Key(space, i) in ts && f in Marked(ts[Key(space, i)].ptes, |ts[Key(space, i)].ptes|))
  {
    hide Present, Frame, User;
    var key := Key(space, i);
    if key in ts && f in Marked(ts[key].ptes, |ts[key].ptes|) {
      var j :| 0 <= j < |ts[key].ptes| && Present(ts[key].ptes[j]) && Frame(ts[key].ptes[j]) == f;
      assert Maps(ts, Va(key, j), f);
    }
    if MapsBelow(ts, space, i + 1, f) {
      var va :| Maps(ts, va, f) && va.key.space == space && va.key.i < i + 1;
      if va.key.i == i {
        assert va.key == key;
        assert f in Marked(ts[key].ptes, |ts[key].ptes|);
      }
    }
  }

  ghost predicate Ones(refs: seq<nat>, refs': seq<nat>, marked: set<nat>) {
    |refs'| == |refs| && forall f :: 0 <= f < |refs| ==> refs'[f] == if f in marked then 1 else refs[f]
  }

  /** The tables after: the same frames mapped from the same places, with nothing writable in the space. */
  ghost predicate Guarded(ts: Tables, ts': Tables, space: int) {
    && ts'.Keys == ts.Keys
    && (forall k <- ts :: ts'[k].frame == ts[k].frame && |ts'[k].ptes| == |ts[k].ptes|)
    && (forall k <- ts :: k.space != space ==> ts'[k] == ts[k])
    && (forall k <- ts :: k.space == space ==> ClearedBelow(ts[k].ptes, ts'[k].ptes, |ts[k].ptes|))
  }

  lemma {:induction false} GuardedMaps(ts: Tables, ts': Tables, space: int, va: Va, f: nat)
    requires TablesOk(ts) && Guarded(ts, ts', space)
    ensures Maps(ts', va, f) <==> Maps(ts, va, f)
    ensures Maps(ts, va, f) ==>
            (Writable(ts'[va.key].ptes[va.j]) <==> va.key.space != space && Writable(ts[va.key].ptes[va.j]))
  {
    hide Present, Writable, User, Frame, Clear;
    if va.key in ts && va.j < |ts[va.key].ptes| {
      assert TableOk(ts[va.key]);
      ClearIs(ts[va.key].ptes[va.j]);
    }
  }

  lemma {:induction false} GuardedOk(ts: Tables, ts': Tables, space: int)
    requires TablesOk(ts) && Guarded(ts, ts', space)
    ensures TablesOk(ts') && forall f :: Users(ts', f) == Users(ts, f)
  {
    hide Present, Writable, User, Frame, Clear;
    forall k <- ts' ensures TableOk(ts'[k]) {
      assert TableOk(ts[k]);
      forall j | 0 <= j < ENTRIES ensures Present(ts'[k].ptes[j]) ==> Managed(Frame(ts'[k].ptes[j])) && User(ts'[k].ptes[j]) {
        ClearIs(ts[k].ptes[j]);
      }
    }
    forall f ensures Users(ts', f) == Users(ts, f) { GuardedUsers(ts, ts', space, f); }
  }

  lemma {:induction false} GuardedUsers(ts: Tables, ts': Tables, space: int, f: nat)
    requires TablesOk(ts) && Guarded(ts, ts', space) && TablesOk(ts')
    ensures Users(ts', f) == Users(ts, f)
  {
    hide Present, Writable, User, Frame, Clear, Users, Guarded, Maps;
    forall va ensures va in Users(ts', f) <==> va in Users(ts, f) {
      GuardedMaps(ts, ts', space, va, f);
      UsersHas(ts, f, va);
      UsersHas(ts', f, va);
    }
  }

  /** No frame the space maps has a second mapping anywhere. */
  ghost predicate Unshared(st: State, space: int)
    requires TablesOk(st.tables)
  {
    forall va, f :: Maps(st.tables, va, f) && va.key.space == space ==> Holders(st, f) == {va}
  }

  /** The new state: entries guarded, every frame of the space given the count 1. */
  ghost predicate Protects(st: State, st': State, space: int) {
    && Guarded(st.tables, st'.tables, space) && |st'.refs| == |st.refs|
    && (forall f :: 0 <= f < |st.refs| ==>
          st'.refs[f] == if exists va :: Maps(st.tables, va, f) && va.key.space == space then 1 else st.refs[f])
    && st'.dirs == st.dirs && st'.freeq == st.freeq && st'.other == st.other && st'.gone == st.gone == {}
  }

  /** The space is done below directory index i. */
  ghost predicate ProtectedBelow(ts: Tables, refs: seq<nat>, ts': Tables, refs': seq<nat>, space: int, i: nat) {
    && ts'.Keys == ts.Keys && |refs'| == |refs|
    && (forall k <- ts :: ts'[k].frame == ts[k].frame && |ts'[k].ptes| == |ts[k].ptes|)
    && (forall k <- ts :: !(k.space == space && k.i < i) ==> ts'[k] == ts[k])
    && (forall k <- ts :: k.space == space && k.i < i ==> ClearedBelow(ts[k].ptes, ts'[k].ptes, |ts[k].ptes|))
    && (forall f :: 0 <= f < |refs| ==> refs'[f] == if MapsBelow(ts, space, i, f) then 1 else refs[f])
  }

  lemma {:induction false} ProtectedStart(ts: Tables, refs: seq<nat>, space: int, i: nat)
    requires forall k <- ts :: k.space == space ==> i <= k.i
    ensures ProtectedBelow(ts, refs, ts, refs, space, i)
  {
    hide Present, Frame, ClearedBelow;
  }

  lemma {:induction false} ProtectedKeys(ts: Tables, refs: seq<nat>, ts': Tables, refs': seq<nat>, space: int, i: nat)
    requires TablesOk(ts) && ProtectedBelow(ts, refs, ts', refs', space, i)
    ensures TablesOk(ts') && ts'.Keys == ts.Keys && |refs'| == |refs|
  {
    hide Present, User, Frame, Clear, MapsBelow;
    forall k <- ts' ensures TableOk(ts'[k]) {
      assert TableOk(ts[k]);
      forall j | 0 <= j < ENTRIES ensures Present(ts'[k].ptes[j]) ==> Managed(Frame(ts'[k].ptes[j])) && User(ts'[k].ptes[j]) {
        ClearIs(ts[k].ptes[j]);
      }
    }
  }

  lemma {:induction false} ProtectedSkip(ts: Tables, refs: seq<nat>, ts': Tables, refs': seq<nat>, space: int, i: nat)
    requires TablesOk(ts) && ProtectedBelow(ts, refs, ts', refs', space, i) && Key(space, i) !in ts
    ensures ProtectedBelow(ts, refs, ts', refs', space, i + 1)
  {
    hide MapsBelow, ClearedBelow, TablesOk;
    forall f: nat { BelowNext(ts, space, i, f); }
    forall k <- ts | k.space == space && k.i < i + 1 ensures k.i < i { assert k == Key(k.space, k.i); }
  }

  /** One table: ts1 and refs1 are what clearing its entries leaves. */
  lemma {:induction false} ProtectedTable(ts: Tables, refs: seq<nat>, ts': Tables, refs': seq<nat>, space: int,
      i: nat, ts1: Tables, refs1: seq<nat>)
    requires TablesOk(ts) && ProtectedBelow(ts, refs, ts', refs', space, i) && Key(space, i) in ts
    requires ts1.Keys == ts'.Keys && (forall k <- ts1 :: k != Key(space, i) ==> ts1[k] == ts'[k])
    requires var key := Key(space, i); ts1[key].frame == ts'[key].frame && ClearedBelow(ts'[key].ptes, ts1[key].ptes, |ts'[key].ptes|)
    requires Ones(refs', refs1, Marked(ts'[Key(space, i)].ptes, |ts'[Key(space, i)].ptes|))
    ensures ProtectedBelow(ts, refs, ts1, refs1, space, i + 1)
  {
    hide MapsBelow, TablesOk, Marked, Clear;
    var key := Key(space, i);
    assert ts'[key] == ts[key];
    forall f: nat { BelowNext(ts, space, i, f); }
    forall k <- ts | k.space == space && k.i < i + 1 && k != key ensures k.i < i { assert k == Key(k.space, k.i); }
  }

  lemma {:induction false} ProtectedDone(ts: Tables, refs: seq<nat>, ts': Tables, refs': seq<nat>, space: int, i: nat)
    requires TablesOk(ts) && ProtectedBelow(ts, refs, ts', refs', space, i) && forall k <- ts :: k.space == space ==> k.i < i
    ensures Guarded(ts, ts', space)
    ensures forall f :: 0 <= f < |refs| ==> refs'[f] == if exists va :: Maps(ts, va, f) && va.key.space == space then 1 else refs[f]
  {
    hide ClearedBelow, TablesOk, Present, Frame;
  }

  /** One frame: its count is right afterwards exactly when the space does not map it, or is alone on it. */
  lemma {:induction false} ProtectedFrame(st: State, st': State, space: int, f: nat)
    requires Good(st) && Protects(st, st', space) && Managed(f)
    ensures TablesOk(st.tables) && TablesOk(st'.tables) && |st'.refs| == NUM_PAGES && Holders(st', f) == Holders(st, f)
    ensures FrameOk(st', f) <==> forall va :: Maps(st.tables, va, f) && va.key.space == space ==> Holders(st, f) == {va}
  {
    hide Present, Writable, User, Frame, Users, Guarded, Separate, Exclusive, Good, TablesOk, Maps;
    GoodParts(st);
    GuardedOk(st.tables, st'.tables, space);
    SameDirs(st, st', f);
    assert IsTable(st', f) <==> IsTable(st, f) by { hide *; GuardedTable(st, st', space, f); }
    FrameOf(st, f);
    forall va | Maps(st.tables, va, f) ensures va in Holders(st, f) && |Holders(st, f)| > 0 { UsersHas(st.tables, f, va); }
    if va :| Maps(st.tables, va, f) && va.key.space == space {
      if |Holders(st, f)| == 1 { Smaller(Holders(st, f), va); }
      assert |{va}| == 1;
    }
  }

  lemma {:induction false} GuardedTable(st: State, st': State, space: int, f: nat)
    requires Guarded(st.tables, st'.tables, space)
    ensures IsTable(st', f) <==> IsTable(st, f)
  {
    hide ClearedBelow;
    SameTables(st, st', f);
  }

  lemma {:induction false} ProtectedExclusive(st: State, st': State, space: int)
    requires Good(st) && Protects(st, st', space)
    ensures TablesOk(st'.tables) && Exclusive(st')
  {
    hide Present, Writable, User, Frame, Users, Guarded, Separate, Good, TablesOk, Maps;
    GoodParts(st);
    GuardedOk(st.tables, st'.tables, space);
    forall va, f | Maps(st'.tables, va, f) && va !in st'.gone && Holders(st', f) != {va}
      ensures va.key in st'.tables && va.j < |st'.tables[va.key].ptes| && !Writable(st'.tables[va.key].ptes[va.j])
    {
      GuardedMaps(st.tables, st'.tables, space, va, f);
      MapsParts(st'.tables, va, f);
      MapsParts(st.tables, va, f);
    }
  }

  lemma {:induction false} MapsParts(ts: Tables, va: Va, f: nat)
    requires Maps(ts, va, f)
    ensures va.key in ts && va.j < |ts[va.key].ptes| && Present(ts[va.key].ptes[va.j])
  {
  }

  lemma {:induction false} ProtectedSeparate(st: State, st': State, space: int)
    requires Separate(st) && Protects(st, st', space)
    ensures Separate(st')
  {
    hide ClearedBelow, Maps;
  }

  /**
   Setting every count to one keeps the counts right if and only if no frame of the space is shared. The
   mappings themselves, and exclusive writability, survive either way.
   */
  lemma {:induction false} ProtectedGood(st: State, st': State, space: int)
    requires Good(st) && Protects(st, st', space)
    ensures TablesOk(st.tables) && (Good(st') <==> Unshared(st, space))
  {
    hide Present, Writable, User, Frame, Users, Guarded, Separate, Exclusive, TablesOk, Holders, Protects, FrameOk;
    GoodParts(st);
    ProtectedExclusive(st, st', space);
    ProtectedSeparate(st, st', space);
    ProtectedFrame(st, st', space, PAGE_START_INDEX);
    if Unshared(st, space) {
      forall f | Managed(f) ensures FrameOk(st', f) { ProtectedFrame(st, st', space, f); }
      GoodFrom(st');
    }
    if Good(st') {
      forall va, f | Maps(st.tables, va, f) && va.key.space == space ensures Holders(st, f) == {va} {
        assert Managed(f) by { TablesMaps(st.tables, va, f); }
        FrameOf(st', f);
        ProtectedFrame(st, st', space, f);
      }
    }
  }

  lemma {:induction false} TablesMaps(ts: Tables, va: Va, f: nat)
    requires TablesOk(ts) && Maps(ts, va, f)
    ensures Managed(f)
  {
    assert TableOk(ts[va.key]);
  }
}
