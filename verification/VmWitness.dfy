/** A state with a shared frame, in which vm_protect_readonly spoils a reference count. */
module VmWitness {
  import opened Basics
  import opened Bits
  import opened Pte
  import opened Frames
  import opened Cow
  import opened Protect

  const SHARED := 2000
  const ENTRY: Word := 2000 * 4096 + 5

  function OneEntry(frame: nat): Table {
    Table(frame, seq(ENTRIES, j => if j == 0 then ENTRY else 0))
  }

  /** Address spaces 0 and 1 both map frame 2000 read-only; every other frame is in kernel use. */
  ghost function Shared(): State {
    State(map[Key(0, 1) := OneEntry(1024), Key(1, 1) := OneEntry(1025)], map[],
          seq(NUM_PAGES, f => if f == SHARED then 2 else 0), [],
          set f: nat | f < NUM_PAGES && Managed(f) && f !in [SHARED, 1024, 1025], {})
  }

  lemma {:induction false} EntryIs()
    ensures Present(ENTRY) && User(ENTRY) && !Writable(ENTRY) && Frame(ENTRY) == SHARED && !Present(0)
  {
    hide Present, Writable, User, Frame, And;
    FlagsAre(ENTRY);
    FlagsAre(0);
    FrameIs(ENTRY);
  }

  lemma {:induction false} SharedMaps(va: Va, f: nat)
    ensures Maps(Shared().tables, va, f) <==> f == SHARED && (va == Va(Key(0, 1), 0) || va == Va(Key(1, 1), 0))
  {
    hide Present, Writable, User, Frame, And;
    EntryIs();
  }

  lemma {:induction false} SharedTables()
    ensures TablesOk(Shared().tables)
  {
    hide Present, Writable, User, Frame, And;
    EntryIs();
  }

  lemma {:induction false} SharedHolders(f: nat)
    ensures TablesOk(Shared().tables)
    ensures Holders(Shared(), f) == if f == SHARED then {Va(Key(0, 1), 0), Va(Key(1, 1), 0)} else {}
  {
    hide Users, Maps;
    SharedTables();
    forall va ensures va in Users(Shared().tables, f) <==> f == SHARED && (va == Va(Key(0, 1), 0) || va == Va(Key(1, 1), 0)) {
      UsersHas(Shared().tables, f, va);
      SharedMaps(va, f);
    }
  }

  /** The invariant holds of it, and frame 2000 is shared, so protecting space 0 leaves a wrong count (ProtectedGood). */
  lemma {:induction false} SharedFrameIsGood()
    ensures Good(Shared()) && !Unshared(Shared(), 0)
  {
    hide Users, Maps, Holders, Present, Writable, User, Frame, TablesOk;
    var st := Shared();
    SharedTables();
    assert |{Va(Key(0, 1), 0), Va(Key(1, 1), 0)}| == 2;
    forall f | Managed(f) ensures FrameOk(st, f) {
      SharedHolders(f);
      assert st.tables[Key(0, 1)].frame == 1024 && st.tables[Key(1, 1)].frame == 1025;
    }
    forall va, f | Maps(st.tables, va, f) && va !in st.gone
      ensures va.key in st.tables && va.j < |st.tables[va.key].ptes| && !Writable(st.tables[va.key].ptes[va.j])
    {
      SharedMaps(va, f);
      EntryIs();
    }
    GoodFrom(st);
    SharedMaps(Va(Key(0, 1), 0), SHARED);
    SharedHolders(SHARED);
    assert Va(Key(1, 1), 0) in Holders(st, SHARED);
  }
}
