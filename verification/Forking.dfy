/** The address-space half of sys_fork: the parent's pages are collected, and copied one by one into a new space. */
module Forking {
  import opened Basics
  import opened Bits
  import opened Pte
  import opened Frames
  import opened Cow
  import opened Mapping
  import opened Vm

  const MAX_USER_PAGES := 256

  /** struct page_ref: a mapped user page, by directory and table index, and its frame. */
  datatype PageRef = PageRef(i: nat, j: nat, frame: nat)

  // ------------------------------------------------------------------ collecting pages

  /** The mapped pages among the first n of a table. */
  ghost function TablePages(i: nat, ptes: seq<Word>, n: nat): seq<PageRef>
    requires n <= |ptes|
  {
    if n == 0 then []
    else TablePages(i, ptes, n - 1) + if Present(ptes[n - 1]) then [PageRef(i, n - 1, Frame(ptes[n - 1]))] else []
  }

  /** The mapped pages of a space below directory index i. */
  ghost function SpacePages(ts: Tables, space: int, i: nat): seq<PageRef> {
    if i <= FIRST_USER then []
    else SpacePages(ts, space, i - 1) +
         if Key(space, i - 1) in ts then TablePages(i - 1, ts[Key(space, i - 1)].ptes, |ts[Key(space, i - 1)].ptes|) else []
  }

  ghost function UserPages(ts: Tables, space: int): seq<PageRef> {
    SpacePages(ts, space, END_USER)
  }

  lemma {:induction false} TableGrows(i: nat, ptes: seq<Word>, n: nat, n': nat)
    requires n <= n' <= |ptes|
    ensures |TablePages(i, ptes, n)| <= |TablePages(i, ptes, n')|
    decreases n'
  {
    hide Present, Frame;
    if n < n' { TableGrows(i, ptes, n, n' - 1); }
  }

  lemma {:induction false} SpaceGrows(ts: Tables, space: int, i: nat, i': nat)
    requires i <= i'
    ensures |SpacePages(ts, space, i)| <= |SpacePages(ts, space, i')|
    decreases i'
  {
    hide TablePages;
    if i < i' { SpaceGrows(ts, space, i, i' - 1); }
  }

  /** Position a comes before position b, page by page. */
  predicate Before(p: PageRef, q: PageRef) {
    p.i < q.i || (p.i == q.i && p.j < q.j)
  }

  ghost predicate InOrder(pages: seq<PageRef>) {
    forall a, b :: 0 <= a < b < |pages| ==> Before(pages[a], pages[b])
  }

  lemma {:induction false} TablePagesAre(i: nat, ptes: seq<Word>, n: nat)
    requires n <= |ptes|
    ensures var ps := TablePages(i, ptes, n);
            && InOrder(ps)
            && forall p :: p in ps <==> p.i == i && p.j < n && Present(ptes[p.j]) && Frame(ptes[p.j]) == p.frame
  {
    hide Present, Frame;
    if n > 0 { TablePagesAre(i, ptes, n - 1); }
  }

  lemma {:induction false} SpacePagesAre(ts: Tables, space: int, n: nat)
    ensures var ps := SpacePages(ts, space, n);
            && InOrder(ps)
            && forall p :: p in ps <==> FIRST_USER <= p.i < n && Maps(ts, Va(Key(space, p.i), p.j), p.frame)
  {
    hide Present, Frame, TablePages;
    if n > FIRST_USER {
      SpacePagesAre(ts, space, n - 1);
      var key := Key(space, n - 1);
      if key in ts {
        TablePagesAre(n - 1, ts[key].ptes, |ts[key].ptes|);
        ConcatInOrder(SpacePages(ts, space, n - 1), TablePages(n - 1, ts[key].ptes, |ts[key].ptes|), n - 1);
      }
    }
  }

  lemma {:induction false} ConcatInOrder(ps: seq<PageRef>, qs: seq<PageRef>, n: nat)
    requires InOrder(ps) && InOrder(qs) && (forall p <- ps :: p.i < n) && forall q <- qs :: q.i == n
    ensures InOrder(ps + qs)
  {
    var rs := ps + qs;
    forall a, b | 0 <= a < b < |rs| ensures Before(rs[a], rs[b]) {
      assert a < |ps| ==> rs[a] in ps;
      assert b >= |ps| ==> rs[b] in qs;
    }
  }

  /** The inner loop at the head of sys_fork: the pages of one table, or failure if there are too many. */
  method CollectTable(i: nat, ptes: seq<Word>, below: seq<PageRef>) returns (ok: bool, pages: seq<PageRef>)
    requires |below| <= MAX_USER_PAGES
    ensures ok <==> |below| + |TablePages(i, ptes, |ptes|)| <= MAX_USER_PAGES
    ensures ok ==> pages == below + TablePages(i, ptes, |ptes|)
  {
    hide Present, Frame;
    pages := below;
    for j := 0 to |ptes|
      invariant pages == below + TablePages(i, ptes, j) && |pages| <= MAX_USER_PAGES
    {
      if Present(ptes[j]) {
        if |pages| >= MAX_USER_PAGES {
          TableGrows(i, ptes, j + 1, |ptes|);
          return false, [];
        }
        pages := pages + [PageRef(i, j, Frame(ptes[j]))];
      }
    }
    ok := true;
  }

  /** The outer loop: the pages of the space in order, or failure if there are too many. */
  method Collect(m: Machine, space: int) returns (ok: bool, pages: seq<PageRef>)
    ensures ok <==> |UserPages(m.tables, space)| <= 256
    ensures ok ==> pages == UserPages(m.tables, space)
  {
    hide TablePages;
    ok, pages := true, [];
    for i := FIRST_USER to END_USER
      invariant ok && pages == SpacePages(m.tables, space, i) && |pages| <= MAX_USER_PAGES
    {
      if Key(space, i) in m.tables {
        ok, pages := CollectTable(i, m.tables[Key(space, i)].ptes, pages);
        SpaceGrows(m.tables, space, i + 1, END_USER);
        if !ok {
          return;
        }
      }
    }
  }

  // ------------------------------------------------------------------ what a fork costs

  ghost predicate HasTable(pages: seq<PageRef>, n: nat, i: nat)
    requires n <= |pages|
  {
    exists l :: 0 <= l < n && pages[l].i == i
  }

  /** Page n is the first of its table. */
  ghost predicate NewTable(pages: seq<PageRef>, n: nat)
    requires n < |pages|
  {
    !HasTable(pages, n, pages[n].i)
  }

  /** Frames taken once n pages are copied: the directory, the pages and their tables. */
  ghost function Cost(pages: seq<PageRef>, n: nat): nat
    requires n <= |pages|
  {
    if n == 0 then 1 else Cost(pages, n - 1) + if NewTable(pages, n - 1) then 2 else 1
  }

  lemma {:induction false} CostGrows(pages: seq<PageRef>, n: nat, n': nat)
    requires n <= n' <= |pages|
    ensures Cost(pages, n') >= Cost(pages, n) + (n' - n)
    decreases n'
  {
    hide NewTable;
    if n < n' { CostGrows(pages, n, n' - 1); }
  }

  /** With that many free frames, page n gets a frame and its page table does not. */
  ghost predicate Starves(pages: seq<PageRef>, n: nat, free: nat)
    requires n < |pages|
  {
    NewTable(pages, n) && free == Cost(pages, n) + 1
  }

  /** When frames give out at count n of pages, or never. */
  lemma {:induction false} StarvesOnce(pages: seq<PageRef>, n: nat, free: nat)
    requires n <= |pages| && (free == Cost(pages, n) || (n == |pages| && free >= Cost(pages, n)))
    ensures forall k :: 0 <= k < |pages| ==> !Starves(pages, k, free)
  {
    hide NewTable;
    forall k | 0 <= k < |pages| ensures !Starves(pages, k, free) {
      if k < n { CostGrows(pages, k + 1, n); } else { CostGrows(pages, n, k); }
    }
  }

  // ------------------------------------------------------------------ copying pages

  ghost predicate Listed(pages: seq<PageRef>, n: nat, i: nat, j: nat)
    requires n <= |pages|
  {
    exists l :: 0 <= l < n && pages[l].i == i && pages[l].j == j
  }

  /** n pages are copied: the child reads as the parent on them, has their tables, and every other space is as it was. */
  ghost predicate Copied(ts0: Tables, mem0: seq<seq<Word>>, parent: int, child: int, pages: seq<PageRef>, n: nat,
      ts: Tables, mem: seq<seq<Word>>)
    requires n <= |pages|
  {
    && (forall k: Key :: k.space != child ==> (k in ts <==> k in ts0) && (k in ts ==> ts[k] == ts0[k]))
    && (forall i: nat :: Key(child, i) in ts <==> HasTable(pages, n, i))
    && SameReadsBut(ts0, mem0, ts, mem, child)
    && (forall i: nat, j: nat ::
          Look(ts, mem, Va(Key(child, i), j)) == if Listed(pages, n, i, j) then Look(ts0, mem0, Va(Key(parent, i), j)) else None)
  }

  /** Writing to a frame nothing maps. */
  lemma {:induction false} SpareReads(st: State, mem: seq<seq<Word>>, f: nat, page: seq<Word>, va: Va)
    requires Good(st) && st.gone == {} && f in st.freeq && |mem| == NUM_PAGES && f < NUM_PAGES
    ensures Look(st.tables, mem[f := page], va) == Look(st.tables, mem, va)
  {
    hide Good, Maps, Look;
    forall x { FreeUnmapped(st, x, f); }
    LookSame(st.tables, mem, st.tables, mem[f := page], va);
  }

  /** Copying a page to the first free frame and mapping it. */
  lemma {:induction false} PlacedReads(st: State, mem: seq<seq<Word>>, va: Va, page: seq<Word>, x: Va)
    requires Good(st) && st.gone == {} && |mem| == NUM_PAGES && va.j < ENTRIES
    requires st.freeq != [] && Managed(st.freeq[0])
    requires if va.key in st.tables then va.j < |st.tables[va.key].ptes| else |st.freeq| > 1
    ensures var f := st.freeq[0];
            var ts' := Placed(st.tables, st.freeq[1..], va, f);
            && Look(ts', mem[f := page], x) == (if x == va then Some(page) else Look(st.tables, mem, x))
            && (Injective(st.tables) ==> Injective(ts'))
  {
    hide Good, Look, Placed, Maps;
    var f := st.freeq[0];
    var ts', mem' := Placed(st.tables, st.freeq[1..], va, f), mem[f := page];
    forall y, g: nat ensures Maps(ts', y, g) <==> if y == va then g == f else Maps(st.tables, y, g) {
      PlacedMaps(st.tables, st.freeq[1..], va, f, y, g);
    }
    forall y ensures !Maps(st.tables, y, f) { FreeUnmapped(st, y, f); }
    if x == va { LookIs(ts', mem', va, f); } else { LookSame(st.tables, mem, ts', mem', x); }
  }

  lemma {:induction false} LookIs(ts: Tables, mem: seq<seq<Word>>, va: Va, f: nat)
    requires Maps(ts, va, f) && f < |mem|
    ensures Look(ts, mem, va) == Some(mem[f])
  {
  }

  /** One page of the copying loop: alloc_page_frame, map_page, vm_copy_phys. */
  method CopyPage(m: Machine, child: int, p: PageRef) returns (ok: bool)
    requires m.Valid() && p.j < ENTRIES && Managed(p.frame) && p.frame !in m.freeq
    requires forall f :: !Maps(m.tables, Va(Key(child, p.i), p.j), f)
    modifies m
    ensures m.Valid() && m.dirs == old(m.dirs)
    ensures ok <==> old(m.freeq) != []
    ensures !ok ==> m.StateWith({}) == old(m.StateWith({})) && m.mem == old(m.mem)
    ensures ok ==> Managed(old(m.freeq)[0]) && m.mem == old(m.mem)[old(m.freeq)[0] := old(m.mem)[p.frame]]
    ensures var va, q := Va(Key(child, p.i), p.j), old(m.freeq);
            ok ==>
              if va.key in old(m.tables) || |q| > 1 then
                && (va.key in old(m.tables) ==> va.j < |old(m.tables)[va.key].ptes|)
                && m.tables == Placed(old(m.tables), q[1..], va, q[0]) && m.other == old(m.other)
                && |m.freeq| == |q| - (if va.key in old(m.tables) then 1 else 2)
              else m.tables == old(m.tables) && m.freeq == [] && m.other == old(m.other) + {q[0]} && q[0] !in old(m.other)
  {
    hide Good, Placed, Separate, TablesOk, Holders, Present, Frame;
    ghost var st := m.StateWith({});
    GoodParts(st);
    if m.freeq != [] { TakenGood(st); }
    var f := m.AllocFrame();
    if f == 0 {
      return false;
    }
    var key := Key(child, p.i);
    if key in m.tables {
      EntryLength(m.tables, key);
      assert !Present(m.tables[key].ptes[p.j]) by { assert !Maps(m.tables, Va(key, p.j), Frame(m.tables[key].ptes[p.j])); }
    }
    m.MapPage(child, p.i, p.j, f);
    assert st.other + {f} - {f} == st.other;
    m.CopyPhys(p.frame, f);
    ok := true;
  }

  /** The parent's page l, which is to be copied, is not free and reads as it did. */
  lemma {:induction false} ParentPage(ts0: Tables, mem0: seq<seq<Word>>, parent: int, child: int,
      pages: seq<PageRef>, n: nat, l: nat, st: State, mem: seq<seq<Word>>)
    requires Good(st) && st.gone == {} && |mem| == |mem0| == NUM_PAGES && TablesOk(ts0)
    requires pages == UserPages(ts0, parent) && n <= l < |pages| && parent != child
             && Copied(ts0, mem0, parent, child, pages, n, st.tables, mem)
    ensures var p := pages[l];
            && FIRST_USER <= p.i < END_USER && p.j < ENTRIES && Managed(p.frame) && p.frame !in st.freeq
            && Look(ts0, mem0, Va(Key(parent, p.i), p.j)) == Some(mem[p.frame])
            && !Listed(pages, n, p.i, p.j)
  {
    hide Good, Present, Frame, SpacePages;
    var p := pages[l];
    SpacePagesAre(ts0, parent, END_USER);
    assert p in pages;
    var va := Va(Key(parent, p.i), p.j);
    assert Maps(ts0, va, p.frame) && Maps(st.tables, va, p.frame);
    assert TableOk(ts0[va.key]);
    if p.frame in st.freeq { FreeUnmapped(st, va, p.frame); }
    LookIs(st.tables, mem, va, p.frame);
  }

  /** An address the child does not map yet. */
  lemma {:induction false} NotYet(ts0: Tables, mem0: seq<seq<Word>>, parent: int, child: int, pages: seq<PageRef>,
      n: nat, p: PageRef, st: State, mem: seq<seq<Word>>)
    requires Good(st) && |mem| == NUM_PAGES && n <= |pages| && !Listed(pages, n, p.i, p.j)
    requires Copied(ts0, mem0, parent, child, pages, n, st.tables, mem)
    ensures forall f :: !Maps(st.tables, Va(Key(child, p.i), p.j), f)
  {
    hide Present, Frame, Separate, Exclusive, FrameOk, SameReadsBut, HasTable;
    GoodParts(st);
    var va := Va(Key(child, p.i), p.j);
    assert Look(st.tables, mem, va) == None;
    if va.key in st.tables { assert TableOk(st.tables[va.key]); }
  }

  lemma {:induction false} CopiedNone(ts0: Tables, mem0: seq<seq<Word>>, parent: int, child: int, pages: seq<PageRef>)
    requires forall k <- ts0 :: k.space != child
    ensures Copied(ts0, mem0, parent, child, pages, 0, ts0, mem0)
  {
  }

  /** The page was placed. */
  lemma {:induction false} CopiedNext(ts0: Tables, mem0: seq<seq<Word>>, parent: int, child: int,
      pages: seq<PageRef>, n: nat, st: State, mem: seq<seq<Word>>)
    requires Good(st) && st.gone == {} && |mem| == NUM_PAGES && n < |pages| && pages[n].j < ENTRIES
    requires Copied(ts0, mem0, parent, child, pages, n, st.tables, mem)
    requires st.freeq != [] && Managed(st.freeq[0]) && pages[n].frame < NUM_PAGES
    requires Look(ts0, mem0, Va(Key(parent, pages[n].i), pages[n].j)) == Some(mem[pages[n].frame])
    requires var va := Va(Key(child, pages[n].i), pages[n].j);
             if va.key in st.tables then va.j < |st.tables[va.key].ptes| else |st.freeq| > 1
    ensures var va, f := Va(Key(child, pages[n].i), pages[n].j), st.freeq[0];
            var ts' := Placed(st.tables, st.freeq[1..], va, f);
            && Copied(ts0, mem0, parent, child, pages, n + 1, ts', mem[f := mem[pages[n].frame]])
            && (Injective(st.tables) ==> Injective(ts'))
  {
    hide Good, Look, Placed, HasTable, Listed, Maps;
    var p, f := pages[n], st.freeq[0];
    var va, page := Va(Key(child, p.i), p.j), mem[p.frame];
    var ts', mem' := Placed(st.tables, st.freeq[1..], va, f), mem[f := page];
    PlacedMaps(st.tables, st.freeq[1..], va, f, va, f);
    PlacedReads(st, mem, va, page, va);
    forall x ensures Look(ts', mem', x) == if x == va then Some(page) else Look(st.tables, mem, x) { PlacedReads(st, mem, va, page, x); }
    forall i: nat ensures HasTable(pages, n + 1, i) <==> HasTable(pages, n, i) || i == p.i { OneMore(pages, n, i, 0); }
    forall i: nat, j: nat ensures Listed(pages, n + 1, i, j) <==> Listed(pages, n, i, j) || (i == p.i && j == p.j) {
      OneMore(pages, n, i, j);
    }
  }

  lemma {:induction false} OneMore(pages: seq<PageRef>, n: nat, i: nat, j: nat)
    requires n < |pages|
    ensures HasTable(pages, n + 1, i) <==> HasTable(pages, n, i) || i == pages[n].i
    ensures Listed(pages, n + 1, i, j) <==> Listed(pages, n, i, j) || (i == pages[n].i && j == pages[n].j)
  {
  }

  /** The page table could not be had: nothing reads differently. */
  lemma {:induction false} CopiedSame(ts0: Tables, mem0: seq<seq<Word>>, parent: int, child: int,
      pages: seq<PageRef>, n: nat, st: State, mem: seq<seq<Word>>, page: seq<Word>)
    requires Good(st) && st.gone == {} && |mem| == NUM_PAGES && n <= |pages| && Copied(ts0, mem0, parent, child, pages, n, st.tables, mem)
    requires st.freeq != [] && Managed(st.freeq[0])
    ensures Copied(ts0, mem0, parent, child, pages, n, st.tables, mem[st.freeq[0] := page])
  {
    hide Good, Look, HasTable, Listed;
    forall x ensures Look(st.tables, mem[st.freeq[0] := page], x) == Look(st.tables, mem, x) { SpareReads(st, mem, st.freeq[0], page, x); }
  }

  // ------------------------------------------------------------------ sys_fork

  /** The user tables of a machine belong to its spaces. */
  ghost predicate Housed(ts: Tables, dirs: map<int, nat>) {
    forall k <- ts :: k.space in dirs && FIRST_USER <= k.i < END_USER
  }

  /** The child reads as its parent did. */
  ghost predicate ReadsAs(ts: Tables, mem: seq<seq<Word>>, child: int, ts0: Tables, mem0: seq<seq<Word>>, parent: int) {
    forall i: nat, j: nat :: Look(ts, mem, Va(Key(child, i), j)) == Look(ts0, mem0, Va(Key(parent, i), j))
  }

  /** The same, but for one page, which the child lacks. */
  ghost predicate ReadsAsBut(ts: Tables, mem: seq<seq<Word>>, child: int, ts0: Tables, mem0: seq<seq<Word>>, parent: int, p: PageRef) {
    forall i: nat, j: nat ::
      Look(ts, mem, Va(Key(child, i), j)) == if i == p.i && j == p.j then None else Look(ts0, mem0, Va(Key(parent, i), j))
  }

  /** The frames suffice. */
  ghost predicate Affords(pages: seq<PageRef>, free: nat) {
    free >= Cost(pages, |pages|)
  }

  /** One frame is missing, and it is the one for the last page's table. */
  ghost predicate LosesLast(pages: seq<PageRef>, free: nat) {
    pages != [] && Starves(pages, |pages| - 1, free)
  }

  /** Whatever the parent maps is listed. */
  lemma {:induction false} AllListed(ts: Tables, mem: seq<seq<Word>>, parent: int, i: nat, j: nat)
    requires forall k <- ts :: FIRST_USER <= k.i < END_USER
    ensures var pages := UserPages(ts, parent); Listed(pages, |pages|, i, j) || Look(ts, mem, Va(Key(parent, i), j)) == None
  {
    hide SpacePages, Present, Frame;
    SpacePagesAre(ts, parent, END_USER);
    var va := Va(Key(parent, i), j);
    if va.key in ts && j < |ts[va.key].ptes| && Present(ts[va.key].ptes[j]) {
      assert PageRef(i, j, Frame(ts[va.key].ptes[j])) in UserPages(ts, parent);
    }
  }

  /** With n pages in place the child reads as the parent exactly if these are all, and but for the last page if that is missing. */
  lemma {:induction false} CopiedAll(ts0: Tables, mem0: seq<seq<Word>>, parent: int, child: int, pages: seq<PageRef>,
      n: nat, ts: Tables, mem: seq<seq<Word>>)
    requires pages == UserPages(ts0, parent) && n <= |pages| && Copied(ts0, mem0, parent, child, pages, n, ts, mem)
    requires TablesOk(ts0) && |mem0| == NUM_PAGES && forall k <- ts0 :: FIRST_USER <= k.i < END_USER
    ensures ReadsAs(ts, mem, child, ts0, mem0, parent) <==> n == |pages|
    ensures n + 1 == |pages| ==> ReadsAsBut(ts, mem, child, ts0, mem0, parent, pages[n])
  {
    hide SpacePages, Present, Frame, Look, UserPages;
    SpacePagesAre(ts0, parent, END_USER);
    assert pages == SpacePages(ts0, parent, END_USER) by { PagesAre(ts0, parent); }
    forall i: nat, j: nat ensures Listed(pages, |pages|, i, j) || Look(ts0, mem0, Va(Key(parent, i), j)) == None {
      AllListed(ts0, mem0, parent, i, j);
    }
    if n < |pages| {
      var p := pages[n];
      assert p in pages && TableOk(ts0[Key(parent, p.i)]);
      LookIs(ts0, mem0, Va(Key(parent, p.i), p.j), p.frame);
      assert !Listed(pages, n, p.i, p.j);
    }
  }

  lemma {:induction false} PagesAre(ts: Tables, space: int)
    ensures UserPages(ts, space) == SpacePages(ts, space, END_USER)
  {
  }

  /**
   The copying loop before page n: all pages are in place, or the frames have given out and the last one
   was lost because its page table could not be had.
   */
  ghost predicate Midway(m: Machine, ts0: Tables, mem0: seq<seq<Word>>, other0: set<nat>, free: nat, parent: int, child: int,
                         pages: seq<PageRef>, n: nat, placed: nat)
    reads m
  {
    && m.Valid() && placed <= n <= |pages| && Copied(ts0, mem0, parent, child, pages, placed, m.tables, m.mem)
    && (Injective(ts0) ==> Injective(m.tables))
    && if placed == n then free == Cost(pages, n) + |m.freeq| && m.other == other0
       else placed + 1 == n && m.freeq == [] && Starves(pages, placed, free) && m.other != other0
  }

  /** The body of the copying loop. */
  method CopyNext(m: Machine, parent: int, child: int, pages: seq<PageRef>, n: nat,
                  ghost ts0: Tables, ghost mem0: seq<seq<Word>>, ghost other0: set<nat>, ghost free: nat, ghost placed: nat)
    returns (ok: bool, ghost placed': nat)
    requires Midway(m, ts0, mem0, other0, free, parent, child, pages, n, placed)
    requires TablesOk(ts0) && |mem0| == NUM_PAGES && pages == UserPages(ts0, parent) && parent != child && n < |pages|
    modifies m
    ensures m.dirs == old(m.dirs) && (ok <==> old(m.freeq) != [])
    ensures Midway(m, ts0, mem0, other0, free, parent, child, pages, if ok then n + 1 else n, placed')
    ensures !ok ==> m.freeq == []
  {
    hide Good, Copied, Placed, TablesOk, UserPages, HasTable, Injective;
    ghost var st, mem1, p := m.StateWith({}), m.mem, pages[n];
    ParentPage(ts0, mem0, parent, child, pages, placed, n, st, mem1);
    NotYet(ts0, mem0, parent, child, pages, placed, p, st, mem1);
    ok := CopyPage(m, child, pages[n]);
    placed' := placed;
    if ok {
      ghost var key := Key(child, p.i);
      CopiedTable(ts0, mem0, parent, child, pages, n, st.tables, mem1);
      if key in st.tables || |st.freeq| > 1 {
        CopiedNext(ts0, mem0, parent, child, pages, n, st, mem1);
        placed' := n + 1;
      } else {
        CopiedSame(ts0, mem0, parent, child, pages, n, st, mem1, mem1[p.frame]);
      }
    }
  }

  lemma {:induction false} CopiedTable(ts0: Tables, mem0: seq<seq<Word>>, parent: int, child: int,
      pages: seq<PageRef>, n: nat, ts: Tables, mem: seq<seq<Word>>)
    requires n < |pages| && Copied(ts0, mem0, parent, child, pages, n, ts, mem)
    ensures Key(child, pages[n].i) in ts <==> !NewTable(pages, n)
  {
  }

  /** After the failed child is torn down the tables are the old ones. */
  lemma {:induction false} CopiedUndone(ts0: Tables, mem0: seq<seq<Word>>, parent: int, child: int, pages: seq<PageRef>, n: nat,
                                        ts: Tables, mem: seq<seq<Word>>, ts': Tables)
    requires n <= |pages| && Copied(ts0, mem0, parent, child, pages, n, ts, mem) && forall k <- ts0 :: k.space != child
    requires (forall k :: k in ts' <==> k in ts && k.space != child) && forall k <- ts' :: ts'[k] == ts[k]
    ensures ts' == ts0 && SameReads(ts0, mem0, ts', mem)
  {
    hide Present, Frame, HasTable, Listed;
    forall k ensures k in ts' <==> k in ts0 { }
    forall va ensures Look(ts', mem, va) == Look(ts0, mem0, va) {
      if va.key.space != child { assert Look(ts, mem, va) == Look(ts0, mem0, va); }
    }
  }

  lemma {:induction false} CopiedHoused(ts0: Tables, mem0: seq<seq<Word>>, parent: int, child: int, pages: seq<PageRef>, n: nat,
                                        ts: Tables, mem: seq<seq<Word>>, dirs: map<int, nat>, f: nat)
    requires n <= |pages| && pages == UserPages(ts0, parent) && Copied(ts0, mem0, parent, child, pages, n, ts, mem) && Housed(ts0, dirs)
    ensures Housed(ts, dirs[child := f])
  {
    hide SpacePages, Look, Maps, Listed;
    SpacePagesAre(ts0, parent, END_USER);
    forall k <- ts ensures k.space in dirs[child := f] && FIRST_USER <= k.i < END_USER {
      if k.space == child {
        assert k == Key(child, k.i);
        var l :| 0 <= l < n && pages[l].i == k.i;
        assert pages[l] in pages;
      }
    }
  }

  /** The frames that were free decide how the loop ended. */
  lemma {:induction false} Outcome(pages: seq<PageRef>, n: nat, placed: nat, free: nat, left: nat)
    requires n <= |pages| && (n < |pages| ==> left == 0)
    requires if placed == n then free == Cost(pages, n) + left else placed + 1 == n && Starves(pages, placed, free)
    ensures n == |pages| <==> Affords(pages, free) || LosesLast(pages, free)
    ensures placed == n == |pages| <==> Affords(pages, free)
    ensures LosesLast(pages, free) ==> pages != [] && placed + 1 == |pages|
    ensures placed != n <==> exists k :: 0 <= k < |pages| && Starves(pages, k, free)
  {
    hide NewTable;
    CostGrows(pages, n, |pages|);
    if placed == n {
      StarvesOnce(pages, n, free);
    } else {
      CostGrows(pages, n, |pages|);
    }
  }

  /** The copying loop: it stops when alloc_page_frame fails. */
  method CopyAll(m: Machine, parent: int, child: int, pages: seq<PageRef>, ghost ts0: Tables, ghost mem0: seq<seq<Word>>,
                 ghost other0: set<nat>, ghost free: nat)
    returns (ok: bool, ghost n: nat, ghost placed: nat)
    requires Midway(m, ts0, mem0, other0, free, parent, child, pages, 0, 0)
    requires TablesOk(ts0) && |mem0| == NUM_PAGES && pages == UserPages(ts0, parent) && parent != child
    modifies m
    ensures m.dirs == old(m.dirs) && Midway(m, ts0, mem0, other0, free, parent, child, pages, n, placed)
    ensures (ok <==> n == |pages|) && (!ok ==> m.freeq == [])
  {
    hide Midway, TablesOk, UserPages;
    placed := 0;
    for k := 0 to |pages|
      invariant Midway(m, ts0, mem0, other0, free, parent, child, pages, k, placed) && m.dirs == old(m.dirs)
    {
      ok, placed := CopyNext(m, parent, child, pages, k, ts0, mem0, other0, free, placed);
      if !ok {
        return false, k, placed;
      }
    }
    return true, |pages|, placed;
  }

  /** The rest of sys_fork once the child has a directory: copy the pages, and tear the child down if that fails. */
  method CopyInto(m: Machine, parent: int, child: int, pages: seq<PageRef>, ghost ts0: Tables, ghost mem0: seq<seq<Word>>,
                  ghost dirs0: map<int, nat>, ghost other0: set<nat>, ghost free: nat) returns (r: int)
    requires Midway(m, ts0, mem0, other0, free, parent, child, pages, 0, 0)
    requires TablesOk(ts0) && |mem0| == NUM_PAGES && pages == UserPages(ts0, parent) && parent != child
    requires Housed(ts0, dirs0) && child !in dirs0 && child in m.dirs && m.dirs == dirs0[child := m.dirs[child]]
    modifies m
    ensures m.Valid() && Housed(m.tables, m.dirs) && (Injective(ts0) ==> Injective(m.tables))
    ensures SameReadsBut(ts0, mem0, m.tables, m.mem, child)
    ensures (r == 0 <==> Affords(pages, free) || LosesLast(pages, free))
    ensures r == 0 ==> (ReadsAs(m.tables, m.mem, child, ts0, mem0, parent) <==> Affords(pages, free))
    ensures r == 0 && LosesLast(pages, free) ==>
              ReadsAsBut(m.tables, m.mem, child, ts0, mem0, parent, pages[|pages| - 1])
    ensures m.other == other0 <==> forall k :: 0 <= k < |pages| ==> !Starves(pages, k, free)
    ensures r == 0 ==> m.dirs == old(m.dirs)
    ensures r != 0 ==> r == -1 && m.dirs == dirs0 && m.tables == ts0 && SameReads(ts0, mem0, m.tables, m.mem)
  {
    hide Good, Copied, TablesOk, UserPages, HasTable, Injective, Affords, LosesLast, Starves, ReadsAs, ReadsAsBut, Cost, Look;
    ghost var n, placed, f := 0, 0, m.dirs[child];
    var ok;
    ok, n, placed := CopyAll(m, parent, child, pages, ts0, mem0, other0, free);
    Outcome(pages, n, placed, free, |m.freeq|);
    CopiedHoused(ts0, mem0, parent, child, pages, placed, m.tables, m.mem, dirs0, f);
    CopiedOthers(ts0, mem0, parent, child, pages, placed, m.tables, m.mem);
    if !ok {
      ghost var ts1 := m.tables;
      m.Teardown(child);
      CopiedUndone(ts0, mem0, parent, child, pages, placed, ts1, m.mem, m.tables);
      return -1;
    }
    CopiedAll(ts0, mem0, parent, child, pages, placed, m.tables, m.mem);
    r := 0;
  }

  /**
   The address-space half of sys_fork. It succeeds if the frames suffice for a directory, the pages and
   their tables, and also if the only one missing is the table of the last page. The child reads as its
   parent in the first case and only then; in the second it lacks the last page. On failure the tables and
   directories are the old ones. A frame is lost exactly when a page gets a frame and its table does not.
   */
  method Fork(m: Machine, parent: int, child: int) returns (r: int)
    requires m.Valid() && Housed(m.tables, m.dirs) && parent in m.dirs && child !in m.dirs
    modifies m
    ensures m.Valid() && Housed(m.tables, m.dirs) && (Injective(old(m.tables)) ==> Injective(m.tables))
    ensures SameReadsBut(old(m.tables), old(m.mem), m.tables, m.mem, child)
    ensures var pages, free := UserPages(old(m.tables), parent), |old(m.freeq)|;
            && (r == 0 <==> |pages| <= MAX_USER_PAGES && (Affords(pages, free) || LosesLast(pages, free)))
            && (r == 0 ==> (ReadsAs(m.tables, m.mem, child, old(m.tables), old(m.mem), parent) <==> Affords(pages, free)))
            && (r == 0 && LosesLast(pages, free) ==>
               ReadsAsBut(m.tables, m.mem, child, old(m.tables), old(m.mem), parent, pages[|pages| - 1]))
            && (m.other == old(m.other) <==> |pages| > MAX_USER_PAGES || forall k :: 0 <= k < |pages| ==> !Starves(pages, k, free))
    ensures r == 0 ==> m.dirs.Keys == old(m.dirs.Keys) + {child}
    ensures r != 0 ==>
              && r == -1 && m.dirs == old(m.dirs) && m.tables == old(m.tables)
              && SameReads(old(m.tables), old(m.mem), m.tables, m.mem)
  {
    hide Good, Copied, TablesOk, UserPages, HasTable, Injective, Affords, LosesLast, Starves, ReadsAs, ReadsAsBut, Cost, Look;
    ghost var ts0, mem0, dirs0, other0, free := m.tables, m.mem, m.dirs, m.other, |m.freeq|;
    GoodParts(m.StateWith({}));
    KeepsReads(ts0, mem0);
    var ok, pages := Collect(m, parent);
    if !ok {
      return -1;
    }
    NothingYet(pages);
    ok := m.NewSpace(child);
    if !ok {
      NoDirectory(pages);
      return -1;
    }
    CopiedNone(ts0, mem0, parent, child, pages);
    r := CopyInto(m, parent, child, pages, ts0, mem0, dirs0, other0, free);
  }

  lemma {:induction false} NothingYet(pages: seq<PageRef>)
    ensures Cost(pages, 0) == 1
  {
  }

  /** Without a frame for the directory there is none for anything. */
  lemma {:induction false} NoDirectory(pages: seq<PageRef>)
    ensures !Affords(pages, 0) && !LosesLast(pages, 0) && forall k :: 0 <= k < |pages| ==> !Starves(pages, k, 0)
  {
    hide NewTable;
    CostGrows(pages, 0, |pages|);
  }

  lemma {:induction false} CopiedOthers(ts0: Tables, mem0: seq<seq<Word>>, parent: int, child: int,
      pages: seq<PageRef>, n: nat, ts: Tables, mem: seq<seq<Word>>)
    requires n <= |pages| && Copied(ts0, mem0, parent, child, pages, n, ts, mem)
    ensures SameReadsBut(ts0, mem0, ts, mem, child)
  {
  }
}
