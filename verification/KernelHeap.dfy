/**
 The kernel heap of src/kernel/heap.c: kmalloc, kfree and growth on raw words.
 Memory is a map from the addresses of mapped words to their contents; it is a map because
 growth maps more pages. The ghost field `blocks` is the row the words stand for.
 */
module KernelHeap {
  import opened Basics
  import opened Bits
  import opened HeapBlocks
  import opened HeapWords

  const HEAP_INIT_PAGES := 64
  const BRK_LIMIT := 0xFE00_0000

  /** Bytes a request occupies with its tags, in 32-bit arithmetic. */
  function BlockBytes(size: Word): (n: Word)
  {
    var payload := And((size + 3) % WRAP, SIZE_MASK);
    var total := (payload + 8) % WRAP;
    if total < MIN_BLOCK then MIN_BLOCK else total
  }

  /** Pages that hold `need` bytes, in 32-bit arithmetic. */
  function PagesFor(need: Word): (pages: nat)
  {
    (need + (PAGE_SIZE - 1)) % WRAP / PAGE_SIZE
  }

  /** The block has room for the request exactly when the rounding does not wrap. */
  lemma {:induction false} BlockBytesRoom(size: Word)
    ensures BlockBytes(size) >= MIN_BLOCK && BlockBytes(size) % 4 == 0
    ensures BlockBytes(size) - 8 >= size <==> size <= WRAP - 12
    ensures BlockBytes(size) == if size > WRAP - 12 then MIN_BLOCK else if size <= 8 then MIN_BLOCK else (size + 3) / 4 * 4 + 8
  {
    hide And;
    var w := (size + 3) % WRAP;
    RoundDown(w);
  }

  lemma {:induction false} RoundDown(w: Word)
    ensures And(w, SIZE_MASK) == w / 4 * 4
  {
    hide And;
    assert w == Header(w / 4 * 4, w % 2 == 1, w / 2 % 2 == 1);
    HeaderBits(w / 4 * 4, w % 2 == 1, w / 2 % 2 == 1);
  }

  /** The mapped pages cover the need exactly when the page count does not wrap. */
  lemma {:induction false} PagesCover(need: Word)
    requires need > 0
    ensures PagesFor(need) * PAGE_SIZE >= need <==> need <= WRAP - PAGE_SIZE
  {
  }

  /** Below the wrap they are the fewest that do, and frames suffice for them exactly when their bytes cover the need. */
  lemma {:induction false} PagesTight(need: Word, avail: nat)
    requires 0 < need <= WRAP - PAGE_SIZE
    ensures (PagesFor(need) - 1) * PAGE_SIZE < need <= PagesFor(need) * PAGE_SIZE
    ensures PagesFor(need) <= avail <==> need <= avail * PAGE_SIZE
  {
  }

  /** Requests for which the two roundings above go wrong. */
  lemma {:induction false} RoundingWraps()
    ensures BlockBytes(0xFFFF_FFFF) == 16 && BlockBytes(0xFFFF_FFF4) == 0xFFFF_FFFC
    ensures PagesFor(0xFFFF_FFFC) == 0
  {
    BlockBytesRoom(0xFFFF_FFF4);
    RoundDown(2);
  }

  ghost predicate WordAt(m: Mem, x: int) {
    x in m
  }

  /** Every aligned word of the heap is mapped. */
  ghost predicate Mapped(m: Mem, end: int) {
    forall x :: HEAP_START <= x < end && x % 4 == 0 ==> WordAt(m, x)
  }

  lemma {:induction false} MappedSame(m: Mem, m': Mem, end: int)
    requires Mapped(m, end) && m'.Keys == m.Keys
    ensures Mapped(m', end)
  {
    forall x | HEAP_START <= x < end && x % 4 == 0 ensures WordAt(m', x) {
      assert WordAt(m, x);
    }
  }

  /** The words that a split of the block at a writes are mapped. */
  lemma {:induction false} SplitMapped(m: Mem, end: int, a: int, n: nat, size: nat)
    requires Mapped(m, end) && HEAP_START <= a && a + size <= end && a % 4 == 0 && n % 4 == 0 && size % 4 == 0
    requires MIN_BLOCK <= n <= size
    ensures a in m && a + n - 4 in m && a + size - 4 in m
    ensures size - n >= MIN_BLOCK ==> a + n in m && a + n + 4 in m
  {
    assert WordAt(m, a) && WordAt(m, a + n - 4) && WordAt(m, a + size - 4);
    if size - n >= MIN_BLOCK { assert WordAt(m, a + n) && WordAt(m, a + n + 4); }
  }

  lemma {:induction false} LinkWord(m: Mem, end: int, a: int, size: nat)
    requires Mapped(m, end) && HEAP_START <= a && a + size <= end && a % 4 == 0 && size >= MIN_BLOCK
    ensures a + 4 in m
  {
    assert WordAt(m, a + 4);
  }

  /** The words of memory and the list head record the row bs, and all of it is mapped. */
  ghost predicate Good(m: Mem, freeList: int, end: int, bs: seq<Block>) {
    && bs != [] && WellFormed(bs)
    && end == HEAP_START + Total(bs) <= HEAP_START + NUM_PAGES * PAGE_SIZE
    && Mapped(m, end)
    && Tags(m, HEAP_START, bs, false)
    && Chain(m, freeList, FreeAddrs(HEAP_START, bs))
  }

  /** Below `end`, only words the allocator owned were written. */
  ghost predicate WritesOwned(m: Mem, m': Mem, end: int, bs: seq<Block>) {
    forall x :: x in m && HEAP_START <= x < end ==> x in m' && (m'[x] == m[x] || Owned(HEAP_START, bs, x))
  }

  // ---------------------------------------------------- taking a row apart and joining it

  lemma {:induction false} TagsThree(m: Mem, xs: seq<Block>, mid: seq<Block>, ys: seq<Block>)
    ensures Tags(m, HEAP_START, xs + mid + ys, false) <==>
            && Tags(m, HEAP_START, xs, false)
            && Tags(m, HEAP_START + Total(xs), mid, LastFree(xs, false))
            && Tags(m, HEAP_START + Total(xs) + Total(mid), ys, LastFree(xs + mid, false))
  {
    TagsConcat(m, HEAP_START, xs + mid, ys, false);
    TotalConcat(xs, mid);
    TagsConcat(m, HEAP_START, xs, mid, false);
  }

  lemma {:induction false} FreeThree(xs: seq<Block>, mid: seq<Block>, ys: seq<Block>)
    ensures FreeAddrs(HEAP_START, xs + mid + ys) ==
            FreeAddrs(HEAP_START, xs) + FreeAddrs(HEAP_START + Total(xs), mid)
            + FreeAddrs(HEAP_START + Total(xs) + Total(mid), ys)
  {
    FreeAddrsConcat(HEAP_START, xs + mid, ys);
    TotalConcat(xs, mid);
    FreeAddrsConcat(HEAP_START, xs, mid);
  }

  lemma {:induction false} OwnedThree(xs: seq<Block>, mid: seq<Block>, ys: seq<Block>, x: int)
    ensures Owned(HEAP_START, xs + mid + ys, x) <==>
            || Owned(HEAP_START, xs, x) || Owned(HEAP_START + Total(xs), mid, x)
            || Owned(HEAP_START + Total(xs) + Total(mid), ys, x)
  {
    OwnedConcat(HEAP_START, xs + mid, ys, x);
    TotalConcat(xs, mid);
    OwnedConcat(HEAP_START, xs, mid, x);
  }

  /** Where block i lies. */
  lemma {:induction false} AddrAt(bs: seq<Block>, i: nat)
    requires WellFormed(bs) && i < |bs|
    ensures var a := Addr(bs, i);
            && bs[i].size >= MIN_BLOCK && bs[i].size % 4 == 0 && Addr(bs, i + 1) == a + bs[i].size
            && a % 4 == 0 && HEAP_START <= a && a + bs[i].size <= HEAP_START + Total(bs)
  {
    RowSplit(bs, i, false);
    TotalSplit(bs, i);
    RowTotal(bs[..i], false);
  }

  lemma {:induction false} WordsAt(m: Mem, bs: seq<Block>, i: nat)
    requires Tags(m, HEAP_START, bs, false) && i < |bs|
    ensures var a, b := Addr(bs, i), bs[i];
            && a in m && m[a] == Header(b.size, b.free, LastFree(bs[..i], false))
            && a + b.size - 4 in m && m[a + b.size - 4] == b.size
  {
    Slices(bs, i, i);
    TagsConcat(m, HEAP_START, bs[..i], bs[i..], false);
  }

  /** The words of block i. */
  lemma {:induction false} HeaderAt(m: Mem, bs: seq<Block>, i: nat)
    requires WellFormed(bs) && Tags(m, HEAP_START, bs, false) && i < |bs|
    requires HEAP_START + Total(bs) <= WRAP
    ensures var a, b := Addr(bs, i), bs[i];
            && a in m && m[a] == Header(b.size, b.free, LastFree(bs[..i], false))
            && a + b.size - 4 in m && m[a + b.size - 4] == b.size
            && And(m[a], SIZE_MASK) == b.size
            && (And(m[a], FLAG_FREE) != 0 <==> b.free)
            && (And(m[a], FLAG_PREV_FREE) != 0 <==> LastFree(bs[..i], false))
  {
    WordsAt(m, bs, i);
    AddrAt(bs, i);
    HeaderBits(bs[i].size, bs[i].free, LastFree(bs[..i], false));
  }

  /** A list entered before block i leads to the first free block from i on. */
  lemma {:induction false} NextFree(m: Mem, p: int, bs: seq<Block>, i: nat) returns (j: nat)
    requires WellFormed(bs) && i <= |bs| && Chain(m, p, FreeAddrs(Addr(bs, i), bs[i..])) && p != 0
    ensures i <= j < |bs| && bs[j].free && p == Addr(bs, j)
    ensures forall k :: i <= k < j ==> !bs[k].free
    ensures p + 4 in m && Chain(m, m[p + 4], FreeAddrs(Addr(bs, j + 1), bs[j + 1..]))
    decreases |bs| - i
  {
    var fl := FreeAddrs(Addr(bs, i), bs[i..]);
    assert i < |bs|;
    TotalSplit(bs, i);
    assert bs[i..][1..] == bs[i + 1..];
    assert !bs[i].free ==> fl == FreeAddrs(Addr(bs, i + 1), bs[i + 1..]);
    if bs[i].free {
      j := i;
      assert Link(m, fl, 0);
      ChainTail(m, fl);
    } else {
      j := NextFree(m, p, bs, i + 1);
    }
  }

  lemma {:induction false} ChainTail(m: Mem, fl: seq<int>)
    requires fl != [] && Chain(m, fl[0], fl) && Link(m, fl, 0)
    ensures Chain(m, m[fl[0] + 4], fl[1..])
  {
    forall k | 0 <= k < |fl| - 1 ensures Link(m, fl[1..], k) {
      assert Link(m, fl, k + 1);
    }
  }

  lemma {:induction false} FindFitIs(bs: seq<Block>, n: nat, i: nat)
    requires i < |bs| && Fits(bs[i], n) && forall j :: 0 <= j < i ==> !Fits(bs[j], n)
    ensures FindFit(bs, n) == i
  {
  }

  lemma {:induction false} NoFreeLeft(m: Mem, bs: seq<Block>, n: nat, i: nat)
    requires WellFormed(bs) && i <= |bs| && Chain(m, 0, FreeAddrs(Addr(bs, i), bs[i..]))
    requires forall j :: 0 <= j < i ==> !Fits(bs[j], n)
    ensures FindFit(bs, n) == |bs|
  {
    var fl := FreeAddrs(Addr(bs, i), bs[i..]);
    Slices(bs, i, i);
    RowConcat(bs[..i], bs[i..], false);
    FreeAddrsBounds(Addr(bs, i), bs[i..], LastFree(bs[..i], false));
    HeadIn(fl);
    NoFreeAddrs(Addr(bs, i), bs[i..]);
    assert forall j :: i <= j < |bs| ==> bs[j] in bs[i..];
  }

  lemma {:induction false} HeadIn(fl: seq<int>)
    ensures fl == [] || fl[0] in fl
  {
  }

  lemma {:induction false} NoFreeAddrs(a: int, bs: seq<Block>)
    requires FreeAddrs(a, bs) == []
    ensures forall b <- bs :: !b.free
    decreases |bs|
  {
    if bs != [] { NoFreeAddrs(a + bs[0].size, bs[1..]); }
  }

  /** Join three stretches whose tags and links are in place. */
  lemma {:induction false} CloseRow(m: Mem, p: int, end: int, xs: seq<Block>, mid: seq<Block>, ys: seq<Block>)
    requires WellFormed(xs) && mid != [] && Row(mid, LastFree(xs, false)) && Row(ys, LastFree(mid, false))
    requires end == HEAP_START + Total(xs) + Total(mid) + Total(ys) <= HEAP_START + NUM_PAGES * PAGE_SIZE
    requires Mapped(m, end)
    requires Tags(m, HEAP_START, xs, false) && Tags(m, HEAP_START + Total(xs), mid, LastFree(xs, false))
    requires Tags(m, HEAP_START + Total(xs) + Total(mid), ys, LastFree(mid, false))
    requires Chain(m, p, FreeAddrs(HEAP_START, xs) + FreeAddrs(HEAP_START + Total(xs), mid)
                         + FreeAddrs(HEAP_START + Total(xs) + Total(mid), ys))
    ensures Good(m, p, end, xs + mid + ys)
  {
    RowReplace(xs, mid, ys);
    assert LastFree(xs + mid, false) == LastFree(mid, false);
    TagsThree(m, xs, mid, ys);
    FreeThree(xs, mid, ys);
  }

  /** Left of lo and right of hi only link words of fx and fy changed; hi itself may have. */
  ghost predicate Sides(m0: Mem, m: Mem, lo: int, hi: int, fx: seq<int>, fy: seq<int>) {
    && m.Keys == m0.Keys
    && (forall x :: x in m0 && x < lo ==> m[x] == m0[x] || x - 4 in fx)
    && (forall x :: x in m0 && x > hi ==> m[x] == m0[x] || x - 4 in fy)
  }

  ghost predicate Apart(lo: int, hi: int, fx: seq<int>, fy: seq<int>) {
    (forall f <- fx :: HEAP_START <= f && f + MIN_BLOCK <= lo) && (forall f <- fy :: hi <= f)
  }

  lemma {:induction false} SidesStep(m0: Mem, m: Mem, m': Mem, lo: int, hi: int, fx: seq<int>, fy: seq<int>)
    requires Sides(m0, m, lo, hi, fx, fy) && Apart(lo, hi, fx, fy) && lo <= hi && m'.Keys == m.Keys
    requires forall x :: x in m && (x < lo || hi < x) ==> m'[x] == m[x] || x - 4 in fx || x - 4 in fy
    ensures Sides(m0, m', lo, hi, fx, fy)
  {
  }

  lemma {:induction false} LeftTags(m0: Mem, m: Mem, lo: int, hi: int, fy: seq<int>, xs: seq<Block>)
    requires WellFormed(xs) && Tags(m0, HEAP_START, xs, false) && lo == HEAP_START + Total(xs)
    requires Sides(m0, m, lo, hi, FreeAddrs(HEAP_START, xs), fy)
    ensures Tags(m, HEAP_START, xs, false)
  {
    TagsFrame(m0, m, HEAP_START, xs, false);
  }

  lemma {:induction false} RightTags(m0: Mem, m: Mem, lo: int, hi: int, fx: seq<int>, ys: seq<Block>, pf: bool, pf': bool)
    requires Row(ys, pf) && Tags(m0, hi, ys, pf)
    requires Sides(m0, m, lo, hi, fx, FreeAddrs(hi, ys))
    requires ys != [] ==> hi in m && m[hi] == Header(ys[0].size, ys[0].free, pf')
    ensures Tags(m, hi, ys, pf')
  {
    if ys != [] {
      var rest, a := ys[1..], hi + ys[0].size;
      FreeAddrsBounds(a, rest, ys[0].free);
      assert hi + ys[0].size - 8 !in FreeAddrs(hi, ys);
      TagsFrame(m0, m, a, rest, ys[0].free);
    }
  }

  /** Writes confined to a stretch that is the allocator's, to links and to the next header are owned. */
  lemma {:induction false} SidesOwned(m0: Mem, m: Mem, end: int, xs: seq<Block>, mid: seq<Block>, ys: seq<Block>)
    requires WellFormed(xs + mid + ys) && end == HEAP_START + Total(xs + mid + ys)
    requires var lo, hi := HEAP_START + Total(xs), HEAP_START + Total(xs) + Total(mid);
             && Sides(m0, m, lo, hi, FreeAddrs(HEAP_START, xs), FreeAddrs(hi, ys))
             && forall x :: x in m0 && lo <= x < hi ==> m[x] == m0[x] || Owned(lo, mid, x)
    ensures WritesOwned(m0, m, end, xs + mid + ys)
  {
    hide Row, Owned, FreeAddrs, Total;
    var lo, hi := HEAP_START + Total(xs), HEAP_START + Total(xs) + Total(mid);
    RowConcat(xs + mid, ys, false);
    RowConcat(xs, mid, false);
    TotalConcat(xs + mid, ys);
    TotalConcat(xs, mid);
    forall x | x in m0 && HEAP_START <= x < end && m[x] != m0[x]
      ensures Owned(HEAP_START, xs + mid + ys, x)
    {
      OwnedThree(xs, mid, ys, x);
      if x < lo {
        LinkOwned(HEAP_START, xs, false, x - 4);
      } else if x > hi {
        LinkOwned(hi, ys, LastFree(xs + mid, false), x - 4);
      } else if x == hi {
        FirstOwned(hi, ys, LastFree(xs + mid, false));
      }
    }
  }

  lemma {:induction false} FirstOwned(a: int, bs: seq<Block>, pf: bool)
    requires Row(bs, pf) && Total(bs) > 0
    ensures Owned(a, bs, a)
  {
  }

  /** The two sides of the stretch from lo to hi: their tags in m0 are right and m changed nothing there but links. */
  ghost predicate Around(m0: Mem, m: Mem, xs: seq<Block>, ys: seq<Block>, pf: bool, lo: int, hi: int) {
    && WellFormed(xs) && Row(ys, pf) && HEAP_START + Total(xs) == lo <= hi
    && Tags(m0, HEAP_START, xs, false) && Tags(m0, hi, ys, pf)
    && Sides(m0, m, lo, hi, FreeAddrs(HEAP_START, xs), FreeAddrs(hi, ys))
  }

  lemma {:induction false} AroundApart(m0: Mem, m: Mem, xs: seq<Block>, ys: seq<Block>, pf: bool, lo: int, hi: int)
    requires Around(m0, m, xs, ys, pf, lo, hi)
    ensures Apart(lo, hi, FreeAddrs(HEAP_START, xs), FreeAddrs(hi, ys))
  {
    FreeAddrsBounds(HEAP_START, xs, false);
    FreeAddrsBounds(hi, ys, pf);
  }

  lemma {:induction false} AroundStep(m0: Mem, m: Mem, m': Mem, xs: seq<Block>, ys: seq<Block>, pf: bool, lo: int, hi: int)
    requires Around(m0, m, xs, ys, pf, lo, hi) && m'.Keys == m.Keys
    requires var fx, fy := FreeAddrs(HEAP_START, xs), FreeAddrs(hi, ys);
             forall x :: x in m && (x < lo || hi < x) ==> m'[x] == m[x] || x - 4 in fx + fy
    ensures Around(m0, m', xs, ys, pf, lo, hi)
  {
    AroundApart(m0, m, xs, ys, pf, lo, hi);
    SidesStep(m0, m, m', lo, hi, FreeAddrs(HEAP_START, xs), FreeAddrs(hi, ys));
  }

  /** The block being split lies apart from the listed ones, and its rest belongs between them. */
  lemma {:induction false} SplitPlace(m0: Mem, m: Mem, xs: seq<Block>, ys: seq<Block>, fb: int, n: Word, remaining: Word, end: int)
    requires n >= MIN_BLOCK && remaining >= MIN_BLOCK && Around(m0, m, xs, ys, true, fb, fb + n + remaining)
    requires fb + n + remaining + Total(ys) == end
    requires var hi := fb + n + remaining; ys != [] ==> hi in m && m[hi] == Header(ys[0].size, ys[0].free, true)
    ensures var hi := fb + n + remaining;
            var fx, fy := FreeAddrs(HEAP_START, xs), FreeAddrs(hi, ys);
            && fb >= HEAP_START && hi <= end && (hi < end ==> ys != []) && hi - 4 !in fx + fy
               && Insert(fx + fy, fb + n) == fx + [fb + n] + fy
            && (forall f <- fx + fy :: f + MIN_BLOCK <= fb || hi <= f)
            && (ys != [] ==> hi in m && m[hi] == Or(m[hi], FLAG_PREV_FREE))
  {
    hide FreeAddrs, Insert, And, Or;
    var hi := fb + n + remaining;
    AroundApart(m0, m, xs, ys, true, fb, hi);
    if ys != [] { HeaderBits(ys[0].size, ys[0].free, true); }
    InsertBetween(FreeAddrs(HEAP_START, xs), FreeAddrs(hi, ys), fb + n);
  }

  /** When the middle and the next header are right too, memory records xs + mid + ys. */
  lemma {:induction false} Rebuilt(m0: Mem, m: Mem, p: int, end: int, xs: seq<Block>, mid: seq<Block>, ys: seq<Block>, pf: bool)
    requires Mapped(m, end)
    requires mid != [] && Row(mid, LastFree(xs, false)) && Row(ys, LastFree(mid, false))
    requires var lo, hi := HEAP_START + Total(xs), HEAP_START + Total(xs) + Total(mid);
             && Around(m0, m, xs, ys, pf, lo, hi) && hi + Total(ys) == end <= HEAP_START + NUM_PAGES * PAGE_SIZE
             && Tags(m, lo, mid, LastFree(xs, false))
             && (ys != [] ==> hi in m && m[hi] == Header(ys[0].size, ys[0].free, LastFree(mid, false)))
             && Chain(m, p, FreeAddrs(HEAP_START, xs) + FreeAddrs(lo, mid) + FreeAddrs(hi, ys))
    ensures Good(m, p, end, xs + mid + ys)
  {
    var lo, hi := HEAP_START + Total(xs), HEAP_START + Total(xs) + Total(mid);
    LeftTags(m0, m, lo, hi, FreeAddrs(hi, ys), xs);
    RightTags(m0, m, lo, hi, FreeAddrs(HEAP_START, xs), ys, pf, LastFree(mid, false));
    CloseRow(m, p, end, xs, mid, ys);
  }

  lemma {:induction false} DropOne(fx: seq<int>, a: int, fy: seq<int>)
    requires Ascending(fx + [a] + fy) && Pointers(fx + [a] + fy)
    ensures Ascending(fx + fy) && Pointers(fx + fy) && a !in fx
  {
    assert forall k :: 0 <= k < |fx| ==> (fx + [a] + fy)[k] == fx[k] && (fx + [a] + fy)[|fx|] == a;
    var fl, fl' := fx + [a] + fy, fx + fy;
    assert forall k :: 0 <= k < |fl'| ==> fl'[k] == fl[if k < |fx| then k else k + 1];
  }

  /** Unlinking a free block between xs and ys touches neither side but in links. */
  lemma {:induction false} Unlinked(m0: Mem, m: Mem, p: int, xs: seq<Block>, ys: seq<Block>, lo: int, hi: int)
    requires Around(m0, m0, xs, ys, true, lo, hi) && lo + MIN_BLOCK <= hi
    requires var fx, fy := FreeAddrs(HEAP_START, xs), FreeAddrs(hi, ys);
             && LinksOnly(m0, m, fx + [lo] + fy, lo + 4) && Chain(m, p, Without(fx + [lo] + fy, lo))
    ensures Around(m0, m, xs, ys, true, lo, hi)
    ensures Chain(m, p, FreeAddrs(HEAP_START, xs) + FreeAddrs(hi, ys))
    ensures (lo in m ==> m[lo] == m0[lo]) && (hi in m ==> m[hi] == m0[hi])
  {
    var fx, fy := FreeAddrs(HEAP_START, xs), FreeAddrs(hi, ys);
    AroundApart(m0, m0, xs, ys, true, lo, hi);
    WithoutBetween(fx, fy, lo);
    AroundStep(m0, m0, m, xs, ys, true, lo, hi);
    assert lo - 4 !in fx + [lo] + fy && hi - 4 !in fx + [lo] + fy;
  }

  /** The row taken apart around one free block. */
  ghost predicate Opened(m: Mem, p: int, end: int, xs: seq<Block>, b: Block, ys: seq<Block>) {
    var lo := HEAP_START + Total(xs);
    var hi := lo + b.size;
    var fx, fy := FreeAddrs(HEAP_START, xs), FreeAddrs(hi, ys);
    && b.free && b.size >= MIN_BLOCK && b.size % 4 == 0 && lo % 4 == 0 && !LastFree(xs, false)
    && Around(m, m, xs, ys, true, lo, hi) && hi + Total(ys) == end <= HEAP_START + NUM_PAGES * PAGE_SIZE
    && Mapped(m, end)
    && lo in m && m[lo] == Header(b.size, true, false)
    && (ys != [] ==> hi in m && m[hi] == Header(ys[0].size, ys[0].free, true))
    && Chain(m, p, fx + [lo] + fy) && Ascending(fx + [lo] + fy) && Pointers(fx + [lo] + fy)
  }

  lemma {:induction false} OpenAt(m: Mem, p: int, end: int, bs: seq<Block>, i: nat)
    requires Good(m, p, end, bs) && i < |bs| && bs[i].free
    ensures bs == bs[..i] + [bs[i]] + bs[i + 1..]
    ensures Opened(m, p, end, bs[..i], bs[i], bs[i + 1..])
    ensures FreeAddrs(HEAP_START, bs) ==
            FreeAddrs(HEAP_START, bs[..i]) + [Addr(bs, i)] + FreeAddrs(Addr(bs, i) + bs[i].size, bs[i + 1..])
  {
    hide Chain, Ascending, Pointers, Mapped, Row, FreeAddrs, Header;
    var xs, b, ys, a := bs[..i], bs[i], bs[i + 1..], Addr(bs, i);
    Slices(bs, i, i + 1);
    assert bs[i..i + 1] == [b];
    RowSplit(bs, i, false);
    TotalSplit(bs, i);
    TotalPair(b, b);
    TagsThree(m, xs, [b], ys);
    FreeThree(xs, [b], ys);
    OneFree(a, [b]);
    AddrAt(bs, i);
    WordsAt(m, bs, i);
    RowPointers(bs, end);
  }

  lemma {:induction false} RowPointers(bs: seq<Block>, end: int)
    requires WellFormed(bs) && HEAP_START + Total(bs) <= WRAP
    ensures var fl := FreeAddrs(HEAP_START, bs); Ascending(fl) && Pointers(fl)
  {
    FreeAddrsBounds(HEAP_START, bs, false);
    var fl := FreeAddrs(HEAP_START, bs);
    assert forall k :: 0 <= k < |fl| ==> fl[k] in fl;
  }

  lemma {:induction false} CarvedFree(fx: seq<int>, fy: seq<int>, a: int, b: Block, n: nat)
    requires Fits(b, n)
    ensures var fm := FreeAddrs(a, TakeMid(b, n));
            && (b.size - n >= MIN_BLOCK ==> fx + fm + fy == fx + [a + n] + fy)
            && (b.size - n < MIN_BLOCK ==> fx + fm + fy == fx + fy)
  {
    var mid := TakeMid(b, n);
    assert mid[1..] == if |mid| == 2 then [mid[1]] else [];
    if |mid| == 2 {
      assert FreeAddrs(a, mid) == FreeAddrs(a + n, [mid[1]]);
      assert FreeAddrs(a + n, [mid[1]]) == [a + n] + FreeAddrs(a + b.size, []);
    } else {
      assert FreeAddrs(a, mid) == FreeAddrs(a + b.size, []) == [];
      assert fx + [] + fy == fx + fy;
    }
  }

  /** The words of a carved block, and the rest as it was, record the row after Take. */
  lemma {:induction false} CarvedGood(m0: Mem, m: Mem, p: int, end: int, xs: seq<Block>, b: Block, ys: seq<Block>, n: nat)
    requires Fits(b, n) && b.size % 4 == 0 && n >= MIN_BLOCK && n % 4 == 0 && !LastFree(xs, false)
    requires Mapped(m, end)
    requires var a, mid := HEAP_START + Total(xs), TakeMid(b, n);
             var hi := a + b.size;
             && Around(m0, m, xs, ys, true, a, hi) && hi + Total(ys) == end <= HEAP_START + NUM_PAGES * PAGE_SIZE
             && Tags(m, a, mid, false)
             && (ys != [] ==> hi in m && m[hi] == Header(ys[0].size, ys[0].free, |mid| == 2))
             && Chain(m, p, FreeAddrs(HEAP_START, xs) + FreeAddrs(a, mid) + FreeAddrs(hi, ys))
    ensures Good(m, p, end, xs + TakeMid(b, n) + ys) && WritesOwned(m0, m, end, xs + [b] + ys)
  {
    hide And, Or, Ascending, Link;
    var a, mid := HEAP_START + Total(xs), TakeMid(b, n);
    TotalPair(b, b);
    RowPrevFree(ys, true);
    assert mid[1..] == if |mid| == 2 then [mid[1]] else [];
    Rebuilt(m0, m, p, end, xs, mid, ys, true);
    RowReplace(xs, [b], ys);
    SidesOwned(m0, m, end, xs, [b], ys);
  }

  // ---------------------------------------------------------------- giving a block back

  ghost function OptAddr(present: bool, a: int): seq<int> {
    if present then [a] else []
  }

  /**
   The row taken apart around a block to be freed: s bytes at lo + l, after a free block of l bytes
   (none when l is 0) and before a free block of r bytes (none when r is 0).
   */
  ghost predicate Freeing(m: Mem, p: int, end: int, xs: seq<Block>, l: nat, s: nat, r: nat, ys: seq<Block>) {
    var lo := HEAP_START + Total(xs);
    var block, next, hi := lo + l, lo + l + s, lo + l + s + r;
    && SizeOk(l) && SizeOk(s) && s > 0 && SizeOk(r) && lo % 4 == 0
    && hi + Total(ys) == end <= HEAP_START + NUM_PAGES * PAGE_SIZE && Mapped(m, end)
    && Around(m, m, xs, ys, r > 0, lo, hi) && Row(ys, true)
    && (l > 0 ==> lo in m && m[lo] == Header(l, true, false) && block - 4 in m && m[block - 4] == l)
    && block in m && m[block] == Header(s, false, l > 0)
    && (r > 0 ==> next in m && m[next] == Header(r, true, false))
    && (ys != [] ==> hi in m && m[hi] == Header(ys[0].size, ys[0].free, r > 0) && !ys[0].free)
    && FreeingList(m, p, xs, l, s, r, ys)
  }

  predicate SizeOk(s: nat) {
    s == 0 || (s >= MIN_BLOCK && s % 4 == 0)
  }

  ghost predicate ListIs(m: Mem, p: int, fl: seq<int>) {
    Chain(m, p, fl) && Ascending(fl) && Pointers(fl)
  }

  ghost predicate FreeingList(m: Mem, p: int, xs: seq<Block>, l: nat, s: nat, r: nat, ys: seq<Block>) {
    var lo := HEAP_START + Total(xs);
    ListIs(m, p, FreeAddrs(HEAP_START, xs) + OptAddr(l > 0, lo) + OptAddr(r > 0, lo + l + s)
                 + FreeAddrs(lo + l + s + r, ys))
  }

  lemma {:induction false} FreeingWords(m: Mem, p: int, end: int, xs: seq<Block>, l: nat, s: nat, r: nat, ys: seq<Block>)
    requires Freeing(m, p, end, xs, l, s, r, ys)
    ensures var lo := HEAP_START + Total(xs);
            var next, hi := lo + l + s, lo + l + s + r;
            && SizeOk(l) && SizeOk(s) && s > 0 && SizeOk(r) && SizeOk(l + s) && SizeOk(l + s + r) && lo % 4 == 0 && lo >= HEAP_START
            && hi + Total(ys) == end <= HEAP_START + NUM_PAGES * PAGE_SIZE && Mapped(m, end) && Row(ys, true)
            && (r > 0 ==> next in m && m[next] == Header(r, true, false))
            && (ys != [] ==> hi in m && m[hi] == Header(ys[0].size, ys[0].free, r > 0) && !ys[0].free)
  {
    hide Chain, Pointers, Ascending, Tags, Row, Sides, Mapped, FreeAddrs, Total, Header, ListIs;
  }

  /** What the first half of merging needs to know: the words to read, and where the free predecessor is in the list. */
  lemma {:induction false} MergePlace(m: Mem, p: int, end: int, xs: seq<Block>, l: nat, s: nat, r: nat, ys: seq<Block>)
    requires Freeing(m, p, end, xs, l, s, r, ys)
    ensures var lo := HEAP_START + Total(xs);
            var block, next, hi := lo + l, lo + l + s, lo + l + s + r;
            var fx, fy := FreeAddrs(HEAP_START, xs), FreeAddrs(hi, ys);
            var rest := OptAddr(r > 0, next) + fy;
            && lo >= HEAP_START && block + s <= end && s % 4 == 0 && 0 < s && l % 4 == 0 && l + s < WRAP && r >= 0
            && block in m && m[block] == Header(s, false, l > 0) && Around(m, m, xs, ys, r > 0, lo, hi)
            && fx + OptAddr(r > 0, next) + fy == fx + rest
            && (l == 0 ==> ListIs(m, p, fx + rest))
            && (l > 0 ==>
                  && l >= MIN_BLOCK && block - 4 in m && m[block - 4] == l && lo in m && m[lo] == Header(l, true, false)
                  && ListIs(m, p, fx + [lo] + rest)
                  && lo - 4 !in fx + [lo] + rest && next - 4 !in fx + [lo] + rest && hi - 4 !in fx + [lo] + rest
                  && (forall g <- fx + rest :: g in fx + fy || lo <= g <= hi - MIN_BLOCK))
  {
    hide Chain, Pointers, Ascending, Tags, Row, Sides, Mapped, FreeAddrs, Total, Header, ListIs;
    var lo := HEAP_START + Total(xs);
    var next, hi := lo + l + s, lo + l + s + r;
    var fx, fy := FreeAddrs(HEAP_START, xs), FreeAddrs(hi, ys);
    var rest := OptAddr(r > 0, next) + fy;
    AroundApart(m, m, xs, ys, r > 0, lo, hi);
    assert fx + OptAddr(r > 0, next) + fy == fx + rest;
    assert fx + OptAddr(l > 0, lo) + OptAddr(r > 0, next) + fy == fx + (if l > 0 then [lo] else []) + rest;
    assert fx + [] == fx;
  }

  /** The freed block, merged, with its neighbours in place, records the row after Release. */
  lemma {:induction false} FreedGood(m0: Mem, m: Mem, p: int, end: int, xs: seq<Block>, t: nat, ys: seq<Block>, pf: bool)
    requires t >= MIN_BLOCK && t % 4 == 0 && !LastFree(xs, false) && Row(ys, true) && Mapped(m, end)
    requires var lo, hi := HEAP_START + Total(xs), HEAP_START + Total(xs) + t;
             && Around(m0, m, xs, ys, pf, lo, hi) && hi + Total(ys) == end <= HEAP_START + NUM_PAGES * PAGE_SIZE
             && lo in m && m[lo] == Header(t, true, false) && hi - 4 in m && m[hi - 4] == t
             && (ys != [] ==> hi in m && m[hi] == Header(ys[0].size, ys[0].free, true))
             && Chain(m, p, FreeAddrs(HEAP_START, xs) + [lo] + FreeAddrs(hi, ys))
    ensures Good(m, p, end, xs + [Block(t, true)] + ys) && WritesOwned(m0, m, end, xs + [Block(t, true)] + ys)
  {
    var lo, mid := HEAP_START + Total(xs), [Block(t, true)];
    hide Chain, And, Or, Mapped, Sides;
    TotalPair(mid[0], mid[0]);
    assert FreeAddrs(lo, mid) == [lo] + FreeAddrs(lo + t, []) == [lo];
    Rebuilt(m0, m, p, end, xs, mid, ys, pf);
    RowReplace(xs, mid, ys);
    SidesOwned(m0, m, end, xs, mid, ys);
  }

  /** The sizes of the free neighbours that release merges; 0 for none. */
  function LeftSize(bs: seq<Block>, i: nat): nat
    requires i < |bs|
  {
    if FreeLeft(bs, i) < i then bs[i - 1].size else 0
  }

  function RightSize(bs: seq<Block>, i: nat): nat
    requires i < |bs|
  {
    if FreeRight(bs, i) > i + 1 then bs[i + 1].size else 0
  }

  /** Where the stretch that release merges lies. */
  lemma {:induction false} StretchAt(bs: seq<Block>, i: nat)
    requires WellFormed(bs) && i < |bs| && !bs[i].free
    ensures var lo, hi := FreeLeft(bs, i), FreeRight(bs, i);
            var l, s, r := LeftSize(bs, i), bs[i].size, RightSize(bs, i);
            var a := HEAP_START + Total(bs[..lo]);
            && SizeOk(l) && SizeOk(s) && s > 0 && SizeOk(r) && a % 4 == 0 && a >= HEAP_START
            && Addr(bs, lo) == a && Addr(bs, i) == a + l && Addr(bs, i + 1) == a + l + s && Addr(bs, hi) == a + l + s + r
            && a + l + s + r + Total(bs[hi..]) == HEAP_START + Total(bs)
            && Total(bs[lo..hi]) == l + s + r
            && (r > 0 <==> hi > i + 1) && (l > 0 <==> lo < i)
  {
    hide Row, Total;
    var lo, hi := FreeLeft(bs, i), FreeRight(bs, i);
    AddrAt(bs, i);
    AddrAt(bs, lo);
    AddrAt(bs, hi - 1);
    ReleaseSize(bs, i);
    TotalHead(bs, hi);
  }

  lemma {:induction false} TotalHead(bs: seq<Block>, k: nat)
    requires k <= |bs|
    ensures Total(bs[..k]) + Total(bs[k..]) == Total(bs)
  {
    Slices(bs, k, k);
    TotalConcat(bs[..k], bs[k..]);
  }

  /** The blocks just outside the stretch are not free. */
  lemma {:induction false} StretchEnds(bs: seq<Block>, i: nat)
    requires WellFormed(bs) && i < |bs| && !bs[i].free
    ensures var lo, hi := FreeLeft(bs, i), FreeRight(bs, i);
            && (hi < |bs| ==> !bs[hi].free) && (bs[hi - 1].free <==> hi > i + 1)
            && LastFree(bs[..lo] + bs[lo..hi], false) == bs[hi - 1].free
  {
    hide Row;
    var lo, hi := FreeLeft(bs, i), FreeRight(bs, i);
    RowSplit(bs, hi - 1, false);
  }

  lemma {:induction false} RowAfterTaken(bs: seq<Block>)
    requires Row(bs, true)
    ensures Row(bs, false)
  {
  }

  /** The sides of that stretch. */
  lemma {:induction false} StretchAround(m: Mem, bs: seq<Block>, i: nat)
    requires WellFormed(bs) && i < |bs| && !bs[i].free && Tags(m, HEAP_START, bs, false)
    ensures var lo, hi := FreeLeft(bs, i), FreeRight(bs, i);
            var l, s, r := LeftSize(bs, i), bs[i].size, RightSize(bs, i);
            var a := HEAP_START + Total(bs[..lo]);
            && Around(m, m, bs[..lo], bs[hi..], r > 0, a, a + l + s + r) && Row(bs[hi..], true) && !LastFree(bs[..lo], false)
  {
    hide Total, Tags, FreeAddrs;
    var lo, hi := FreeLeft(bs, i), FreeRight(bs, i);
    StretchAt(bs, i);
    StretchEnds(bs, i);
    ReleaseShape(bs, i);
    RowAfterTaken(bs[hi..]);
    TagsThree(m, bs[..lo], bs[lo..hi], bs[hi..]);
  }

  /** Its free blocks. */
  lemma {:induction false} StretchFree(bs: seq<Block>, i: nat)
    requires WellFormed(bs) && i < |bs| && !bs[i].free
    ensures var lo, hi := FreeLeft(bs, i), FreeRight(bs, i);
            var l, s, r := LeftSize(bs, i), bs[i].size, RightSize(bs, i);
            var a := HEAP_START + Total(bs[..lo]);
            FreeAddrs(HEAP_START, bs) ==
            FreeAddrs(HEAP_START, bs[..lo]) + OptAddr(l > 0, a) + OptAddr(r > 0, a + l + s) + FreeAddrs(a + l + s + r, bs[hi..])
  {
    hide Row, Total, FreeAddrs;
    var lo, hi := FreeLeft(bs, i), FreeRight(bs, i);
    var l, s, r := LeftSize(bs, i), bs[i].size, RightSize(bs, i);
    var a := HEAP_START + Total(bs[..lo]);
    StretchAt(bs, i);
    Slices(bs, lo, hi);
    FreeThree(bs[..lo], bs[lo..hi], bs[hi..]);
    SliceAt(bs, lo, i, hi);
    StretchParts(a, bs[lo..i], bs[i], bs[i + 1..hi]);
    assert l > 0 ==> bs[lo..i] == [bs[lo]];
    assert r > 0 ==> bs[i + 1..hi] == [bs[i + 1]];
    Regroup(FreeAddrs(HEAP_START, bs[..lo]), OptAddr(l > 0, a), OptAddr(r > 0, a + l + s), FreeAddrs(a + l + s + r, bs[hi..]));
  }

  lemma {:induction false} Regroup(a: seq<int>, b: seq<int>, c: seq<int>, d: seq<int>)
    ensures a + (b + c) + d == a + b + c + d
  {
  }

  lemma {:induction false} StretchParts(a: int, left: seq<Block>, b: Block, right: seq<Block>)
    requires |left| <= 1 && |right| <= 1 && !b.free && (forall c <- left + right :: c.free)
    ensures FreeAddrs(a, left + [b] + right) ==
            OptAddr(left != [], a) + OptAddr(right != [], a + (if left == [] then 0 else left[0].size) + b.size)
  {
    assert left != [] ==> left[0] in left + right;
    assert right != [] ==> right[0] in left + right;
    var x := a + if left == [] then 0 else left[0].size;
    assert left + [b] + right == left + ([b] + right);
    FreeAddrsConcat(a, left, [b] + right);
    OneFree(a, left);
    OneFree(x + b.size, right);
    assert ([b] + right)[1..] == right;
    assert FreeAddrs(x, [b] + right) == FreeAddrs(x + b.size, right);
  }

  lemma {:induction false} OneFree(a: int, bs: seq<Block>)
    requires bs == [] || (|bs| == 1 && bs[0].free)
    ensures FreeAddrs(a, bs) == OptAddr(bs != [], a) && Total(bs) == if bs == [] then 0 else bs[0].size
  {
    if bs != [] {
      assert bs[1..] == [];
      assert FreeAddrs(a, bs) == [a] + FreeAddrs(a + bs[0].size, []);
      assert Total(bs) == bs[0].size + Total([]);
    }
  }

  lemma {:induction false} OpenFreeing(m: Mem, p: int, end: int, bs: seq<Block>, i: nat)
    requires Good(m, p, end, bs) && i < |bs| && !bs[i].free
    ensures var lo, hi := FreeLeft(bs, i), FreeRight(bs, i);
            var l, s, r := LeftSize(bs, i), bs[i].size, RightSize(bs, i);
            && Freeing(m, p, end, bs[..lo], l, s, r, bs[hi..]) && !LastFree(bs[..lo], false)
            && Addr(bs, i) == HEAP_START + Total(bs[..lo]) + l
            && Release(bs, i) == bs[..lo] + [Block(l + s + r, true)] + bs[hi..]
  {
    hide Tags, Row, Chain, Mapped, Ascending, Pointers, FreeAddrs, Around, Total;
    var lo, hi := FreeLeft(bs, i), FreeRight(bs, i);
    StretchAt(bs, i);
    StretchAround(m, bs, i);
    StretchFree(bs, i);
    RowPointers(bs, end);
    StretchEnds(bs, i);
    if lo < i { WordsAt(m, bs, i - 1); }
    WordsAt(m, bs, i);
    if hi > i + 1 { WordsAt(m, bs, i + 1); }
    if hi < |bs| { WordsAt(m, bs, hi); }
  }

  // ---------------------------------------------------------------- growth

  /** m' has the words of m below end, and is mapped up to end'. */
  ghost predicate Grown(m: Mem, m': Mem, end: int, end': int) {
    && end <= end' && Mapped(m', end')
    && forall x :: x in m && x < end ==> x in m' && m'[x] == m[x]
  }

  lemma {:induction false} GrownTags(m: Mem, m': Mem, p: int, end: int, end': int, bs: seq<Block>)
    requires Good(m, p, end, bs) && Grown(m, m', end, end')
    ensures Tags(m', HEAP_START, bs, false) && ListIs(m', p, FreeAddrs(HEAP_START, bs))
  {
    hide Tags, Chain, Row;
    TagsFrame(m, m', HEAP_START, bs, false);
    FreeAddrsBounds(HEAP_START, bs, false);
    ChainFrame(m, m', p, FreeAddrs(HEAP_START, bs));
    RowPointers(bs, end);
  }

  /** The state of growth: a run of free bytes from a to end' is to follow the row xs. */
  ghost predicate Appending(m: Mem, p: int, xs: seq<Block>, a: int, end': int) {
    && a == HEAP_START + Total(xs) && a % 4 == 0 && a + MIN_BLOCK <= end' && !LastFree(xs, false)
    && Around(m, m, xs, [], true, a, end') && ListIs(m, p, FreeAddrs(HEAP_START, xs))
  }

  lemma {:induction false} EmptyTags(m: Mem, a: int)
    ensures Tags(m, a, [], true)
  {
  }

  /** Rewriting links of a row that a free run follows touches only what the allocator owns. */
  lemma {:induction false} LinksOwned(m: Mem, m': Mem, xs: seq<Block>, t: nat)
    requires WellFormed(xs) && t >= MIN_BLOCK && m'.Keys == m.Keys
    requires var a := HEAP_START + Total(xs);
             && (forall x :: x in m && x < a ==> m'[x] == m[x] || x - 4 in FreeAddrs(HEAP_START, xs))
    ensures WritesOwned(m, m', HEAP_START + Total(xs) + t, xs + [Block(t, true)])
  {
    hide Row, FreeAddrs;
    var a, mid := HEAP_START + Total(xs), [Block(t, true)];
    forall x | x in m && HEAP_START <= x < a + t && m'[x] != m[x] ensures Owned(HEAP_START, xs + mid, x) {
      OwnedConcat(HEAP_START, xs, mid, x);
      if x < a { LinkOwned(HEAP_START, xs, false, x - 4); }
    }
  }

  lemma {:induction false} EmptyRow()
    ensures Total([]) == 0 && Row([], true)
  {
  }

  /** A taken last block: the new run starts at the old end. */
  lemma {:induction false} AppendAfter(m: Mem, p: int, bs: seq<Block>, end': int)
    requires WellFormed(bs) && !LastFree(bs, false) && HEAP_START + Total(bs) + MIN_BLOCK <= end'
    requires Tags(m, HEAP_START, bs, false) && ListIs(m, p, FreeAddrs(HEAP_START, bs))
    ensures Appending(m, p, bs, HEAP_START + Total(bs), end')
  {
    hide FreeAddrs, Total, ListIs;
    RowTotal(bs, false);
  }

  /** A free last block: the new run starts with it. */
  lemma {:induction false} AppendWithin(m: Mem, bs: seq<Block>, end': int)
    requires WellFormed(bs) && LastFree(bs, false) && HEAP_START + Total(bs) <= end' && Tags(m, HEAP_START, bs, false)
    ensures var k := |bs| - 1;
            && Around(m, m, bs[..k], [], true, Addr(bs, k), end')
            && FreeAddrs(HEAP_START, bs) == FreeAddrs(HEAP_START, bs[..k]) + [Addr(bs, k)]
            && !LastFree(bs[..k], false) && Addr(bs, k) + bs[k].size == HEAP_START + Total(bs)
  {
    hide Total;
    var k := |bs| - 1;
    AddrAt(bs, k);
    RowSplit(bs, k, false);
    Slices(bs, k, k);
    assert bs[k..] == [bs[k]] && bs[..k + 1] == bs;
    TagsConcat(m, HEAP_START, bs[..k], bs[k..], false);
    FreeAddrsConcat(HEAP_START, bs[..k], bs[k..]);
    OneFree(Addr(bs, k), [bs[k]]);
    assert FreeAddrs(Addr(bs, k) + bs[k].size, []) == [];
  }

  lemma {:induction false} GrownMapped(m: Mem, m': Mem, end: int, end': int)
    requires Grown(m, m', end, end')
    ensures Mapped(m', end')
  {
  }

  lemma {:induction false} GrownLess(m: Mem, m': Mem, end: int, end': int)
    requires Grown(m, m', end, end')
    ensures Grown(m, m', end, end)
  {
  }

  lemma {:induction false} GrownMore(m: Mem, m1: Mem, m2: Mem, end: int, from: int)
    requires Grown(m, m1, end, from)
    requires (forall x :: x in m1 && x < from ==> x in m2 && m2[x] == m1[x]) && m1.Keys <= m2.Keys
    requires forall x :: from <= x < from + PAGE_SIZE && x % 4 == 0 ==> WordAt(m2, x)
    ensures Grown(m, m2, end, from + PAGE_SIZE)
  {
    forall x | HEAP_START <= x < from + PAGE_SIZE && x % 4 == 0 ensures WordAt(m2, x) {
      if x < from { assert WordAt(m1, x); }
    }
  }

  lemma {:induction false} GoodEnd(m: Mem, p: int, end: int, bs: seq<Block>)
    requires Good(m, p, end, bs)
    ensures bs != [] && WellFormed(bs) && end == HEAP_START + Total(bs) < BRK_LIMIT && end % 4 == 0 && Mapped(m, end)
  {
    RowTotal(bs, false);
  }

  /** The word before the end of a heap is the size of its last block. */
  lemma {:induction false} FooterPositive(m: Mem, p: int, end: int, bs: seq<Block>)
    ensures Good(m, p, end, bs) ==> end - 4 in m && m[end - 4] >= MIN_BLOCK
  {
    hide Chain, Tags, Mapped, Total;
    if Good(m, p, end, bs) {
      WordsAt(m, bs, |bs| - 1);
      LastAddr(bs);
      AddrAt(bs, |bs| - 1);
      RowSplit(bs, |bs| - 1, false);
    }
  }

  /** The last block's words, and the free list, which stays clear of them. */
  lemma {:induction false} LastWords(m: Mem, p: int, end: int, bs: seq<Block>)
    requires Good(m, p, end, bs) && !LastFree(bs, false)
    ensures var fl, k := FreeAddrs(HEAP_START, bs), |bs| - 1;
            && k >= 0 && HEAP_START < end < BRK_LIMIT && end - 4 in m && m[end - 4] == bs[k].size
            && MIN_BLOCK <= bs[k].size < WRAP && bs[k].size % 4 == 0 && end - bs[k].size in m
            && m[end - bs[k].size] == Header(bs[k].size, false, LastFree(bs[..k], false)) && !bs[k].free
            && Chain(m, p, fl) && Ascending(fl) && Pointers(fl) && (forall f <- fl :: f + MIN_BLOCK <= end)
  {
    hide Chain, Tags, Mapped, Total, FreeAddrs, Header;
    var k := |bs| - 1;
    WordsAt(m, bs, k);
    LastAddr(bs);
    RowSplit(bs, k, false);
    RowPointers(bs, end);
    FreeAddrsBounds(HEAP_START, bs, false);
    GoodEnd(m, p, end, bs);
    AddrAt(bs, k);
  }

  lemma {:induction false} GoodTags(m: Mem, p: int, end: int, bs: seq<Block>)
    requires Good(m, p, end, bs)
    ensures Tags(m, HEAP_START, bs, false)
  {
  }

  lemma {:induction false} LastAddr(bs: seq<Block>)
    requires bs != []
    ensures Addr(bs, |bs|) == HEAP_START + Total(bs)
  {
    assert bs[..|bs|] == bs;
  }

  lemma {:induction false} GrownGood(m: Mem, m': Mem, p: int, end: int, bs: seq<Block>)
    requires Good(m, p, end, bs) && Grown(m, m', end, end)
    ensures Good(m', p, end, bs)
  {
    GrownTags(m, m', p, end, end, bs);
  }

  // ---------------------------------------------------------------- what clients keep

  /** x is a payload word of some live block. */
  ghost predicate IsPayload(bs: seq<Block>, x: int) {
    exists y :: PayloadOf(bs, y, x)
  }

  /** Every live payload word of bs has the contents it had. */
  ghost predicate KeepsPayloads(m: Mem, m': Mem, bs: seq<Block>) {
    forall x :: x in m && IsPayload(bs, x) ==> x in m' && m'[x] == m[x]
  }

  lemma {:induction false} PayloadInside(bs: seq<Block>, x: int)
    requires WellFormed(bs) && IsPayload(bs, x)
    ensures HEAP_START <= x < HEAP_START + Total(bs) && !Owned(HEAP_START, bs, x)
  {
    var y :| PayloadOf(bs, y, x);
    LiveInside(HEAP_START, bs, false, y);
    PayloadNotOwned(HEAP_START, bs, false, y, x);
  }

  /** Writing only owned words keeps every payload. */
  lemma {:induction false} OwnedKeeps(m: Mem, m': Mem, end: int, bs: seq<Block>)
    requires WellFormed(bs) && end == HEAP_START + Total(bs) && WritesOwned(m, m', end, bs)
    ensures KeepsPayloads(m, m', bs)
  {
    forall x | x in m && IsPayload(bs, x) ensures x in m' && m'[x] == m[x] {
      PayloadInside(bs, x);
    }
  }

  lemma {:induction false} GrownKeeps(m: Mem, m': Mem, p: int, end: int, end': int, bs: seq<Block>)
    requires Good(m, p, end, bs) && Grown(m, m', end, end')
    ensures KeepsPayloads(m, m', bs)
  {
    forall x | x in m && IsPayload(bs, x) ensures x in m' && m'[x] == m[x] {
      PayloadInside(bs, x);
    }
  }

  lemma {:induction false} KeepsSame(m: Mem, bs: seq<Block>)
    ensures KeepsPayloads(m, m, bs)
  {
  }

  lemma {:induction false} KeepsTrans(m: Mem, m': Mem, m'': Mem, bs: seq<Block>)
    requires KeepsPayloads(m, m', bs) && KeepsPayloads(m', m'', bs)
    ensures KeepsPayloads(m, m'', bs)
  {
  }

  /** A row with at least the live blocks of another has at least its payloads. */
  lemma {:induction false} KeepsFewer(m: Mem, m': Mem, bs: seq<Block>, bs': seq<Block>)
    requires KeepsPayloads(m, m', bs')
    requires forall y :: y in Live(HEAP_START, bs) ==> y in Live(HEAP_START, bs') && Live(HEAP_START, bs')[y] == Live(HEAP_START, bs)[y]
    ensures KeepsPayloads(m, m', bs)
  {
    forall x | x in m && IsPayload(bs, x) ensures x in m' && m'[x] == m[x] {
      var y :| PayloadOf(bs, y, x);
      assert PayloadOf(bs', y, x);
    }
  }

  lemma {:induction false} InitGood(m0: Mem, m: Mem)
    requires var end, size := HEAP_START + HEAP_INIT_PAGES * PAGE_SIZE, HEAP_INIT_PAGES * PAGE_SIZE;
             && (forall x :: x in m0 <==> HEAP_START <= x < end && x % 4 == 0)
             && m == m0[HEAP_START := size + 1][HEAP_START + 4 := 0][end - 4 := size]
    ensures Good(m, HEAP_START, HEAP_START + HEAP_INIT_PAGES * PAGE_SIZE, [Block(HEAP_INIT_PAGES * PAGE_SIZE, true)])
  {
    var end, size := HEAP_START + HEAP_INIT_PAGES * PAGE_SIZE, HEAP_INIT_PAGES * PAGE_SIZE;
    EmptyRow();
    assert m.Keys == m0.Keys;
    assert FreeAddrs(HEAP_START, []) == [] && FreeAddrs(end, []) == [];
    assert [] + [HEAP_START] + [] == [HEAP_START];
    assert Chain(m, HEAP_START, [HEAP_START]);
    FreedGood(m0, m, HEAP_START, end, [], size, [], true);
    assert [] + [Block(size, true)] + [] == [Block(size, true)];
  }

  /** The row kmalloc takes from: grown when nothing fits. */
  function WithRoom(bs: seq<Block>, n: Word): seq<Block> {
    if FindFit(bs, n) < |bs| then bs else Extend(bs, PagesFor(n) * PAGE_SIZE)
  }

  /**
   The needs that growth survives: those whose page count does not wrap, and any other if the last block is
   free, because then growing by no page rewrites that block as it was (GrowNothing has the rest).
   */
  predicate CanGrow(bs: seq<Block>, n: Word) {
    n <= WRAP - PAGE_SIZE || LastFree(bs, false)
  }

  /** The heap's end moves by the fewest whole pages that hold n bytes. */
  predicate GrewBy(end: int, end': int, n: nat) {
    n <= end' - end && (end' - end) % PAGE_SIZE == 0 && (if n == 0 then end' == end else end' - end < n + PAGE_SIZE)
  }

  lemma {:induction false} GrewPages(bs: seq<Block>, need: Word, end: int)
    requires WellFormed(bs) && bs != [] && 0 < need && CanGrow(bs, need)
    ensures GrewBy(end, end + Total(Extend(bs, PagesFor(need) * PAGE_SIZE)) - Total(bs), if need <= WRAP - PAGE_SIZE then need else 0)
  {
    hide Row, Total, Extend;
    WrappedPages(need);
    if need <= WRAP - PAGE_SIZE {
      PagesTight(need, 0);
      WholePages(PagesFor(need), 0);
      ExtendWellFormed(bs, PagesFor(need) * PAGE_SIZE);
    } else {
      ExtendByNothing(bs);
    }
  }

  lemma {:induction false} WholePages(pages: nat, size: nat)
    requires size % 4 == 0
    ensures pages * PAGE_SIZE % 4 == 0 && (size + pages * PAGE_SIZE) % 4 == 0
  {
    var q := size / 4;
    assert size == 4 * q;
    assert size + pages * PAGE_SIZE == 4 * (q + pages * 1024);
    Fours(q + pages * 1024);
    Fours(pages * 1024);
  }

  lemma {:induction false} Fours(k: nat)
    ensures 4 * k % 4 == 0
  {
  }

  /** A page count that wraps is zero. */
  lemma {:induction false} WrappedPages(n: Word)
    ensures n > WRAP - PAGE_SIZE ==> PagesFor(n) == 0
    ensures PagesFor(n) * PAGE_SIZE % 4 == 0
  {
    WholePages(PagesFor(n), 0);
    if n > WRAP - PAGE_SIZE { assert (n + (PAGE_SIZE - 1)) % WRAP == n + (PAGE_SIZE - 1) - WRAP; }
  }

  lemma {:induction false} ExtendByNothing(bs: seq<Block>)
    requires LastFree(bs, false)
    ensures Extend(bs, 0) == bs
  {
  }

  /** The second search finds a block unless the page count wrapped, and then the row is as it was. */
  lemma {:induction false} Regrown(bs: seq<Block>, n: Word)
    requires n > 0 && CanGrow(bs, n) && FindFit(bs, n) == |bs|
    ensures var g := Extend(bs, PagesFor(n) * PAGE_SIZE);
            if n <= WRAP - PAGE_SIZE then FindFit(g, n) < |g| else g == bs
  {
    hide Extend, FindFit, PagesFor;
    WrappedPages(n);
    PagesCover(n);
    if n <= WRAP - PAGE_SIZE {
      ExtendFits(bs, n, PagesFor(n) * PAGE_SIZE);
    } else {
      ExtendByNothing(bs);
    }
  }

  lemma {:induction false} WithRoomLive(bs: seq<Block>, n: Word)
    requires WellFormed(bs) && n >= MIN_BLOCK && (FindFit(bs, n) < |bs| || n <= WRAP - PAGE_SIZE)
    ensures var g := WithRoom(bs, n);
            WellFormed(g) && Live(HEAP_START, g) == Live(HEAP_START, bs) && FindFit(g, n) < |g|
  {
    hide Row, Live, Extend, FindFit, PagesFor;
    if FindFit(bs, n) >= |bs| {
      PagesCover(n);
      var bytes := PagesFor(n) * PAGE_SIZE;
      assert bytes % 4 == 0;
      ExtendWellFormed(bs, bytes);
      ExtendLive(bs, bytes);
      ExtendFits(bs, n, bytes);
    }
  }

  /**
   What a successful kmalloc hands out: a fresh aligned block, apart from every other live block, of at
   most 12 bytes more than the rounded request; and its payload holds the request unless the rounding wrapped.
   */
  lemma {:induction false} AllocMeans(bs: seq<Block>, size: Word, ptr: int)
    requires WellFormed(bs) && (FindFit(bs, BlockBytes(size)) < |bs| || BlockBytes(size) <= WRAP - PAGE_SIZE)
    requires var g := WithRoom(bs, BlockBytes(size));
             FindFit(g, BlockBytes(size)) < |g| && ptr == Addr(g, FindFit(g, BlockBytes(size))) + 4
    ensures var n := BlockBytes(size);
            var g := WithRoom(bs, n);
            var live, live' := Live(HEAP_START, bs), Live(HEAP_START, Take(g, FindFit(g, n), n));
            && ptr % 4 == 0 && ptr - 4 !in live
            && live'.Keys == live.Keys + {ptr - 4} && (forall y <- live :: live'[y] == live[y])
            && n <= live'[ptr - 4] <= n + 12
            && (live'[ptr - 4] - 8 >= size <==> size <= WRAP - 12)
            && (forall y <- live :: y + live[y] <= ptr - 4 || ptr - 4 + live'[ptr - 4] <= y)
  {
    hide Row, Live, Extend, FindFit, And, Total;
    var n := BlockBytes(size);
    BlockBytesRoom(size);
    WithRoomLive(bs, n);
    var g := WithRoom(bs, n);
    var i := FindFit(g, n);
    AddrAt(g, i);
    TakeLive(g, i, n);
    TakeIsTight(g, i, n);
    TakeWellFormed(g, i, n);
    var t, live := Take(g, i, n), Live(HEAP_START, bs);
    forall y <- live ensures y + live[y] <= ptr - 4 || ptr - 4 + Live(HEAP_START, t)[ptr - 4] <= y {
      if y < ptr - 4 {
        LiveDisjoint(HEAP_START, t, false, y, ptr - 4);
      } else {
        LiveDisjoint(HEAP_START, t, false, ptr - 4, y);
      }
    }
  }

  /** Stores into payloads do not disturb the allocator. */
  lemma {:induction false} StoreGood(m: Mem, p: int, end: int, bs: seq<Block>, addr: int, value: Word)
    requires Good(m, p, end, bs) && IsPayload(bs, addr)
    ensures Good(m[addr := value], p, end, bs)
  {
    hide Row, Total, FreeAddrs, IsPayload, Tags, Live, Owned;
    var m' := m[addr := value];
    PayloadInside(bs, addr);
    forall x | x in m && IsTag(HEAP_START, bs, x) ensures x in m' && m'[x] == m[x] {
      TagOwned(HEAP_START, bs, false, x);
    }
    TagsSame(m, m', HEAP_START, bs, false);
    forall f <- FreeAddrs(HEAP_START, bs) ensures f + 4 != addr {
      LinkOwned(HEAP_START, bs, false, f);
    }
    ChainFrame(m, m', p, FreeAddrs(HEAP_START, bs));
    forall x | HEAP_START <= x < end && x % 4 == 0 ensures WordAt(m', x) {
      assert WordAt(m, x);
    }
  }

  /** Every element of the list is a non-null pointer. */
  ghost predicate Pointers(fl: seq<int>) {
    forall k :: 0 <= k < |fl| ==> 0 < fl[k] < WRAP
  }

  class Heap {
    var mem: Mem
    var freeList: int
    var heapBrk: int
    var heapEnd: int
    ghost var blocks: seq<Block>

    ghost predicate Valid()
      reads this
    {
      heapBrk == heapEnd && Good(mem, freeList, heapEnd, blocks)
    }

    /** block_size, of a block whose header is known. */
    method BlockSize(b: int, ghost s: nat, ghost f: bool, ghost pf: bool) returns (n: Word)
      requires b in mem && s % 4 == 0 && s < WRAP && mem[b] == Header(s, f, pf)
      ensures n == s
    {
      HeaderBits(s, f, pf);
      n := And(mem[b], SIZE_MASK);
    }

    /** block_is_free, of a block whose header is known. */
    method BlockIsFree(b: int, ghost s: nat, ghost f: bool, ghost pf: bool) returns (free: bool)
      requires b in mem && s % 4 == 0 && s < WRAP && mem[b] == Header(s, f, pf)
      ensures free == f
    {
      HeaderBits(s, f, pf);
      free := And(mem[b], FLAG_FREE) != 0;
    }

    /** The test of BLOCK_FLAG_PREV_FREE in kfree. */
    method PrevIsFree(b: int, ghost s: nat, ghost f: bool, ghost pf: bool) returns (free: bool)
      requires b in mem && s % 4 == 0 && s < WRAP && mem[b] == Header(s, f, pf)
      ensures free == pf
    {
      HeaderBits(s, f, pf);
      free := And(mem[b], FLAG_PREV_FREE) != 0;
    }

    predicate InHeap(b: int)
      reads this
    {
      b >= HEAP_START && b + 4 <= heapEnd
    }

    /** insert_free: put the block into the list where its address belongs. */
    method InsertFree(block: int, ghost fl: seq<int>)
      requires Ascending(fl) && Chain(mem, freeList, fl) && block !in fl
      requires Pointers(fl) && 0 < block < WRAP && block + 4 in mem
      modifies this`mem, this`freeList
      ensures Chain(mem, freeList, Insert(fl, block))
      ensures LinksOnly(old(mem), mem, fl, block + 4)
    {
      var prev, curr := 0, freeList;
      ghost var k := 0;
      while curr != 0 && curr < block
        invariant k <= |fl| && curr == At(fl, k) && prev == (if k == 0 then 0 else fl[k - 1])
        invariant forall j :: 0 <= j < k ==> fl[j] < block
        decreases |fl| - k
      {
        assert Link(mem, fl, k);
        prev := curr;
        curr := mem[curr + 4];
        k := k + 1;
      }
      assert k > 0 ==> Link(mem, fl, k - 1);
      InsertAt(fl, k, block);
      mem := mem[block + 4 := curr];
      if prev != 0 {
        mem := mem[prev + 4 := block];
      } else {
        freeList := block;
      }
      ChainInsert(old(mem), old(freeList), fl, k, block, mem);
    }

    /** remove_free: take the block out of the list, if it is there. */
    method RemoveFree(block: int, ghost fl: seq<int>)
      requires Ascending(fl) && Chain(mem, freeList, fl) && Pointers(fl)
      modifies this`mem, this`freeList
      ensures Chain(mem, freeList, Without(fl, block))
      ensures LinksOnly(old(mem), mem, fl, block + 4)
    {
      var prev, curr := 0, freeList;
      ghost var k := 0;
      while curr != 0
        invariant k <= |fl| && curr == At(fl, k) && prev == (if k == 0 then 0 else fl[k - 1])
        invariant block !in fl[..k] && Chain(mem, freeList, fl) && mem == old(mem) && freeList == old(freeList)
        decreases |fl| - k
      {
        assert Link(mem, fl, k);
        if curr == block {
          assert k > 0 ==> Link(mem, fl, k - 1);
          if prev != 0 {
            mem := mem[prev + 4 := mem[curr + 4]];
          } else {
            freeList := mem[curr + 4];
          }
          WithoutAt(fl, k);
          ChainRemove(old(mem), old(freeList), fl, k, mem);
          return;
        }
        prev := curr;
        curr := mem[curr + 4];
        k := k + 1;
      }
      WithoutAbsent(fl, block);
    }

    /** The walk of the free list in kmalloc: the first free block of at least n bytes. */
    method FirstFit(n: nat) returns (fb: int, ghost i: nat)
      requires Valid()
      ensures i == FindFit(blocks, n)
      ensures fb == if i < |blocks| then Addr(blocks, i) else 0
    {
      fb, i := freeList, 0;
      ghost var fl := FreeAddrs(HEAP_START, blocks);
      while fb != 0
        invariant i <= |blocks|
        invariant forall j :: 0 <= j < i ==> !Fits(blocks[j], n)
        invariant Chain(mem, fb, FreeAddrs(Addr(blocks, i), blocks[i..]))
        decreases |blocks| - i
      {
        i := NextFree(mem, fb, blocks, i);
        WordsAt(mem, blocks, i);
        AddrAt(blocks, i);
        var size := BlockSize(fb, blocks[i].size, true, LastFree(blocks[..i], false));
        if size >= n {
          FindFitIs(blocks, n, i);
          return;
        }
        fb := mem[fb + 4];
        i := i + 1;
      }
      NoFreeLeft(mem, blocks, n, i);
      i := |blocks|;
    }

    /** Write the tags of the free block that a split leaves over. */
    method SplitTags(split: int, remaining: Word)
      requires remaining >= MIN_BLOCK && remaining % 4 == 0 && split in mem && split + remaining - 4 in mem
      requires var after := split + remaining;
               InHeap(after) ==> after in mem && mem[after] == Or(mem[after], FLAG_PREV_FREE)
      modifies this`mem
      ensures mem.Keys == old(mem).Keys
      ensures mem == old(mem)[split := Header(remaining, true, false)][split + remaining - 4 := remaining]
    {
      HeaderCompose(remaining, 0, true, false);
      mem := mem[split := Or(remaining, FLAG_FREE)];
      var size := BlockSize(split, remaining, true, false);
      var after := split + size;
      if InHeap(after) {
        mem := mem[after := Or(mem[after], FLAG_PREV_FREE)];
      }
      mem := mem[split + remaining - 4 := remaining];
    }

    /** The splitting branch of kmalloc: the tail of block fb becomes a free block of its own. */
    method SplitBlock(fb: int, n: Word, remaining: Word, ghost fl: seq<int>)
      requires n >= MIN_BLOCK && n % 4 == 0 && remaining >= MIN_BLOCK && remaining % 4 == 0
      requires fb in mem && fb >= HEAP_START && fb + n + remaining <= heapEnd <= WRAP
      requires mem[fb] == Header(n + remaining, true, false)
      requires var after := fb + n + remaining;
               InHeap(after) ==> after in mem && mem[after] == Or(mem[after], FLAG_PREV_FREE)
      requires fb + n in mem && fb + n + 4 in mem && fb + n + remaining - 4 in mem
      requires Ascending(fl) && Pointers(fl) && Chain(mem, freeList, fl)
      requires forall f <- fl :: f + MIN_BLOCK <= fb || fb + n + remaining <= f
      modifies this`mem, this`freeList
      ensures Chain(mem, freeList, Insert(fl, fb + n))
      ensures mem.Keys == old(mem.Keys)
      ensures mem[fb] == Header(n, false, false) && mem[fb + n] == Header(remaining, true, false)
      ensures mem[fb + n + remaining - 4] == remaining
      ensures forall x :: x in mem && (x < fb || fb + n + remaining <= x) ==> mem[x] == old(mem)[x] || x - 4 in fl
    {
      hide And, Or, Insert, Link;
      var split := fb + n;
      HeaderCompose(n, n + remaining, true, false);
      SplitTags(split, remaining);
      ChainFrame(old(mem), mem, freeList, fl);
      InsertFree(split, fl);
      ghost var m2 := mem;
      assert m2[fb] == old(mem)[fb];
      mem := mem[fb := Or(n, And(mem[fb], FLAG_PREV_FREE))];
      InsertMembers(fl, split);
      ChainFrame(m2, mem, freeList, Insert(fl, split));
    }

    /** The last lines of kmalloc: mark the block taken, and tell its successor. */
    method MarkTaken(block: int, ghost s: nat, ghost f: bool, ghost ns: nat, ghost nf: bool, ghost npf: bool)
      requires block in mem && s >= MIN_BLOCK && s % 4 == 0 && block + s - 4 in mem && s < WRAP
      requires mem[block] == Header(s, f, false)
      requires InHeap(block + s) ==> ns % 4 == 0 && ns < WRAP && block + s in mem && mem[block + s] == Header(ns, nf, npf)
      modifies this`mem
      ensures mem.Keys == old(mem.Keys)
      ensures mem[block] == Header(s, false, false) && mem[block + s - 4] == s
      ensures InHeap(block + s) ==> mem[block + s] == Header(ns, nf, false)
      ensures forall x :: x in mem && x != block && x != block + s - 4 && x != block + s ==> mem[x] == old(mem)[x]
    {
      hide And, Or;
      HeaderBits(s, f, false);
      if ns % 4 == 0 && ns < WRAP { HeaderBits(ns, nf, npf); }
      mem := mem[block := And(mem[block], NOT_FREE)];
      var size := BlockSize(block, s, false, false);
      mem := mem[block + size - 4 := size];
      var next := block + size;
      if InHeap(next) {
        mem := mem[next := And(mem[next], NOT_PREV_FREE)];
      }
    }

    /** The block between xs and ys, just unlinked, is split. */
    method CarveSplit(fb: int, n: Word, remaining: Word, ghost xs: seq<Block>, ghost ys: seq<Block>, ghost m0: Mem)
      requires n >= MIN_BLOCK && n % 4 == 0 && remaining >= MIN_BLOCK && remaining % 4 == 0
      requires fb in mem && mem[fb] == Header(n + remaining, true, false)
      requires var hi := fb + n + remaining;
               && Around(m0, mem, xs, ys, true, fb, hi) && hi + Total(ys) == heapEnd <= WRAP
               && (ys != [] ==> hi in mem && mem[hi] == Header(ys[0].size, ys[0].free, true))
      requires fb + n in mem && fb + n + 4 in mem && fb + n - 4 in mem && fb + n + remaining - 4 in mem
      requires var fl := FreeAddrs(HEAP_START, xs) + FreeAddrs(fb + n + remaining, ys);
               Ascending(fl) && Pointers(fl) && Chain(mem, freeList, fl)
      modifies this`mem, this`freeList
      ensures Around(m0, mem, xs, ys, true, fb, fb + n + remaining)
      ensures mem[fb] == Header(n, false, false) && mem[fb + n] == Header(remaining, true, false)
      ensures mem[fb + n + remaining - 4] == remaining
      ensures var hi := fb + n + remaining; ys != [] ==> hi in mem && mem[hi] == Header(ys[0].size, ys[0].free, true)
      ensures Chain(mem, freeList, FreeAddrs(HEAP_START, xs) + [fb + n] + FreeAddrs(fb + n + remaining, ys))
      ensures mem.Keys == old(mem.Keys)
    {
      hide FreeAddrs, Insert, Around, And, Or, Chain, Ascending, Pointers, Header, Total;
      ghost var hi := fb + n + remaining;
      ghost var fx, fy := FreeAddrs(HEAP_START, xs), FreeAddrs(hi, ys);
      SplitPlace(m0, mem, xs, ys, fb, n, remaining, heapEnd);
      ghost var m1 := mem;
      SplitBlock(fb, n, remaining, fx + fy);
      AroundStep(m0, m1, mem, xs, ys, true, fb, hi);
    }

    /** MarkTaken after a split. */
    method TakenSplit(fb: int, n: Word, remaining: Word, ghost xs: seq<Block>, ghost ys: seq<Block>, ghost m0: Mem)
      requires n >= MIN_BLOCK && n % 4 == 0 && remaining >= MIN_BLOCK && remaining % 4 == 0
      requires fb in mem && fb + n in mem && fb + n - 4 in mem && fb + n + remaining - 4 in mem
      requires mem[fb] == Header(n, false, false) && mem[fb + n] == Header(remaining, true, false)
      requires mem[fb + n + remaining - 4] == remaining
      requires var hi := fb + n + remaining;
               && Around(m0, mem, xs, ys, true, fb, hi) && hi + Total(ys) == heapEnd <= WRAP
               && (ys != [] ==> hi in mem && mem[hi] == Header(ys[0].size, ys[0].free, true))
      requires Chain(mem, freeList, FreeAddrs(HEAP_START, xs) + [fb + n] + FreeAddrs(fb + n + remaining, ys))
      modifies this`mem
      ensures Around(m0, mem, xs, ys, true, fb, fb + n + remaining)
      ensures Tags(mem, fb, [Block(n, false), Block(remaining, true)], false)
      ensures var hi := fb + n + remaining; ys != [] ==> hi in mem && mem[hi] == Header(ys[0].size, ys[0].free, true)
      ensures Chain(mem, freeList, FreeAddrs(HEAP_START, xs) + [fb + n] + FreeAddrs(fb + n + remaining, ys))
      ensures mem.Keys == old(mem.Keys)
    {
      ghost var hi, m1 := fb + n + remaining, mem;
      ghost var fx, fy := FreeAddrs(HEAP_START, xs), FreeAddrs(hi, ys);
      AroundApart(m0, mem, xs, ys, true, fb, hi);
      MarkTaken(fb, n, false, remaining, true, false);
      AroundStep(m0, m1, mem, xs, ys, true, fb, hi);
      ChainFrame(m1, mem, freeList, fx + [fb + n] + fy);
      assert [Block(n, false), Block(remaining, true)][1..] == [Block(remaining, true)];
    }

    /** MarkTaken of a block handed out whole. */
    method TakenWhole(fb: int, ghost size: nat, ghost xs: seq<Block>, ghost ys: seq<Block>, ghost m0: Mem)
      requires size >= MIN_BLOCK && size % 4 == 0 && size < WRAP
      requires fb in mem && fb + size - 4 in mem && mem[fb] == Header(size, true, false)
      requires var hi := fb + size;
               && Around(m0, mem, xs, ys, true, fb, hi) && hi + Total(ys) == heapEnd <= WRAP
               && (ys != [] ==> hi in mem && mem[hi] == Header(ys[0].size, ys[0].free, true))
      requires Chain(mem, freeList, FreeAddrs(HEAP_START, xs) + FreeAddrs(fb + size, ys))
      modifies this`mem
      ensures Around(m0, mem, xs, ys, true, fb, fb + size)
      ensures Tags(mem, fb, [Block(size, false)], false)
      ensures var hi := fb + size; ys != [] ==> hi in mem && mem[hi] == Header(ys[0].size, ys[0].free, false)
      ensures Chain(mem, freeList, FreeAddrs(HEAP_START, xs) + FreeAddrs(fb + size, ys))
      ensures mem.Keys == old(mem.Keys)
    {
      ghost var hi, m1 := fb + size, mem;
      ghost var fx, fy := FreeAddrs(HEAP_START, xs), FreeAddrs(hi, ys);
      AroundApart(m0, mem, xs, ys, true, fb, hi);
      MarkTaken(fb, size, true, if ys == [] then 0 else ys[0].size, ys != [] && ys[0].free, true);
      AroundStep(m0, m1, mem, xs, ys, true, fb, hi);
      ChainFrame(m1, mem, freeList, fx + fy);
    }

    /** The end of kmalloc, on the row taken apart around the block handed out. */
    method CarveAt(fb: int, n: Word, ghost xs: seq<Block>, ghost b: Block, ghost ys: seq<Block>)
      requires Opened(mem, freeList, heapEnd, xs, b, ys) && fb == HEAP_START + Total(xs)
      requires n >= MIN_BLOCK && n % 4 == 0 && Fits(b, n)
      modifies this`mem, this`freeList
      ensures mem.Keys == old(mem.Keys)
      ensures Good(mem, freeList, heapEnd, xs + TakeMid(b, n) + ys)
      ensures WritesOwned(old(mem), mem, heapEnd, xs + [b] + ys)
    {
      hide Row, Tags, FreeAddrs, Chain, Total, Sides, Ascending, Pointers, And, Or, WritesOwned, LastFree;
      ghost var hi, m0 := fb + b.size, mem;
      ghost var fx, fy := FreeAddrs(HEAP_START, xs), FreeAddrs(hi, ys);
      RemoveFree(fb, fx + [fb] + fy);
      Unlinked(m0, mem, freeList, xs, ys, fb, hi);
      DropOne(fx, fb, fy);
      MappedSame(m0, mem, heapEnd);
      SplitMapped(mem, heapEnd, fb, n, b.size);
      var size := BlockSize(fb, b.size, true, false);
      var remaining := size - n;
      if remaining >= MIN_BLOCK {
        CarveSplit(fb, n, remaining, xs, ys, m0);
        TakenSplit(fb, n, remaining, xs, ys, m0);
      } else {
        TakenWhole(fb, b.size, xs, ys, m0);
      }
      MappedSame(m0, mem, heapEnd);
      CarvedFree(fx, fy, fb, b, n);
      CarvedGood(m0, mem, freeList, heapEnd, xs, b, ys, n);
    }

    /** Hand out n bytes of free block i. */
    method Carve(fb: int, n: Word, ghost i: nat)
      requires Valid() && n >= MIN_BLOCK && n % 4 == 0
      requires i < |blocks| && Fits(blocks[i], n) && fb == Addr(blocks, i)
      modifies this`mem, this`freeList, this`blocks
      ensures Valid() && blocks == Take(old(blocks), i, n)
      ensures mem.Keys == old(mem.Keys) && WritesOwned(old(mem), mem, heapEnd, old(blocks))
    {
      hide Good, Opened, TakeMid;
      OpenAt(mem, freeList, heapEnd, blocks, i);
      CarveAt(fb, n, blocks[..i], blocks[i], blocks[i + 1..]);
      blocks := Take(blocks, i, n);
    }

    /** Unlink a free block that lies in the stretch from lo to hi. */
    method Unlink(a: int, ghost fx: seq<int>, ghost fy: seq<int>, ghost xs: seq<Block>, ghost ys: seq<Block>,
                  ghost pf: bool, ghost lo: int, ghost hi: int, ghost m0: Mem)
      requires ListIs(mem, freeList, fx + [a] + fy) && lo <= a && a + MIN_BLOCK <= hi
      requires Around(m0, mem, xs, ys, pf, lo, hi)
      requires forall f <- fx + fy :: f in FreeAddrs(HEAP_START, xs) + FreeAddrs(hi, ys) || lo <= f <= hi - MIN_BLOCK
      modifies this`mem, this`freeList
      ensures ListIs(mem, freeList, fx + fy) && mem.Keys == old(mem.Keys)
      ensures Around(m0, mem, xs, ys, pf, lo, hi)
      ensures forall x :: x in mem && lo <= x <= hi && x - 4 !in fx + [a] + fy ==> mem[x] == old(mem)[x]
    {
      hide Chain, Pointers, Tags, Row;
      RemoveFree(a, fx + [a] + fy);
      DropOne(fx, a, fy);
      WithoutBetween(fx, fy, a);
      AroundApart(m0, old(mem), xs, ys, pf, lo, hi);
      AroundStep(m0, old(mem), mem, xs, ys, pf, lo, hi);
    }

    /** Unlink the free block `victim` and let the block `keep` have `size` bytes. */
    method Absorb(victim: int, keep: int, size: Word, ghost was: nat, ghost f: bool, ghost fx: seq<int>, ghost fy: seq<int>,
                  ghost xs: seq<Block>, ghost ys: seq<Block>, ghost pf: bool, ghost lo: int, ghost hi: int, ghost m0: Mem)
      requires ListIs(mem, freeList, fx + [victim] + fy) && lo <= victim && victim + MIN_BLOCK <= hi
      requires Around(m0, mem, xs, ys, pf, lo, hi)
      requires forall g <- fx + fy :: g in FreeAddrs(HEAP_START, xs) + FreeAddrs(hi, ys) || lo <= g <= hi - MIN_BLOCK
      requires keep in mem && lo <= keep < hi && keep - 4 !in fx + [victim] + fy && mem[keep] == Header(was, f, false)
      requires was % 4 == 0 && size % 4 == 0
      modifies this`mem, this`freeList
      ensures ListIs(mem, freeList, fx + fy) && mem.Keys == old(mem.Keys)
      ensures Around(m0, mem, xs, ys, pf, lo, hi)
      ensures mem[keep] == Header(size, true, false)
      ensures forall x :: x in mem && lo <= x <= hi && x - 4 !in fx + [victim] + fy && x != keep ==> mem[x] == old(mem)[x]
    {
      hide Chain, Pointers, Ascending, Tags, Row, Sides, And, Or, FreeAddrs, Total;
      Unlink(victim, fx, fy, xs, ys, pf, lo, hi, m0);
      ghost var m1 := mem;
      HeaderCompose(size, was, f, false);
      mem := mem[keep := Or(Or(size, FLAG_FREE), And(mem[keep], FLAG_PREV_FREE))];
      AroundStep(m0, m1, mem, xs, ys, pf, lo, hi);
      assert forall g <- fx + fy :: g in fx + [victim] + fy;
      ChainFrame(m1, mem, freeList, fx + fy);
    }

    /** First half of kfree's merging: join with a free predecessor. */
    method MergeLeft(block: int, ghost xs: seq<Block>, ghost l: nat, ghost s: nat, ghost r: nat, ghost ys: seq<Block>)
      returns (a: int)
      requires Freeing(mem, freeList, heapEnd, xs, l, s, r, ys) && block == HEAP_START + Total(xs) + l
      modifies this`mem, this`freeList
      ensures a == HEAP_START + Total(xs) && mem.Keys == old(mem.Keys)
      ensures Around(old(mem), mem, xs, ys, r > 0, a, a + l + s + r)
      ensures a in mem && mem[a] == Header(l + s, l > 0, false)
      ensures forall x :: x in mem && x in {a + l + s, a + l + s + r} ==> mem[x] == old(mem)[x]
      ensures ListIs(mem, freeList, FreeAddrs(HEAP_START, xs) + OptAddr(r > 0, a + l + s) + FreeAddrs(a + l + s + r, ys))
    {
      hide Chain, Pointers, Ascending, And, Or, FreeAddrs, Total, Around, ListIs, Freeing, OptAddr, Header;
      ghost var lo := HEAP_START + Total(xs);
      ghost var next, hi := lo + l + s, lo + l + s + r;
      ghost var fx, fy := FreeAddrs(HEAP_START, xs), FreeAddrs(hi, ys);
      ghost var rest := OptAddr(r > 0, next) + fy;
      MergePlace(mem, freeList, heapEnd, xs, l, s, r, ys);
      a := block;
      var pf := PrevIsFree(block, s, false, l > 0);
      if pf {
        var prevSize := mem[block - 4];
        var prev := block - prevSize;
        if InHeap(prev) && prev + prevSize == block {
          var size := BlockSize(block, s, false, true);
          Absorb(prev, prev, prevSize + size, l, true, fx, rest, xs, ys, r > 0, lo, hi, mem);
          a := prev;
        }
      }
    }

    /** Second half of kfree's merging: join the t bytes at a with a free successor of r bytes. */
    method MergeRight(a: int, ghost xs: seq<Block>, ghost t: nat, ghost f: bool, ghost r: nat, ghost ys: seq<Block>, ghost m0: Mem)
      requires SizeOk(t) && t > 0 && SizeOk(r) && a == HEAP_START + Total(xs)
      requires var hi := a + t + r;
               && Around(m0, mem, xs, ys, r > 0, a, hi) && hi + Total(ys) == heapEnd <= WRAP
               && a in mem && mem[a] == Header(t, f, false)
               && (r > 0 ==> a + t in mem && mem[a + t] == Header(r, true, false))
               && (ys != [] ==> hi in mem && mem[hi] == Header(ys[0].size, ys[0].free, r > 0) && !ys[0].free)
               && ListIs(mem, freeList, FreeAddrs(HEAP_START, xs) + OptAddr(r > 0, a + t) + FreeAddrs(hi, ys))
      modifies this`mem, this`freeList
      ensures mem.Keys == old(mem.Keys)
      ensures Around(m0, mem, xs, ys, r > 0, a, a + t + r)
      ensures a in mem && mem[a] == Header(t + r, f || r > 0, false)
      ensures a + t + r in mem ==> mem[a + t + r] == old(mem)[a + t + r]
      ensures ListIs(mem, freeList, FreeAddrs(HEAP_START, xs) + FreeAddrs(a + t + r, ys))
    {
      hide Chain, Pointers, Ascending, Tags, Sides, And, Or, FreeAddrs;
      ghost var hi := a + t + r;
      ghost var fx, fy := FreeAddrs(HEAP_START, xs), FreeAddrs(hi, ys);
      AroundApart(m0, mem, xs, ys, r > 0, a, hi);
      assert fx + OptAddr(r > 0, a + t) + fy == if r > 0 then fx + [a + t] + fy else fx + fy;
      var size := BlockSize(a, t, f, false);
      var next := a + size;
      if InHeap(next) {
        ghost var ns, nf := if r > 0 then r else ys[0].size, r > 0;
        var free := BlockIsFree(next, ns, nf, false);
        if free {
          var more := BlockSize(next, r, true, false);
          Absorb(next, a, size + more, t, f, fx, fy, xs, ys, r > 0, a, hi, m0);
        }
      }
    }

    /** kfree's tags: tell the successor, flag the t bytes at a free, write the footer, clear the link. */
    method FlagFreed(a: int, ghost t: nat, ghost f: bool, ghost ns: nat, ghost nf: bool, ghost npf: bool)
      requires t >= MIN_BLOCK && t % 4 == 0 && t < WRAP && ns % 4 == 0 && ns < WRAP
      requires a in mem && a + 4 in mem && a + t - 4 in mem && mem[a] == Header(t, f, false)
      requires InHeap(a + t) ==> a + t in mem && mem[a + t] == Header(ns, nf, npf)
      modifies this`mem
      ensures mem.Keys == old(mem.Keys)
      ensures mem[a] == Header(t, true, false) && mem[a + t - 4] == t
      ensures InHeap(a + t) ==> mem[a + t] == Header(ns, nf, true)
      ensures forall x :: x in mem && x !in {a, a + 4, a + t - 4, a + t} ==> mem[x] == old(mem)[x]
    {
      hide And, Or;
      HeaderBits(t, f, false);
      HeaderBits(ns, nf, npf);
      var size := BlockSize(a, t, f, false);
      var next := a + size;
      if InHeap(next) {
        mem := mem[next := Or(mem[next], FLAG_PREV_FREE)];
      }
      mem := mem[a := Or(mem[a], FLAG_FREE)];
      var total := BlockSize(a, t, true, false);
      mem := mem[a + total - 4 := total];
      mem := mem[a + 4 := 0];
    }

    /** The last lines of kfree: flag the t bytes at a free, write the footer, and link the block in. */
    method LinkFreed(a: int, ghost xs: seq<Block>, ghost t: nat, ghost f: bool, ghost ys: seq<Block>, ghost pf: bool, ghost m0: Mem)
      requires t >= MIN_BLOCK && t % 4 == 0 && a == HEAP_START + Total(xs)
      requires var hi := a + t;
               && Around(m0, mem, xs, ys, pf, a, hi) && hi + Total(ys) == heapEnd <= WRAP
               && a in mem && a + 4 in mem && hi - 4 in mem && mem[a] == Header(t, f, false)
               && (ys != [] ==> hi in mem && mem[hi] == Header(ys[0].size, ys[0].free, pf))
               && ListIs(mem, freeList, FreeAddrs(HEAP_START, xs) + FreeAddrs(hi, ys))
      modifies this`mem, this`freeList
      ensures mem.Keys == old(mem.Keys)
      ensures Around(m0, mem, xs, ys, pf, a, a + t)
      ensures a in mem && mem[a] == Header(t, true, false) && a + t - 4 in mem && mem[a + t - 4] == t
      ensures ys != [] ==> a + t in mem && mem[a + t] == Header(ys[0].size, ys[0].free, true)
      ensures Chain(mem, freeList, FreeAddrs(HEAP_START, xs) + [a] + FreeAddrs(a + t, ys))
    {
      hide Chain, Pointers, Ascending, Tags, Sides, Mapped, And, Or, FreeAddrs;
      ghost var hi := a + t;
      ghost var fx, fy := FreeAddrs(HEAP_START, xs), FreeAddrs(hi, ys);
      AroundApart(m0, mem, xs, ys, pf, a, hi);
      FlagFreed(a, t, f, if ys == [] then 0 else ys[0].size, ys != [] && ys[0].free, pf);
      ghost var m1 := mem;
      AroundStep(m0, old(mem), m1, xs, ys, pf, a, hi);
      ChainFrame(old(mem), m1, freeList, fx + fy);
      InsertFree(a, fx + fy);
      InsertBetween(fx, fy, a);
      AroundStep(m0, m1, mem, xs, ys, pf, a, hi);
    }

    /** kfree, on the row taken apart around the block given back. */
    method FreeAt(block: int, ghost xs: seq<Block>, ghost l: nat, ghost s: nat, ghost r: nat, ghost ys: seq<Block>)
      requires Freeing(mem, freeList, heapEnd, xs, l, s, r, ys) && block == HEAP_START + Total(xs) + l
      requires !LastFree(xs, false)
      modifies this`mem, this`freeList
      ensures mem.Keys == old(mem.Keys)
      ensures Good(mem, freeList, heapEnd, xs + [Block(l + s + r, true)] + ys)
      ensures WritesOwned(old(mem), mem, heapEnd, xs + [Block(l + s + r, true)] + ys)
    {
      hide Good, Around, ListIs, FreeAddrs, And, Or, Row, Total, WritesOwned, Mapped, Freeing, OptAddr, Header, LastFree;
      FreeingWords(mem, freeList, heapEnd, xs, l, s, r, ys);
      var a := MergeLeft(block, xs, l, s, r, ys);
      MergeRight(a, xs, l + s, l > 0, r, ys, old(mem));
      MappedSame(old(mem), mem, heapEnd);
      ghost var t := l + s + r;
      SplitMapped(mem, heapEnd, a, t, t);
      LinkWord(mem, heapEnd, a, t);
      LinkFreed(a, xs, t, l > 0 || r > 0, ys, r > 0, old(mem));
      MappedSame(old(mem), mem, heapEnd);
      FreedGood(old(mem), mem, freeList, heapEnd, xs, t, ys, r > 0);
    }

    /** kfree of a pointer the heap handed out, or of NULL: release its block. */
    method Free(ptr: int)
      requires Valid() && (ptr == 0 || ptr - 4 in Live(HEAP_START, blocks))
      modifies this`mem, this`freeList, this`blocks
      ensures Valid() && mem.Keys == old(mem.Keys)
      ensures blocks == if ptr == 0 then old(blocks) else ReleaseAt(old(blocks), ptr - 4)
      ensures KeepsPayloads(old(mem), mem, blocks) && (ptr == 0 ==> mem == old(mem))
    {
      hide KeepsPayloads, Good, Live, Row, Total, Freeing, Release, WritesOwned, Tags, Chain, Mapped;
      KeepsSame(mem, blocks);
      if ptr == 0 {
        return;
      }
      GoodEnd(mem, freeList, heapEnd, blocks);
      GoodTags(mem, freeList, heapEnd, blocks);
      var block := ptr - 4;
      ghost var bs := blocks;
      ghost var i := BlockAt(HEAP_START, bs, block);
      ghost var lo, hi := FreeLeft(bs, i), FreeRight(bs, i);
      AddrAt(bs, i);
      WordsAt(mem, bs, i);
      OpenFreeing(mem, freeList, heapEnd, bs, i);
      var size := BlockSize(block, bs[i].size, false, LastFree(bs[..i], false));
      if !InHeap(block) || size == 0 {
        return;
      }
      FreeAt(block, bs[..lo], LeftSize(bs, i), bs[i].size, RightSize(bs, i), bs[hi..]);
      blocks := Release(bs, i);
      GoodEnd(mem, freeList, heapEnd, blocks);
      OwnedKeeps(old(mem), mem, heapEnd, blocks);
    }

    /** The end of both cases of grow_heap: write the tags of the free run at a, and link it in. */
    method AppendFree(a: int, header: Word, ghost t: nat, ghost xs: seq<Block>)
      requires t >= MIN_BLOCK && t % 4 == 0 && header == Header(t, true, false)
      requires a + t <= HEAP_START + NUM_PAGES * PAGE_SIZE && Mapped(mem, a + t)
      requires Appending(mem, freeList, xs, a, a + t)
      modifies this`mem, this`freeList
      ensures mem.Keys == old(mem.Keys)
      ensures Good(mem, freeList, a + t, xs + [Block(t, true)])
      ensures WritesOwned(old(mem), mem, a + t, xs + [Block(t, true)])
    {
      hide Good, Chain, Pointers, Ascending, Tags, Sides, And, Or, Mapped, WritesOwned, Total, Row;
      ghost var fx := FreeAddrs(HEAP_START, xs);
      SplitMapped(mem, a + t, a, t, t);
      LinkWord(mem, a + t, a, t);
      AroundApart(mem, mem, xs, [], true, a, a + t);
      mem := mem[a := header];
      var size := BlockSize(a, t, true, false);
      mem := mem[a + size - 4 := size];
      mem := mem[a + 4 := 0];
      ghost var m1 := mem;
      assert m1.Keys == old(mem).Keys;
      AroundStep(old(mem), old(mem), m1, xs, [], true, a, a + t);
      ChainFrame(old(mem), m1, freeList, fx);
      InsertFree(a, fx);
      InsertBetween(fx, [], a);
      assert fx + [] == fx && fx + [a] + [] == fx + [a];
      AroundStep(old(mem), m1, mem, xs, [], true, a, a + t);
      MappedSame(old(mem), mem, a + t);
      assert FreeAddrs(a + t, []) == [];
      EmptyRow();
      FreedGood(old(mem), mem, freeList, a + t, xs, t, [], true);
      assert xs + [Block(t, true)] + [] == xs + [Block(t, true)];
    }

    /** Unlink the free block that ends the row. */
    method UnlinkLast(a: int, ghost xs: seq<Block>, ghost end': int)
      requires Around(mem, mem, xs, [], true, a, end') && a == HEAP_START + Total(xs) && a % 4 == 0 && a + MIN_BLOCK <= end'
      requires ListIs(mem, freeList, FreeAddrs(HEAP_START, xs) + [a]) && !LastFree(xs, false)
      modifies this`mem, this`freeList
      ensures Appending(mem, freeList, xs, a, end') && mem.Keys == old(mem.Keys)
      ensures forall x :: x in mem && a <= x < end' && x != a + 4 ==> mem[x] == old(mem)[x]
      ensures forall x :: x in mem && x < a ==> mem[x] == old(mem)[x] || x - 4 in FreeAddrs(HEAP_START, xs)
    {
      hide Tags, Row, Total, ListIs, Mapped;
      ghost var fx := FreeAddrs(HEAP_START, xs);
      assert fx + [a] + [] == fx + [a] && fx + [] == fx;
      AroundApart(mem, mem, xs, [], true, a, end');
      Unlink(a, fx, [], xs, [], true, a, end', mem);
      LeftTags(old(mem), mem, a, end', FreeAddrs(end', []), xs);
      EmptyTags(mem, end');
    }

    /** expand_heap in a loop: map `pages` pages from heapBrk on; fails when the frames run out. */
    method MapPages(pages: nat, avail: nat, contents: int -> Word) returns (ok: bool)
      requires Valid()
      modifies this`mem
      ensures ok <==> pages <= avail
      ensures Grown(old(mem), mem, heapEnd, if ok then heapEnd + pages * PAGE_SIZE else heapEnd)
      ensures !ok ==> Mapped(mem, heapEnd + avail * PAGE_SIZE)
    {
      hide Chain, Tags, Row, Total;
      for i := 0 to pages
        invariant i <= avail && Grown(old(mem), mem, heapEnd, heapEnd + i * PAGE_SIZE)
      {
        if i == avail {
          GrownLess(old(mem), mem, heapEnd, heapEnd + i * PAGE_SIZE);
          return false;
        }
        ghost var m1 := mem;
        var from := heapBrk + i * PAGE_SIZE;
        mem := mem + map x | from <= x < from + PAGE_SIZE && x % 4 == 0 :: contents(x);
        GrownMore(old(mem), m1, mem, heapEnd, from);
      }
      ok := true;
    }

    /** The new pages join a free last block. */
    method AttachWithin(prev: int, prevSize: Word, pages: nat)
      requires blocks != [] && WellFormed(blocks) && LastFree(blocks, false)
      requires prev == Addr(blocks, |blocks| - 1) && prevSize == blocks[|blocks| - 1].size
      requires prev in mem && mem[prev] == Header(prevSize, true, false)
      requires heapBrk == heapEnd == prev + prevSize == HEAP_START + Total(blocks)
      requires heapEnd + pages * PAGE_SIZE <= HEAP_START + NUM_PAGES * PAGE_SIZE && Mapped(mem, heapEnd + pages * PAGE_SIZE)
      requires Tags(mem, HEAP_START, blocks, false) && ListIs(mem, freeList, FreeAddrs(HEAP_START, blocks))
      modifies this
      ensures Valid() && blocks == Extend(old(blocks), pages * PAGE_SIZE)
      ensures KeepsPayloads(old(mem), mem, blocks)
    {
      hide Good, Chain, Tags, Row, Mapped, ListIs, Around, FreeAddrs, WritesOwned, Live, IsPayload, And, Or, KeepsPayloads, Total;
      ghost var bs, k, t := blocks, |blocks| - 1, pages * PAGE_SIZE;
      ghost var xs, n, end' := bs[..k], prevSize + t, heapEnd + t;
      AddrAt(bs, k);
      AppendWithin(mem, bs, end');
      UnlinkLast(prev, xs, end');
      RowSplit(bs, k, false);
      LinksOwned(old(mem), mem, xs, n);
      ghost var m1 := mem;
      MappedSame(old(mem), mem, end');
      WholePages(pages, prevSize);
      HeaderCompose(n, prevSize, true, false);
      var header := Or(Or(prevSize + pages * PAGE_SIZE, FLAG_FREE), And(mem[prev], FLAG_PREV_FREE));
      heapBrk := heapBrk + pages * PAGE_SIZE;
      heapEnd := heapBrk;
      AppendFree(prev, header, n, xs);
      blocks := xs + [Block(n, true)];
      GoodEnd(mem, freeList, heapEnd, blocks);
      OwnedKeeps(old(mem), m1, heapEnd, blocks);
      OwnedKeeps(m1, mem, heapEnd, blocks);
      KeepsTrans(old(mem), m1, mem, blocks);
    }

    /** The new pages become a block of their own. */
    method AttachAfter(pages: nat)
      requires blocks != [] && WellFormed(blocks) && !LastFree(blocks, false) && pages > 0
      requires heapBrk == heapEnd == HEAP_START + Total(blocks)
      requires heapEnd + pages * PAGE_SIZE <= HEAP_START + NUM_PAGES * PAGE_SIZE && Mapped(mem, heapEnd + pages * PAGE_SIZE)
      requires Tags(mem, HEAP_START, blocks, false) && ListIs(mem, freeList, FreeAddrs(HEAP_START, blocks))
      modifies this
      ensures Valid() && blocks == Extend(old(blocks), pages * PAGE_SIZE)
      ensures KeepsPayloads(old(mem), mem, blocks)
    {
      hide Good, Chain, Tags, Row, Mapped, ListIs, Around, FreeAddrs, WritesOwned, Live, IsPayload, And, Or, KeepsPayloads, Total;
      ghost var t := pages * PAGE_SIZE;
      WholePages(pages, 0);
      AppendAfter(mem, freeList, blocks, heapEnd + t);
      HeaderCompose(t, 0, true, false);
      AppendFree(heapBrk, Or(pages * PAGE_SIZE, FLAG_FREE), t, blocks);
      heapBrk := heapBrk + pages * PAGE_SIZE;
      heapEnd := heapBrk;
      blocks := blocks + [Block(t, true)];
      GoodEnd(mem, freeList, heapEnd, blocks);
      OwnedKeeps(old(mem), mem, heapEnd, blocks);
    }

    /** grow_heap: `avail` frames are free, and a fresh frame holds whatever it held. */
    method Grow(need: Word, avail: nat, contents: int -> Word) returns (ok: bool)
      requires Valid() && CanGrow(blocks, need)
      requires heapEnd + avail * PAGE_SIZE <= HEAP_START + NUM_PAGES * PAGE_SIZE
      modifies this
      ensures Valid()
      ensures ok <==> need > 0 && (need <= avail * PAGE_SIZE || need > WRAP - PAGE_SIZE)
      ensures GrewBy(old(heapEnd), heapEnd, if ok && need <= WRAP - PAGE_SIZE then need else 0)
      ensures blocks == if ok then Extend(old(blocks), PagesFor(need) * PAGE_SIZE) else old(blocks)
      ensures !ok && need > 0 ==> Mapped(mem, heapEnd + avail * PAGE_SIZE)
      ensures KeepsPayloads(old(mem), mem, old(blocks))
    {
      hide Good, Chain, Tags, Row, Total, Mapped, ListIs, FreeAddrs, Live, IsPayload, KeepsPayloads, Grown, And, Extend, PagesFor;
      WrappedPages(need);
      if need == 0 {
        KeepsSame(mem, blocks);
        return false;
      }
      GoodEnd(mem, freeList, heapEnd, blocks);
      if heapBrk >= BRK_LIMIT {
        return false;
      }
      var pages := PagesFor(need);
      if need <= WRAP - PAGE_SIZE { PagesTight(need, avail); }
      GrewPages(blocks, need, heapEnd);
      ok := MapPages(pages, avail, contents);
      ghost var m1, bs, t := mem, blocks, pages * PAGE_SIZE;
      ghost var end', k := if ok then heapEnd + t else heapEnd, |bs| - 1;
      GrownKeeps(old(mem), m1, freeList, heapEnd, end', bs);
      if !ok {
        GrownGood(old(mem), m1, freeList, heapEnd, bs);
        return;
      }
      GrownTags(old(mem), m1, freeList, heapEnd, end', bs);
      GrownMapped(old(mem), m1, heapEnd, end');
      WordsAt(m1, bs, k);
      AddrAt(bs, k);
      LastAddr(bs);
      RowSplit(bs, k, false);
      var prevSize := mem[heapBrk - 4];
      var prev := heapBrk - prevSize;
      var free := BlockIsFree(prev, bs[k].size, bs[k].free, LastFree(bs[..k], false));
      if InHeap(prev) && prev + prevSize == heapBrk && free {
        AttachWithin(prev, prevSize, pages);
      } else {
        PagesCover(need);
        AttachAfter(pages);
      }
      if pages == 0 {
        ExtendByNothing(bs);
      } else {
        ExtendLive(bs, t);
      }
      GoodEnd(mem, freeList, heapEnd, blocks);
      KeepsFewer(m1, mem, bs, blocks);
      KeepsTrans(old(mem), m1, mem, bs);
    }

    /**
     The rest of grow_heap: a need whose page count wraps, after a live last block. The new block of no bytes
     has its footer where the last block has its own, and no row of blocks has a footer of 0 there: the
     heap is broken whatever its row is taken to be. The words past the end are mapped only if an earlier
     growth ran out of frames (HeapRuns.BreakHeap is such a run); otherwise the first store faults.
     */
    method GrowNothing(need: Word) returns (ok: bool)
      requires Valid() && !CanGrow(blocks, need) && heapBrk in mem && heapBrk + 4 in mem
      modifies this`mem, this`freeList
      ensures ok && forall p, bs :: !Good(mem, p, heapEnd, bs)
    {
      hide Good, Chain, Tags, Row, Total, Mapped, FreeAddrs, And, Or, Insert, Ascending, Pointers;
      ghost var bs, fl, k := blocks, FreeAddrs(HEAP_START, blocks), |blocks| - 1;
      LastWords(mem, freeList, heapEnd, bs);
      WrappedPages(need);
      var pages := PagesFor(need);
      var prevSize := mem[heapBrk - 4];
      var prev := heapBrk - prevSize;
      var free := BlockIsFree(prev, bs[k].size, bs[k].free, LastFree(bs[..k], false));
      assert !free;
      var header := Or(pages * PAGE_SIZE, FLAG_FREE);
      mem := mem[heapBrk := header];
      mem := mem[heapBrk + pages * PAGE_SIZE - 4 := pages * PAGE_SIZE];
      mem := mem[heapBrk + 4 := 0];
      ChainFrame(old(mem), mem, freeList, fl);
      InsertFree(heapBrk, fl);
      forall p, row ensures !Good(mem, p, heapEnd, row) { FooterPositive(mem, p, heapEnd, row); }
      ok := true;
    }

    /** kmalloc: `avail` frames are free, and a fresh frame holds whatever it held. */
    method Alloc(size: Word, avail: nat, contents: int -> Word) returns (ptr: int)
      requires Valid() && CanGrow(blocks, BlockBytes(size))
      requires heapEnd + avail * PAGE_SIZE <= HEAP_START + NUM_PAGES * PAGE_SIZE
      modifies this
      ensures Valid()
      ensures var n := BlockBytes(size);
              ptr == 0 <==> size == 0 || (FindFit(old(blocks), n) == |old(blocks)| && (n > avail * PAGE_SIZE || n > WRAP - PAGE_SIZE))
      ensures GrewBy(old(heapEnd), heapEnd,
                     if ptr != 0 && FindFit(old(blocks), BlockBytes(size)) == |old(blocks)| then BlockBytes(size) else 0)
      ensures ptr == 0 ==> blocks == old(blocks)
      ensures ptr == 0 && size > 0 && avail * PAGE_SIZE < BlockBytes(size) <= WRAP - PAGE_SIZE ==> Mapped(mem, heapEnd + avail * PAGE_SIZE)
      ensures var n := BlockBytes(size);
              var g := WithRoom(old(blocks), n);
              var i := FindFit(g, n);
              ptr != 0 ==> i < |g| && ptr == Addr(g, i) + 4 && blocks == Take(g, i, n)
      ensures KeepsPayloads(old(mem), mem, old(blocks))
    {
      hide Good, Row, Total, Live, IsPayload, KeepsPayloads, And, Extend, Take, FindFit, WritesOwned, Chain;
      BlockBytesRoom(size);
      KeepsSame(mem, blocks);
      if size == 0 {
        return 0;
      }
      ghost var bs, m0 := blocks, mem;
      GoodEnd(mem, freeList, heapEnd, bs);
      var n := BlockBytes(size);
      ghost var i;
      var fb;
      fb, i := FirstFit(n);
      if fb == 0 {
        var ok := Grow(n, avail, contents);
        if !ok {
          return 0;
        }
        Regrown(bs, n);
        assert blocks == Extend(bs, PagesFor(n) * PAGE_SIZE);
        fb, i := FirstFit(n);
        if fb == 0 {
          return 0;
        }
      }
      ghost var g, m1 := blocks, mem;
      GoodEnd(mem, freeList, heapEnd, g);
      Carve(fb, n, i);
      OwnedKeeps(m1, mem, heapEnd, g);
      WithRoomLive(bs, n);
      KeepsFewer(m1, mem, bs, g);
      KeepsTrans(m0, m1, mem, bs);
      ptr := fb + 4;
    }

    /** heap_init: 64 pages, one free block. */
    constructor (contents: int -> Word)
      ensures Valid() && blocks == [Block(HEAP_INIT_PAGES * PAGE_SIZE, true)]
    {
      var end := HEAP_START + HEAP_INIT_PAGES * PAGE_SIZE;
      var size := HEAP_INIT_PAGES * PAGE_SIZE;
      var m := map x | HEAP_START <= x < end && x % 4 == 0 :: contents(x);
      ghost var m0: Mem := m;
      HeaderCompose(size, 0, true, false);
      m := m[HEAP_START := Or(size, FLAG_FREE)];
      m := m[HEAP_START + 4 := 0];
      m := m[end - 4 := size];
      InitGood(m0, m);
      mem := m;
      freeList := HEAP_START;
      heapBrk := end;
      heapEnd := end;
      blocks := [Block(size, true)];
    }

    /** A client stores a word into a payload it holds. */
    method StoreWord(addr: int, value: Word)
      requires Valid() && addr % 4 == 0 && IsPayload(blocks, addr)
      modifies this`mem
      ensures Valid() && mem == old(mem)[addr := value]
    {
      StoreGood(mem, freeList, heapEnd, blocks, addr, value);
      mem := mem[addr := value];
    }
  }
}
