/**
 The kernel heap seen as what it is for: a row of blocks, each free or handed out.
 The allocator's four operations on such rows, and what they guarantee over whole runs.
 KernelHeap.dfy proves that the boundary-tag words refine this view.
 */
module HeapBlocks {

  const HEAP_START := 0xD000_0000
  const MIN_BLOCK := 16

  datatype Block = Block(size: nat, free: bool)

  function Total(bs: seq<Block>): (n: nat)
  {
    if bs == [] then 0 else bs[0].size + Total(bs[1..])
  }

  /** Start address of block i when the row starts at a. */
  function AddrFrom(a: int, bs: seq<Block>, i: nat): int
    requires i <= |bs|
  {
    a + Total(bs[..i])
  }

  function Addr(bs: seq<Block>, i: nat): int
    requires i <= |bs|
  {
    AddrFrom(HEAP_START, bs, i)
  }

  /** Is the last block of the row free; pf answers for the block before an empty row. */
  function LastFree(bs: seq<Block>, pf: bool): bool {
    if bs == [] then pf else bs[|bs| - 1].free
  }

  /** Every block can hold its tags and link, and no free block follows a free block. */
  predicate Row(bs: seq<Block>, pf: bool) {
    bs != [] ==>
      && bs[0].size >= MIN_BLOCK && bs[0].size % 4 == 0
      && !(pf && bs[0].free)
      && Row(bs[1..], bs[0].free)
  }

  predicate WellFormed(bs: seq<Block>) {
    Row(bs, false)
  }

  // ---------------------------------------------------------------- operations

  predicate Fits(b: Block, n: nat) {
    b.free && b.size >= n
  }

  /** The lowest block that is free and large enough; |bs| when there is none. */
  function FindFit(bs: seq<Block>, n: nat): (i: nat)
    ensures i <= |bs|
    ensures forall j :: 0 <= j < i ==> !Fits(bs[j], n)
    ensures i < |bs| ==> Fits(bs[i], n)
  {
    if bs == [] then 0 else if Fits(bs[0], n) then 0 else 1 + FindFit(bs[1..], n)
  }

  /** The stretch that block i becomes when n bytes of it are handed out. */
  function TakeMid(b: Block, n: nat): (mid: seq<Block>)
    requires n <= b.size
    ensures Total(mid) == b.size && mid != [] && !mid[0].free
  {
    TotalPair(Block(n, false), Block(b.size - n, true));
    TotalPair(Block(b.size, false), b);
    if b.size - n >= MIN_BLOCK then [Block(n, false), Block(b.size - n, true)] else [Block(b.size, false)]
  }

  /** Hand out n bytes of free block i, splitting off the rest when it can stand alone. */
  function Take(bs: seq<Block>, i: nat, n: nat): seq<Block>
    requires i < |bs| && n <= bs[i].size
  {
    bs[..i] + TakeMid(bs[i], n) + bs[i + 1..]
  }

  function FreeLeft(bs: seq<Block>, i: nat): (lo: nat)
    requires i < |bs|
  {
    if i > 0 && bs[i - 1].free then i - 1 else i
  }

  function FreeRight(bs: seq<Block>, i: nat): (hi: nat)
    requires i < |bs|
  {
    if i + 1 < |bs| && bs[i + 1].free then i + 2 else i + 1
  }

  /** Give back block i, merged with its free neighbours. */
  function Release(bs: seq<Block>, i: nat): seq<Block>
    requires i < |bs|
  {
    var lo, hi := FreeLeft(bs, i), FreeRight(bs, i);
    bs[..lo] + [Block(Total(bs[lo..hi]), true)] + bs[hi..]
  }

  /** Append n fresh bytes, joined to the last block when that is free. */
  function Extend(bs: seq<Block>, n: nat): seq<Block>
  {
    if bs != [] && bs[|bs| - 1].free
    then bs[..|bs| - 1] + [Block(bs[|bs| - 1].size + n, true)]
    else bs + [Block(n, true)]
  }

  // ------------------------------------------------------- arithmetic of rows

  lemma {:induction false} Slices<T>(s: seq<T>, lo: nat, hi: nat)
    requires lo <= hi <= |s|
    ensures s == s[..lo] + s[lo..] && s[lo..] == s[lo..hi] + s[hi..] && s == s[..lo] + s[lo..hi] + s[hi..]
  {
  }

  lemma {:induction false} SliceAt<T>(s: seq<T>, lo: nat, i: nat, hi: nat)
    requires lo <= i < hi <= |s|
    ensures s[lo..hi] == s[lo..i] + [s[i]] + s[i + 1..hi]
  {
  }

  lemma {:induction false} TotalConcat(xs: seq<Block>, ys: seq<Block>)
    ensures Total(xs + ys) == Total(xs) + Total(ys)
  {
    if xs == [] {
      assert xs + ys == ys;
    } else {
      assert (xs + ys)[1..] == xs[1..] + ys;
      TotalConcat(xs[1..], ys);
    }
  }

  lemma {:induction false} TotalSplit(bs: seq<Block>, i: nat)
    requires i < |bs|
    ensures Total(bs) == Total(bs[..i]) + bs[i].size + Total(bs[i + 1..])
    ensures Total(bs[..i + 1]) == Total(bs[..i]) + bs[i].size
    ensures Total(bs[i..]) == bs[i].size + Total(bs[i + 1..])
  {
    assert bs == bs[..i] + bs[i..];
    TotalConcat(bs[..i], bs[i..]);
    assert bs[i..][1..] == bs[i + 1..];
    assert bs[..i + 1] == bs[..i] + [bs[i]];
    TotalConcat(bs[..i], [bs[i]]);
    assert Total([bs[i]]) == bs[i].size;
  }

  lemma {:induction false} TotalPair(b: Block, c: Block)
    ensures Total([b]) == b.size && Total([b, c]) == b.size + c.size
  {
    assert [b, c][1..] == [c] && [b][1..] == [] && [c][1..] == [];
  }

  lemma {:induction false} RowTotal(bs: seq<Block>, pf: bool)
    requires Row(bs, pf)
    ensures Total(bs) % 4 == 0 && Total(bs) >= MIN_BLOCK * |bs|
  {
    if bs != [] {
      RowTotal(bs[1..], bs[0].free);
    }
  }

  lemma {:induction false} RowConcat(xs: seq<Block>, ys: seq<Block>, pf: bool)
    ensures Row(xs + ys, pf) <==> Row(xs, pf) && Row(ys, LastFree(xs, pf))
  {
    if xs == [] {
      assert xs + ys == ys;
    } else {
      assert (xs + ys)[1..] == xs[1..] + ys;
      RowConcat(xs[1..], ys, xs[0].free);
    }
  }

  lemma {:induction false} RowSplit(bs: seq<Block>, i: nat, pf: bool)
    requires i < |bs| && Row(bs, pf)
    ensures Row(bs[..i], pf) && bs[i].size >= MIN_BLOCK && bs[i].size % 4 == 0
    ensures !(LastFree(bs[..i], pf) && bs[i].free)
    ensures Row(bs[i + 1..], bs[i].free)
    ensures i + 1 < |bs| ==> !(bs[i].free && bs[i + 1].free)
  {
    assert bs == bs[..i] + bs[i..];
    RowConcat(bs[..i], bs[i..], pf);
    assert bs[i..][1..] == bs[i + 1..];
  }

  /** Replacing a stretch by one that meets its neighbours as well keeps the row. */
  lemma {:induction false} RowReplace(xs: seq<Block>, mid: seq<Block>, ys: seq<Block>)
    requires WellFormed(xs) && Row(mid, LastFree(xs, false)) && mid != [] && Row(ys, LastFree(mid, false))
    ensures WellFormed(xs + mid + ys) && Total(xs + mid + ys) == Total(xs) + Total(mid) + Total(ys)
  {
    RowConcat(xs, mid, false);
    RowConcat(xs + mid, ys, false);
    TotalConcat(xs, mid);
    TotalConcat(xs + mid, ys);
  }

  // ------------------------------------------------------------- conservation

  /** Handing out a free block keeps the row well formed and of the same total size. */
  lemma {:induction false} TakeWellFormed(bs: seq<Block>, i: nat, n: nat)
    requires WellFormed(bs) && i < |bs| && Fits(bs[i], n) && n >= MIN_BLOCK && n % 4 == 0
    ensures WellFormed(Take(bs, i, n)) && Total(Take(bs, i, n)) == Total(bs)
  {
    var mid := TakeMid(bs[i], n);
    TotalSplit(bs, i);
    RowSplit(bs, i, false);
    var ys := bs[i + 1..];
    assert Row(ys, false);
    if |mid| == 2 { assert mid[1..] == [mid[1]]; }
    if ys != [] { assert !ys[0].free; }
    RowReplace(bs[..i], mid, ys);
  }

  /** Release turns a stretch of one to three blocks around i into one. */
  lemma {:induction false} ReleaseSize(bs: seq<Block>, i: nat)
    requires i < |bs|
    ensures var lo, hi := FreeLeft(bs, i), FreeRight(bs, i);
            Total(bs[lo..hi]) == (if lo < i then bs[lo].size else 0) + bs[i].size + (if hi > i + 1 then bs[i + 1].size else 0)
  {
    var lo, hi := FreeLeft(bs, i), FreeRight(bs, i);
    var left, right := bs[lo..i], bs[i + 1..hi];
    assert bs[lo..hi] == left + ([bs[i]] + right);
    TotalConcat(left, [bs[i]] + right);
    TotalConcat([bs[i]], right);
    TotalPair(bs[i], bs[i]);
    if lo < i { assert left == [bs[lo]]; TotalPair(bs[lo], bs[lo]); }
    if hi > i + 1 { assert right == [bs[i + 1]]; TotalPair(bs[i + 1], bs[i + 1]); }
  }

  lemma {:induction false} RowPrevFree(bs: seq<Block>, pf: bool)
    requires Row(bs, pf) && (bs != [] ==> !bs[0].free)
    ensures Row(bs, !pf)
  {
  }

  lemma {:induction false} ReleaseShape(bs: seq<Block>, i: nat)
    requires WellFormed(bs) && i < |bs| && !bs[i].free
    ensures var lo, hi := FreeLeft(bs, i), FreeRight(bs, i);
            && bs == bs[..lo] + bs[lo..hi] + bs[hi..] && bs[lo..hi] != []
            && WellFormed(bs[..lo]) && !LastFree(bs[..lo], false)
            && Row(bs[hi..], true)
            && Total(bs[lo..hi]) >= MIN_BLOCK && Total(bs[lo..hi]) % 4 == 0
  {
    hide Row, Total, FreeLeft, FreeRight;
    var lo, hi := FreeLeft(bs, i), FreeRight(bs, i);
    ReleaseLeft(bs, i);
    ReleaseRight(bs, i);
    Slices(bs, lo, hi);
    StretchTotal(bs, lo, hi);
  }

  lemma {:induction false} ReleaseLeft(bs: seq<Block>, i: nat)
    requires WellFormed(bs) && i < |bs| && !bs[i].free
    ensures var lo := FreeLeft(bs, i); lo <= i && WellFormed(bs[..lo]) && !LastFree(bs[..lo], false)
  {
    hide Row;
    RowSplit(bs, FreeLeft(bs, i), false);
  }

  lemma {:induction false} ReleaseRight(bs: seq<Block>, i: nat)
    requires WellFormed(bs) && i < |bs| && !bs[i].free
    ensures var hi := FreeRight(bs, i); i < hi <= |bs| && Row(bs[hi..], true)
  {
    hide Row;
    var hi := FreeRight(bs, i);
    RowSplit(bs, hi - 1, false);
    RowPrevFree(bs[hi..], bs[hi - 1].free);
  }

  lemma {:induction false} StretchTotal(bs: seq<Block>, lo: nat, hi: nat)
    requires WellFormed(bs) && lo < hi <= |bs|
    ensures Total(bs[lo..hi]) >= MIN_BLOCK && Total(bs[lo..hi]) % 4 == 0
  {
    hide Row, Total;
    Slices(bs, lo, hi);
    RowConcat(bs[..lo], bs[lo..], false);
    RowConcat(bs[lo..hi], bs[hi..], LastFree(bs[..lo], false));
    RowTotal(bs[lo..hi], LastFree(bs[..lo], false));
  }

  /** Giving a block back keeps the row well formed and of the same total size. */
  lemma {:induction false} ReleaseWellFormed(bs: seq<Block>, i: nat)
    requires WellFormed(bs) && i < |bs| && !bs[i].free
    ensures WellFormed(Release(bs, i)) && Total(Release(bs, i)) == Total(bs)
  {
    var lo, hi := FreeLeft(bs, i), FreeRight(bs, i);
    ReleaseShape(bs, i);
    var m := Block(Total(bs[lo..hi]), true);
    TotalConcat(bs[..lo] + bs[lo..hi], bs[hi..]);
    TotalConcat(bs[..lo], bs[lo..hi]);
    TotalPair(m, m);
    RowReplace(bs[..lo], [m], bs[hi..]);
  }

  lemma {:induction false} ExtendWellFormed(bs: seq<Block>, n: nat)
    requires WellFormed(bs) && n >= MIN_BLOCK && n % 4 == 0
    ensures WellFormed(Extend(bs, n)) && Total(Extend(bs, n)) == Total(bs) + n
  {
    var k := if LastFree(bs, false) then |bs| - 1 else |bs|;
    var m := Block(n + if k < |bs| then bs[k].size else 0, true);
    TotalPair(m, m);
    if k < |bs| {
      RowSplit(bs, k, false);
      TotalSplit(bs, k);
      assert bs[k + 1..] == [];
    } else {
      assert bs[..k] == bs;
    }
    RowReplace(bs[..k], [m], []);
    assert bs[..k] + [m] + [] == bs[..k] + [m] == Extend(bs, n);
  }

  // ------------------------------------------------------------- live blocks

  /** The blocks handed out: start address to size, for a row that starts at a. */
  function Live(a: int, bs: seq<Block>): (m: map<int, nat>)
    decreases |bs|
  {
    if bs == [] then map[]
    else
      var rest := Live(a + bs[0].size, bs[1..]);
      if bs[0].free then rest else rest[a := bs[0].size]
  }

  /** A live block lies inside the row. */
  lemma {:induction false} LiveInside(a: int, bs: seq<Block>, pf: bool, x: int)
    requires Row(bs, pf) && x in Live(a, bs)
    ensures a <= x && x + Live(a, bs)[x] <= a + Total(bs)
    ensures Live(a, bs)[x] >= MIN_BLOCK && (x - a) % 4 == 0
    decreases |bs|
  {
    if x == a && !bs[0].free {
    } else {
      LiveInside(a + bs[0].size, bs[1..], bs[0].free, x);
    }
  }

  /** Two live blocks do not overlap. */
  lemma {:induction false} LiveDisjoint(a: int, bs: seq<Block>, pf: bool, x: int, y: int)
    requires Row(bs, pf) && x in Live(a, bs) && y in Live(a, bs) && x < y
    ensures x + Live(a, bs)[x] <= y
    decreases |bs|
  {
    var a', rest, pf' := a + bs[0].size, bs[1..], bs[0].free;
    LiveInside(a, bs, pf, x);
    assert y in Live(a', rest);
    LiveInside(a', rest, pf', y);
    if x in Live(a', rest) {
      LiveInside(a', rest, pf', x);
      LiveDisjoint(a', rest, pf', x, y);
    }
  }

  lemma {:induction false} LiveConcat(a: int, xs: seq<Block>, ys: seq<Block>, pf: bool)
    requires Row(xs + ys, pf)
    ensures Live(a, xs + ys) == Live(a, xs) + Live(a + Total(xs), ys)
    ensures Live(a, xs).Keys !! Live(a + Total(xs), ys).Keys
    decreases |xs|
  {
    if xs == [] {
      assert xs + ys == ys;
    } else {
      assert (xs + ys)[1..] == xs[1..] + ys;
      LiveConcat(a + xs[0].size, xs[1..], ys, xs[0].free);
      RowConcat(xs, ys, pf);
      if a in Live(a + Total(xs), ys) { LiveInside(a + Total(xs), ys, LastFree(xs, pf), a); }
    }
  }

  /** The live blocks of a row are those of its three stretches. */
  lemma {:induction false} LiveThree(a: int, xs: seq<Block>, mid: seq<Block>, ys: seq<Block>)
    requires WellFormed(xs + mid + ys)
    ensures var b := a + Total(xs);
            && Live(a, xs + mid + ys) == Live(a, xs) + Live(b, mid) + Live(b + Total(mid), ys)
            && Live(b, mid).Keys !! Live(a, xs).Keys + Live(b + Total(mid), ys).Keys
  {
    RowConcat(xs + mid, ys, false);
    LiveConcat(a, xs, mid, false);
    TotalConcat(xs, mid);
    LiveConcat(a, xs + mid, ys, false);
  }

  /** Taking from free block i adds exactly one live block, at i's address, and moves no other. */
  lemma {:induction false} TakeLive(bs: seq<Block>, i: nat, n: nat)
    requires WellFormed(bs) && i < |bs| && Fits(bs[i], n) && n >= MIN_BLOCK && n % 4 == 0
    ensures var x := Addr(bs, i);
            && x !in Live(HEAP_START, bs)
            && Live(HEAP_START, Take(bs, i, n)) == Live(HEAP_START, bs)[x := TakeMid(bs[i], n)[0].size]
  {
    hide Row, Live, Total;
    var xs, mid, mid', ys := bs[..i], [bs[i]], TakeMid(bs[i], n), bs[i + 1..];
    var x := Addr(bs, i);
    assert bs == xs + mid + ys;
    TakeWellFormed(bs, i, n);
    TotalPair(bs[i], bs[i]);
    LiveThree(HEAP_START, xs, mid, ys);
    LiveThree(HEAP_START, xs, mid', ys);
    FreshLive(x, bs[i], n);
    UnionInsert(Live(HEAP_START, xs), Live(x + bs[i].size, ys), x, mid'[0].size);
  }

  lemma {:induction false} FreshLive(x: int, b: Block, n: nat)
    requires Fits(b, n)
    ensures Live(x, [b]) == map[] && Live(x, TakeMid(b, n)) == map[x := TakeMid(b, n)[0].size]
  {
    AllFreeNoLive(x, [b]);
    AllFreeNoLive(x + TakeMid(b, n)[0].size, TakeMid(b, n)[1..]);
  }

  lemma {:induction false} UnionInsert(m: map<int, nat>, m': map<int, nat>, x: int, n: nat)
    requires x !in m && x !in m'
    ensures x !in m + map[] + m' && m + map[x := n] + m' == (m + map[] + m')[x := n]
  {
  }

  lemma {:induction false} UnionRemove(m: map<int, nat>, d: map<int, nat>, m': map<int, nat>, x: int)
    requires d.Keys == {x} && x !in m && x !in m'
    ensures m + map[] + m' == (m + d + m') - {x}
  {
  }

  /** Releasing a live block removes exactly that block from the live ones. */
  lemma {:induction false} ReleaseLive(bs: seq<Block>, i: nat)
    requires WellFormed(bs) && i < |bs| && !bs[i].free
    ensures Live(HEAP_START, Release(bs, i)) == Live(HEAP_START, bs) - {Addr(bs, i)}
  {
    hide Row, Live, Total;
    var lo, hi := FreeLeft(bs, i), FreeRight(bs, i);
    var xs, mid, ys := bs[..lo], bs[lo..hi], bs[hi..];
    var mid' := [Block(Total(mid), true)];
    AllFreeNoLive(Addr(bs, lo), mid');
    ReleaseShape(bs, i);
    ReleaseWellFormed(bs, i);
    TotalPair(mid'[0], mid'[0]);
    LiveThree(HEAP_START, xs, mid, ys);
    LiveThree(HEAP_START, xs, mid', ys);
    assert Live(Addr(bs, lo), mid') == map[];
    ReleasedStretch(bs, i);
    UnionRemove(Live(HEAP_START, xs), Live(Addr(bs, lo), mid), Live(Addr(bs, lo) + Total(mid), ys), Addr(bs, i));
  }

  /** Of the stretch that release merges, only block i itself was live. */
  lemma {:induction false} ReleasedStretch(bs: seq<Block>, i: nat)
    requires WellFormed(bs) && i < |bs| && !bs[i].free
    ensures var lo, hi := FreeLeft(bs, i), FreeRight(bs, i);
            Live(Addr(bs, lo), bs[lo..hi]).Keys == {Addr(bs, i)}
  {
    var lo, hi := FreeLeft(bs, i), FreeRight(bs, i);
    AllFreeNoLive(Addr(bs, i) + bs[i].size, bs[i..hi][1..]);
    assert Live(Addr(bs, i), bs[i..hi]) == map[Addr(bs, i) := bs[i].size];
    if lo < i {
      assert bs[..i] == bs[..lo] + [bs[lo]];
      TotalConcat(bs[..lo], [bs[lo]]);
      TotalPair(bs[lo], bs[lo]);
      assert bs[lo..hi][1..] == bs[i..hi];
    }
  }

  lemma {:induction false} AllFreeNoLive(a: int, bs: seq<Block>)
    requires forall b <- bs :: b.free
    ensures Live(a, bs) == map[]
    decreases |bs|
  {
    if bs != [] { AllFreeNoLive(a + bs[0].size, bs[1..]); }
  }

  lemma {:induction false} NoLiveAllFree(a: int, bs: seq<Block>)
    requires Live(a, bs) == map[]
    ensures forall b <- bs :: b.free
    decreases |bs|
  {
    if bs != [] {
      var rest := Live(a + bs[0].size, bs[1..]);
      assert !bs[0].free ==> a in Live(a, bs);
      NoLiveAllFree(a + bs[0].size, bs[1..]);
    }
  }

  /** Growth touches no live block. */
  lemma {:induction false} ExtendLive(bs: seq<Block>, n: nat)
    requires WellFormed(bs) && n >= MIN_BLOCK && n % 4 == 0
    ensures Live(HEAP_START, Extend(bs, n)) == Live(HEAP_START, bs)
  {
    var k := if LastFree(bs, false) then |bs| - 1 else |bs|;
    var e := Extend(bs, n);
    ExtendWellFormed(bs, n);
    assert e == bs[..k] + e[k..] && bs == bs[..k] + bs[k..];
    LiveConcat(HEAP_START, bs[..k], e[k..], false);
    LiveConcat(HEAP_START, bs[..k], bs[k..], false);
    AllFreeNoLive(HEAP_START + Total(bs[..k]), e[k..]);
    AllFreeNoLive(HEAP_START + Total(bs[..k]), bs[k..]);
  }

  /** The block of the row that starts at live address x. */
  function BlockAt(a: int, bs: seq<Block>, x: int): (i: nat)
    requires x in Live(a, bs)
    ensures i < |bs| && !bs[i].free && x == AddrFrom(a, bs, i) && bs[i].size == Live(a, bs)[x]
    decreases |bs|
  {
    if x == a && !bs[0].free then 0
    else
      var i := 1 + BlockAt(a + bs[0].size, bs[1..], x);
      assert bs[..i][1..] == bs[1..][..i - 1];
      i
  }

  // --------------------------------------------------------------- main laws

  /** Freeing what was just allocated restores the row, free blocks and all. */
  lemma {:induction false} ReleaseUndoesTake(bs: seq<Block>, i: nat, n: nat)
    requires WellFormed(bs) && i < |bs| && Fits(bs[i], n)
    ensures Release(Take(bs, i, n), i) == bs
  {
    var t, mid := Take(bs, i, n), TakeMid(bs[i], n);
    RowSplit(bs, i, false);
    assert i > 0 ==> t[i - 1] == bs[..i][i - 1];
    assert FreeLeft(t, i) == i;
    var hi := i + |mid|;
    assert t[i..hi] == mid && t[..i] == bs[..i] && t[hi..] == bs[i + 1..];
    assert |mid| == 1 && i + 1 < |bs| ==> t[i + 1] == bs[i + 1];
    assert |mid| == 2 ==> t[i + 1] == mid[1];
    assert FreeRight(t, i) == hi;
  }

  /** The same by address, which is what kfree is given: the block handed out is live at the free block's address. */
  lemma {:induction false} ReleaseAtUndoesTake(bs: seq<Block>, i: nat, n: nat)
    requires WellFormed(bs) && i < |bs| && Fits(bs[i], n) && n >= MIN_BLOCK && n % 4 == 0
    ensures WellFormed(Take(bs, i, n)) && Addr(bs, i) in Live(HEAP_START, Take(bs, i, n))
    ensures ReleaseAt(Take(bs, i, n), Addr(bs, i)) == bs
  {
    hide Live, Release, FreeLeft, FreeRight;
    TakeWellFormed(bs, i, n);
    TakeLive(bs, i, n);
    ReleaseUndoesTake(bs, i, n);
    var t := Take(bs, i, n);
    var j := BlockAt(HEAP_START, t, Addr(bs, i));
    assert t[..i] == bs[..i];
    hide Take;
    AddrUnique(t, i, j);
  }

  /** Blocks start at different addresses. */
  lemma {:induction false} AddrUnique(bs: seq<Block>, i: nat, j: nat)
    requires WellFormed(bs) && i < |bs| && j < |bs| && Addr(bs, i) == Addr(bs, j)
    ensures i == j
  {
    if i < j { AddrBefore(bs, i, j); }
    if j < i { AddrBefore(bs, j, i); }
  }

  lemma {:induction false} AddrBefore(bs: seq<Block>, i: nat, j: nat)
    requires WellFormed(bs) && i < j < |bs|
    ensures Addr(bs, i) < Addr(bs, j)
  {
    TotalSplit(bs[..j], i);
    assert bs[..j][..i] == bs[..i] && bs[..j][i] == bs[i];
    RowSplit(bs, i, false);
  }

  /** The waste of one allocation is at most 12 bytes. */
  lemma {:induction false} TakeIsTight(bs: seq<Block>, i: nat, n: nat)
    requires WellFormed(bs) && i < |bs| && Fits(bs[i], n) && n % 4 == 0
    ensures n <= Take(bs, i, n)[i].size <= n + 12
  {
    RowSplit(bs, i, false);
    assert (bs[i].size - n) % 4 == 0;
  }

  /** After a growth by at least n bytes a search for n bytes succeeds. */
  lemma {:induction false} ExtendFits(bs: seq<Block>, n: nat, m: nat)
    requires n <= m
    ensures FindFit(Extend(bs, m), n) < |Extend(bs, m)|
  {
    var e := Extend(bs, m);
    assert Fits(e[|e| - 1], n);
  }

  /** What freeing the live block at address x does to the row. */
  function ReleaseAt(bs: seq<Block>, x: int): (bs': seq<Block>)
    requires WellFormed(bs) && x in Live(HEAP_START, bs)
    ensures WellFormed(bs') && Total(bs') == Total(bs)
    ensures Live(HEAP_START, bs') == Live(HEAP_START, bs) - {x}
  {
    var i := BlockAt(HEAP_START, bs, x);
    ReleaseWellFormed(bs, i);
    ReleaseLive(bs, i);
    Release(bs, i)
  }

  /** A row with nothing handed out is one free block. */
  lemma {:induction false} AllFreeIsOneBlock(bs: seq<Block>)
    requires WellFormed(bs) && bs != [] && Live(HEAP_START, bs) == map[]
    ensures bs == [Block(Total(bs), true)]
  {
    NoLiveAllFree(HEAP_START, bs);
    assert |bs| == 1 by { if |bs| > 1 { RowSplit(bs, 0, false); } }
    TotalPair(bs[0], bs[0]);
  }

  /** Each address of `order` is live when its turn comes. */
  ghost predicate CanReleaseAll(bs: seq<Block>, order: seq<int>)
    requires WellFormed(bs)
    decreases |order|
  {
    order != [] ==> order[0] in Live(HEAP_START, bs) && CanReleaseAll(ReleaseAt(bs, order[0]), order[1..])
  }

  ghost function ReleaseAll(bs: seq<Block>, order: seq<int>): seq<Block>
    requires WellFormed(bs) && CanReleaseAll(bs, order)
    decreases |order|
  {
    if order == [] then bs else ReleaseAll(ReleaseAt(bs, order[0]), order[1..])
  }

  /** Freeing every live block, each once and in any order, leaves one free block covering the heap. */
  lemma {:induction false} ReleaseAllCoalesces(bs: seq<Block>, order: seq<int>)
    requires WellFormed(bs) && bs != []
    requires forall x :: x in order <==> x in Live(HEAP_START, bs)
    requires forall i, j :: 0 <= i < j < |order| ==> order[i] != order[j]
    ensures CanReleaseAll(bs, order) && ReleaseAll(bs, order) == [Block(Total(bs), true)]
    decreases |order|
  {
    if order == [] {
      assert Live(HEAP_START, bs) == map[] by {
        forall x ensures x !in Live(HEAP_START, bs) { assert x !in order; }
      }
      AllFreeIsOneBlock(bs);
    } else {
      assert order[0] in order;
      var bs', rest := ReleaseAt(bs, order[0]), order[1..];
      assert forall x :: x in order <==> x == order[0] || x in rest;
      assert bs' != [];
      ReleaseAllCoalesces(bs', rest);
    }
  }
}
