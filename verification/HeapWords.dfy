/**
 The words by which the kernel heap records its row of blocks: a header word holding size and
 two flag bits, a footer word repeating the size, and a link word in every free block.
 */
module HeapWords {
  import opened Basics
  import opened Bits
  import opened HeapBlocks

  type Mem = map<int, Word>

  const FLAG_FREE: Word := 0x1
  const FLAG_PREV_FREE: Word := 0x2
  const SIZE_MASK: Word := 0xFFFF_FFFC
  const NOT_FREE: Word := 0xFFFF_FFFE
  const NOT_PREV_FREE: Word := 0xFFFF_FFFD

  /** The header of a block of this size, by its own and its predecessor's state. */
  function Header(size: nat, free: bool, prevFree: bool): nat {
    size + (if free then 1 else 0) + (if prevFree then 2 else 0)
  }

  /** Packing and unpacking a header with the C masks: each field comes back, and each flag can be set or cleared alone. */
  lemma {:induction false} HeaderBits(size: nat, free: bool, prevFree: bool)
    requires size % 4 == 0 && size < 0x1_0000_0000
    ensures var h := Header(size, free, prevFree);
            && h < 0x1_0000_0000
            && And(h, SIZE_MASK) == size
            && (And(h, FLAG_FREE) != 0 <==> free)
            && (And(h, FLAG_PREV_FREE) != 0 <==> prevFree)
            && Or(h, FLAG_FREE) == Header(size, true, prevFree)
            && Or(h, FLAG_PREV_FREE) == Header(size, free, true)
            && And(h, NOT_FREE) == Header(size, false, prevFree)
            && And(h, NOT_PREV_FREE) == Header(size, free, false)
  {
    hide And, Or;
    var h := Header(size, free, prevFree);
    HeaderParts(size, free, prevFree);
    ClearLow(h);
    OrOne(h);
    OrTwo(h);
  }

  lemma {:induction false} HeaderParts(size: nat, free: bool, prevFree: bool)
    requires size % 4 == 0 && size < 0x1_0000_0000
    ensures var h := Header(size, free, prevFree);
            h < 0x1_0000_0000 && h / 2 / 2 == size / 4 && h % 2 == (if free then 1 else 0) && h / 2 % 2 == if prevFree then 1 else 0
  {
  }

  /** The masks of a 32-bit word, bit by bit. */
  lemma {:induction false} ClearLow(h: nat)
    requires h < 0x1_0000_0000
    ensures And(h, SIZE_MASK) == 4 * (h / 2 / 2) && And(h, FLAG_FREE) == h % 2 && And(h, FLAG_PREV_FREE) == 2 * (h / 2 % 2)
    ensures And(h, NOT_FREE) == h - h % 2 && And(h, NOT_PREV_FREE) == h - (h / 2 % 2) * 2
  {
    hide And;
    var q := h / 2 / 2;
    AllOnes30(q);
    AndEven(h, 0x7FFF_FFFE);
    AndEven(h / 2, 0x3FFF_FFFF);
    AndEven(h, 0x7FFF_FFFF);
    AndOdd(h / 2, 0x3FFF_FFFF);
    AndOdd(h, 0x7FFF_FFFE);
    AndOdd(h, 0);
    AndEven(h, 1);
    AndOdd(h / 2, 0);
    AndZero(h / 2);
    AndZero(q);
  }

  lemma {:induction false} KeepPrevFree(s: nat, free: bool, prevFree: bool)
    requires s % 4 == 0
    ensures And(Header(s, free, prevFree), FLAG_PREV_FREE) == if prevFree then 2 else 0
  {
    var h := Header(s, free, prevFree);
    assert h / 2 % 2 == if prevFree then 1 else 0;
    assert And(h, 2) == 2 * And(h / 2, 1);
    assert And(h / 2, 1) == h / 2 % 2 + 2 * And(h / 2 / 2, 0);
  }

  /** Composing a header from a size and another header's PREV_FREE bit. */
  lemma {:induction false} HeaderCompose(size: nat, s: nat, free: bool, prevFree: bool)
    requires size % 4 == 0 && s % 4 == 0 && size < 0x1_0000_0000
    ensures var keep := And(Header(s, free, prevFree), FLAG_PREV_FREE);
            && Or(size, keep) == Header(size, false, prevFree)
            && Or(Or(size, FLAG_FREE), keep) == Header(size, true, prevFree)
            && Or(size, FLAG_FREE) == Header(size, true, false)
  {
    HeaderBits(size, false, false);
    HeaderBits(size, true, false);
    KeepPrevFree(s, free, prevFree);
  }

  // --------------------------------------------------------------------- tags

  /** From address a on, memory holds the tags of the row bs. */
  ghost predicate Tags(m: Mem, a: int, bs: seq<Block>, pf: bool)
    decreases |bs|
  {
    bs != [] ==>
      var b := bs[0];
      && a in m && m[a] == Header(b.size, b.free, pf)
      && a + b.size - 4 in m && m[a + b.size - 4] == b.size
      && Tags(m, a + b.size, bs[1..], b.free)
  }

  lemma {:induction false} TagsConcat(m: Mem, a: int, xs: seq<Block>, ys: seq<Block>, pf: bool)
    ensures Tags(m, a, xs + ys, pf) <==> Tags(m, a, xs, pf) && Tags(m, a + Total(xs), ys, LastFree(xs, pf))
    decreases |xs|
  {
    if xs == [] {
      assert xs + ys == ys;
    } else {
      assert (xs + ys)[1..] == xs[1..] + ys;
      TagsConcat(m, a + xs[0].size, xs[1..], ys, xs[0].free);
    }
  }

  // --------------------------------------------------------------------- free list

  /** The addresses of the free blocks, in address order. */
  ghost function FreeAddrs(a: int, bs: seq<Block>): seq<int>
    decreases |bs|
  {
    if bs == [] then []
    else (if bs[0].free then [a] else []) + FreeAddrs(a + bs[0].size, bs[1..])
  }

  lemma {:induction false} FreeAddrsConcat(a: int, xs: seq<Block>, ys: seq<Block>)
    ensures FreeAddrs(a, xs + ys) == FreeAddrs(a, xs) + FreeAddrs(a + Total(xs), ys)
    decreases |xs|
  {
    if xs == [] {
      assert xs + ys == ys;
    } else {
      assert (xs + ys)[1..] == xs[1..] + ys;
      FreeAddrsConcat(a + xs[0].size, xs[1..], ys);
    }
  }

  ghost predicate Ascending(fl: seq<int>) {
    forall i, j :: 0 <= i < j < |fl| ==> fl[i] < fl[j]
  }

  lemma {:induction false} Above(a: int, size: int, tail: seq<int>)
    requires Ascending(tail) && size > 0 && forall f <- tail :: a + size <= f
    ensures Ascending([a] + tail)
  {
    assert forall j :: 0 <= j < |tail| ==> tail[j] in tail;
  }

  /** Free addresses ascend and leave room for the whole block. */
  lemma {:induction false} FreeAddrsBounds(a: int, bs: seq<Block>, pf: bool)
    requires Row(bs, pf)
    ensures Ascending(FreeAddrs(a, bs))
    ensures forall f <- FreeAddrs(a, bs) :: a <= f && f + MIN_BLOCK <= a + Total(bs)
    decreases |bs|
  {
    if bs != [] {
      var tail := FreeAddrs(a + bs[0].size, bs[1..]);
      FreeAddrsBounds(a + bs[0].size, bs[1..], bs[0].free);
      RowTotal(bs, pf);
      hide FreeAddrs, Row;
      Above(a, bs[0].size, tail);
    }
  }

  /** Element k of the list, or NULL past its end. */
  ghost function At(fl: seq<int>, k: nat): int {
    if k < |fl| then fl[k] else 0
  }

  /** The link word of the k-th element names the next. */
  ghost predicate Link(m: Mem, fl: seq<int>, k: nat)
    requires k < |fl|
  {
    fl[k] + 4 in m && m[fl[k] + 4] == At(fl, k + 1)
  }

  /** From p, following link words visits exactly fl. */
  ghost predicate Chain(m: Mem, p: int, fl: seq<int>) {
    p == At(fl, 0) && forall k :: 0 <= k < |fl| ==> Link(m, fl, k)
  }

  lemma {:induction false} ChainFrame(m: Mem, m': Mem, p: int, fl: seq<int>)
    requires Chain(m, p, fl) && forall f <- fl :: f + 4 in m ==> f + 4 in m' && m'[f + 4] == m[f + 4]
    ensures Chain(m', p, fl)
  {
    forall k | 0 <= k < |fl| ensures Link(m', fl, k) {
      assert Link(m, fl, k) && fl[k] in fl;
    }
  }

  /** The list with b put where the address order wants it. */
  ghost function Insert(fl: seq<int>, b: int): seq<int> {
    if fl == [] || b < fl[0] then [b] + fl else [fl[0]] + Insert(fl[1..], b)
  }

  /** The list without its first b. */
  ghost function Without(fl: seq<int>, b: int): seq<int> {
    if fl == [] then [] else if fl[0] == b then fl[1..] else [fl[0]] + Without(fl[1..], b)
  }

  lemma {:induction false} InsertBetween(lo: seq<int>, hi: seq<int>, b: int)
    requires (forall f <- lo :: f < b) && (forall f <- hi :: b < f)
    ensures Insert(lo + hi, b) == lo + [b] + hi
  {
    hide Insert;
    if lo == [] {
      assert lo + hi == hi && lo + [b] + hi == [b] + hi;
      InsertFirst(hi, b);
    } else {
      var rest := lo[1..];
      assert lo == [lo[0]] + rest && lo[0] in lo;
      assert lo + hi == [lo[0]] + (rest + hi) && lo + [b] + hi == [lo[0]] + (rest + [b] + hi);
      assert forall f <- rest :: f in lo;
      InsertAfter(lo[0], rest + hi, b);
      InsertBetween(rest, hi, b);
    }
  }

  lemma {:induction false} InsertFirst(fl: seq<int>, b: int)
    requires forall f <- fl :: b < f
    ensures Insert(fl, b) == [b] + fl
  {
    assert fl != [] ==> fl[0] in fl;
  }

  lemma {:induction false} InsertAfter(x: int, rest: seq<int>, b: int)
    requires x < b
    ensures Insert([x] + rest, b) == [x] + Insert(rest, b)
  {
    assert ([x] + rest)[1..] == rest;
  }

  lemma {:induction false} WithoutBetween(lo: seq<int>, hi: seq<int>, b: int)
    requires b !in lo
    ensures Without(lo + [b] + hi, b) == lo + hi
  {
    if lo == [] {
      assert lo + [b] + hi == [b] + hi;
      assert lo + hi == hi;
    } else {
      assert (lo + [b] + hi)[1..] == lo[1..] + [b] + hi;
      assert lo[0] in lo;
      WithoutBetween(lo[1..], hi, b);
      assert lo == [lo[0]] + lo[1..];
    }
  }

  lemma {:induction false} InsertMembers(fl: seq<int>, b: int)
    ensures forall x :: x in Insert(fl, b) <==> x == b || x in fl
  {
    if fl == [] || b < fl[0] {
    } else {
      InsertMembers(fl[1..], b);
      assert fl == [fl[0]] + fl[1..];
    }
  }

  lemma {:induction false} InsertAt(fl: seq<int>, k: nat, b: int)
    requires Ascending(fl) && b !in fl && k <= |fl|
    requires (forall j :: 0 <= j < k ==> fl[j] < b) && (k < |fl| ==> fl[k] >= b)
    ensures Insert(fl, b) == fl[..k] + [b] + fl[k..]
  {
    assert fl == fl[..k] + fl[k..];
    assert k < |fl| ==> fl[k] in fl;
    InsertBetween(fl[..k], fl[k..], b);
  }

  lemma {:induction false} WithoutAt(fl: seq<int>, k: nat)
    requires k < |fl| && fl[k] !in fl[..k]
    ensures Without(fl, fl[k]) == fl[..k] + fl[k + 1..]
  {
    assert fl == fl[..k] + [fl[k]] + fl[k + 1..];
    WithoutBetween(fl[..k], fl[k + 1..], fl[k]);
  }

  lemma {:induction false} WithoutAbsent(fl: seq<int>, b: int)
    requires b !in fl
    ensures Without(fl, b) == fl
  {
    if fl != [] { WithoutAbsent(fl[1..], b); }
  }

  /** Linking b in behind the k-th element. */
  lemma {:induction false} ChainInsert(m: Mem, p: int, fl: seq<int>, k: nat, b: Word, m': Mem)
    requires Chain(m, p, fl) && Distinct(fl) && b !in fl && k <= |fl| && 0 <= At(fl, k) < 0x1_0000_0000
    requires m' == if k == 0 then m[b + 4 := At(fl, k)] else m[b + 4 := At(fl, k)][fl[k - 1] + 4 := b]
    ensures Chain(m', if k == 0 then b else p, fl[..k] + [b] + fl[k..])
  {
    var fl' := fl[..k] + [b] + fl[k..];
    forall j | 0 <= j < |fl'| ensures Link(m', fl', j) {
      if j < k {
        assert fl'[j] == fl[j] && fl[j] in fl && Link(m, fl, j);
      } else if j > k {
        assert fl'[j] == fl[j - 1] && fl[j - 1] in fl && Link(m, fl, j - 1);
      }
    }
  }

  /** Unlinking the k-th element. */
  lemma {:induction false} ChainRemove(m: Mem, p: int, fl: seq<int>, k: nat, m': Mem)
    requires Chain(m, p, fl) && Distinct(fl) && k < |fl| && Link(m, fl, k)
    requires m' == if k == 0 then m else m[fl[k - 1] + 4 := m[fl[k] + 4]]
    ensures Chain(m', if k == 0 then m[p + 4] else p, fl[..k] + fl[k + 1..])
  {
    var fl' := fl[..k] + fl[k + 1..];
    assert Link(m, fl, k);
    forall j | 0 <= j < |fl'| ensures Link(m', fl', j) {
      var i := if j < k then j else j + 1;
      assert fl'[j] == fl[i] && Link(m, fl, i);
    }
  }

  /** m' differs from m at most in link words of fl's blocks and at the extra address. */
  ghost predicate LinksOnly(m: Mem, m': Mem, fl: seq<int>, extra: int) {
    && m'.Keys == m.Keys
    && forall x :: x in m ==> m'[x] == m[x] || x - 4 in fl || x == extra
  }

  ghost predicate IsTag(a: int, bs: seq<Block>, x: int)
    decreases |bs|
  {
    bs != [] && (x == a || x == a + bs[0].size - 4 || IsTag(a + bs[0].size, bs[1..], x))
  }

  lemma {:induction false} TagNotLink(a: int, bs: seq<Block>, pf: bool, x: int)
    requires Row(bs, pf) && IsTag(a, bs, x)
    ensures a <= x < a + Total(bs) && x - 4 !in FreeAddrs(a, bs)
    decreases |bs|
  {
    var a', rest := a + bs[0].size, bs[1..];
    FreeAddrsBounds(a', rest, bs[0].free);
    RowTotal(rest, bs[0].free);
    if IsTag(a', rest, x) { TagNotLink(a', rest, bs[0].free, x); }
  }

  lemma {:induction false} TagsSame(m: Mem, m': Mem, a: int, bs: seq<Block>, pf: bool)
    requires Tags(m, a, bs, pf) && forall x :: x in m && IsTag(a, bs, x) ==> x in m' && m'[x] == m[x]
    ensures Tags(m', a, bs, pf)
    decreases |bs|
  {
    if bs != [] { TagsSame(m, m', a + bs[0].size, bs[1..], bs[0].free); }
  }

  /** Link words are not tags: rewriting them, or anything outside the row, keeps the tags. */
  lemma {:induction false} TagsFrame(m: Mem, m': Mem, a: int, bs: seq<Block>, pf: bool)
    requires Row(bs, pf) && Tags(m, a, bs, pf)
    requires forall x :: x in m && a <= x < a + Total(bs) ==> x in m' && (m'[x] == m[x] || x - 4 in FreeAddrs(a, bs))
    ensures Tags(m', a, bs, pf)
  {
    forall x | x in m && IsTag(a, bs, x) ensures x in m' && m'[x] == m[x] {
      TagNotLink(a, bs, pf, x);
    }
    TagsSame(m, m', a, bs, pf);
  }

  // --------------------------------------------------------------------- ownership

  /** Words that belong to the allocator: tags, and the whole of every free block. */
  ghost predicate Owned(a: int, bs: seq<Block>, x: int)
    decreases |bs|
  {
    bs != [] &&
    ((a <= x < a + bs[0].size && (bs[0].free || x < a + 4 || x >= a + bs[0].size - 4))
     || Owned(a + bs[0].size, bs[1..], x))
  }

  lemma {:induction false} OwnedConcat(a: int, xs: seq<Block>, ys: seq<Block>, x: int)
    ensures Owned(a, xs + ys, x) <==> Owned(a, xs, x) || Owned(a + Total(xs), ys, x)
    decreases |xs|
  {
    if xs == [] {
      assert xs + ys == ys;
    } else {
      assert (xs + ys)[1..] == xs[1..] + ys;
      OwnedConcat(a + xs[0].size, xs[1..], ys, x);
    }
  }

  lemma {:induction false} LinkOwned(a: int, bs: seq<Block>, pf: bool, f: int)
    requires Row(bs, pf) && f in FreeAddrs(a, bs)
    ensures Owned(a, bs, f + 4)
    decreases |bs|
  {
    if f != a || !bs[0].free { LinkOwned(a + bs[0].size, bs[1..], bs[0].free, f); }
  }

  lemma {:induction false} TagOwned(a: int, bs: seq<Block>, pf: bool, x: int)
    requires Row(bs, pf) && IsTag(a, bs, x)
    ensures Owned(a, bs, x)
    decreases |bs|
  {
    if IsTag(a + bs[0].size, bs[1..], x) { TagOwned(a + bs[0].size, bs[1..], bs[0].free, x); }
  }

  /** x is a payload word of the block handed out at y. */
  predicate PayloadOf(bs: seq<Block>, y: int, x: int) {
    y in Live(HEAP_START, bs) && y + 4 <= x < y + Live(HEAP_START, bs)[y] - 4
  }

  /** No word of a live payload belongs to the allocator. */
  lemma {:induction false} PayloadNotOwned(a: int, bs: seq<Block>, pf: bool, y: int, x: int)
    requires Row(bs, pf) && y in Live(a, bs) && y + 4 <= x < y + Live(a, bs)[y] - 4
    ensures !Owned(a, bs, x)
    decreases |bs|
  {
    var a', rest := a + bs[0].size, bs[1..];
    if y == a && !bs[0].free {
      if Owned(a', rest, x) { OwnedInside(a', rest, bs[0].free, x); }
    } else {
      LiveInside(a', rest, bs[0].free, y);
      PayloadNotOwned(a', rest, bs[0].free, y, x);
    }
  }

  lemma {:induction false} OwnedInside(a: int, bs: seq<Block>, pf: bool, x: int)
    requires Row(bs, pf) && Owned(a, bs, x)
    ensures a <= x < a + Total(bs)
    decreases |bs|
  {
    if Owned(a + bs[0].size, bs[1..], x) { OwnedInside(a + bs[0].size, bs[1..], bs[0].free, x); }
  }
}
