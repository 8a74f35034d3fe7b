/**
 Whole runs of the kernel heap: any sequence of kmalloc, kfree and client stores that a
 well-behaved client can make. A client frees only what it holds and stores only into payloads.
 */
module HeapRuns {
  import opened Basics
  import opened Bits
  import opened HeapBlocks
  import opened HeapWords
  import opened KernelHeap

  datatype Op =
    | Malloc(size: Word, avail: nat)  // avail: page frames free at that moment
    | Free(ptr: int)
    | Store(addr: int, value: Word)

  /** What a well-behaved client may do when the heap is the row bs. */
  ghost predicate Legal(bs: seq<Block>, op: Op) {
    match op
    case Malloc(size, avail) =>
      && CanGrow(bs, BlockBytes(size))
      && Total(bs) + avail * PAGE_SIZE <= NUM_PAGES * PAGE_SIZE
    case Free(ptr) => ptr == 0 || ptr - 4 in Live(HEAP_START, bs)
    case Store(addr, _) => addr % 4 == 0 && IsPayload(bs, addr)
  }

  ghost predicate CanServe(bs: seq<Block>, size: Word, avail: nat) {
    var n := BlockBytes(size);
    size > 0 && (FindFit(bs, n) < |bs| || (n <= avail * PAGE_SIZE && n <= WRAP - PAGE_SIZE))
  }

  /** The row after one operation. */
  ghost function StepRow(bs: seq<Block>, op: Op): (bs': seq<Block>)
    requires WellFormed(bs) && Legal(bs, op)
    ensures WellFormed(bs')
  {
    match op
    case Malloc(size, avail) =>
      BlockBytesRoom(size);
      if CanServe(bs, size, avail) then
        var n := BlockBytes(size);
        WithRoomLive(bs, n);
        var g := WithRoom(bs, n);
        TakeWellFormed(g, FindFit(g, n), n);
        Take(g, FindFit(g, n), n)
      else bs
    case Free(ptr) => if ptr == 0 then bs else ReleaseAt(bs, ptr - 4)
    case Store(_, _) => bs
  }

  ghost predicate LegalRun(bs: seq<Block>, ops: seq<Op>)
    requires WellFormed(bs)
    decreases |ops|
  {
    ops != [] ==> Legal(bs, ops[0]) && LegalRun(StepRow(bs, ops[0]), ops[1..])
  }

  ghost function RunRow(bs: seq<Block>, ops: seq<Op>): (bs': seq<Block>)
    requires WellFormed(bs) && LegalRun(bs, ops)
    ensures WellFormed(bs')
    decreases |ops|
  {
    if ops == [] then bs else RunRow(StepRow(bs, ops[0]), ops[1..])
  }

  /** One operation other than its own free leaves a live block live, in place and of the same size. */
  lemma {:induction false} StepKeepsLive(bs: seq<Block>, op: Op, y: int)
    requires WellFormed(bs) && Legal(bs, op) && y in Live(HEAP_START, bs) && op != Free(y + 4)
    ensures var live, live' := Live(HEAP_START, bs), Live(HEAP_START, StepRow(bs, op));
            y in live' && live'[y] == live[y]
  {
    hide Live, Row, FindFit, Take, WithRoom, IsPayload;
    match op
    case Malloc(size, avail) =>
      BlockBytesRoom(size);
      if CanServe(bs, size, avail) {
        var n := BlockBytes(size);
        WithRoomLive(bs, n);
        var g := WithRoom(bs, n);
        TakeLive(g, FindFit(g, n), n);
      }
    case Free(ptr) =>
    case Store(_, _) =>
  }

  /** Over a whole run: a block that is never freed stays live, in place and of the same size. */
  lemma {:induction false} RunKeepsLive(bs: seq<Block>, ops: seq<Op>, y: int)
    requires WellFormed(bs) && LegalRun(bs, ops) && y in Live(HEAP_START, bs) && Free(y + 4) !in ops
    ensures var live, live' := Live(HEAP_START, bs), Live(HEAP_START, RunRow(bs, ops));
            y in live' && live'[y] == live[y]
    decreases |ops|
  {
    hide Live, Row, StepRow, Legal;
    if ops != [] {
      StepKeepsLive(bs, ops[0], y);
      RunKeepsLive(StepRow(bs, ops[0]), ops[1..], y);
    }
  }

  /** However a run interleaves, once nothing is handed out any more the heap is one free block. */
  lemma {:induction false} RunFreedIsOneBlock(bs: seq<Block>, ops: seq<Op>)
    requires WellFormed(bs) && bs != [] && LegalRun(bs, ops) && Live(HEAP_START, RunRow(bs, ops)) == map[]
    ensures RunRow(bs, ops) == [Block(Total(RunRow(bs, ops)), true)] && Total(RunRow(bs, ops)) >= Total(bs)
  {
    hide Live, Row;
    RunTotal(bs, ops);
    AllFreeIsOneBlock(RunRow(bs, ops));
  }

  /** The heap never shrinks. */
  lemma {:induction false} RunTotal(bs: seq<Block>, ops: seq<Op>)
    requires WellFormed(bs) && bs != [] && LegalRun(bs, ops)
    ensures RunRow(bs, ops) != [] && Total(RunRow(bs, ops)) >= Total(bs)
    decreases |ops|
  {
    hide Live, Row, IsPayload, FindFit, Take, Extend, Total;
    if ops != [] {
      var op, bs' := ops[0], StepRow(bs, ops[0]);
      assert bs' != [] && Total(bs') >= Total(bs) by {
        if op.Malloc? && CanServe(bs, op.size, op.avail) { ServedTotal(bs, op.size); }
        EmptyTotal(bs, bs');
      }
      RunTotal(bs', ops[1..]);
    }
  }

  lemma {:induction false} ServedTotal(bs: seq<Block>, size: Word)
    requires WellFormed(bs) && (FindFit(bs, BlockBytes(size)) < |bs| || BlockBytes(size) <= WRAP - PAGE_SIZE)
    ensures var n := BlockBytes(size);
            var g := WithRoom(bs, n);
            FindFit(g, n) < |g| && Total(Take(g, FindFit(g, n), n)) >= Total(bs)
  {
    hide Live, Row, Take, Extend, Total, PagesFor, BlockBytes;
    var n := BlockBytes(size);
    BlockBytesRoom(size);
    WithRoomLive(bs, n);
    if FindFit(bs, n) >= |bs| {
      PagesCover(n);
      ExtendWellFormed(bs, PagesFor(n) * PAGE_SIZE);
    }
    TakeWellFormed(WithRoom(bs, n), FindFit(WithRoom(bs, n), n), n);
  }

  lemma {:induction false} EmptyTotal(bs: seq<Block>, bs': seq<Block>)
    requires WellFormed(bs) && bs != [] && Total(bs') >= Total(bs)
    ensures bs' != []
  {
    RowTotal(bs, false);
  }

  predicate StoresTo(ops: seq<Op>, x: int) {
    exists i :: 0 <= i < |ops| && ops[i].Store? && ops[i].addr == x
  }

  /**
   Run the operations on the kernel heap itself. The invariant survives every run, the row evolves as
   RunRow says, and a payload word of a block that is never freed changes only by the client's own stores.
   */
  method Run(h: Heap, ops: seq<Op>, contents: int -> Word)
    requires h.Valid() && LegalRun(h.blocks, ops)
    modifies h
    ensures h.Valid()
    ensures old(WellFormed(h.blocks) && LegalRun(h.blocks, ops)) && h.blocks == RunRow(old(h.blocks), ops)
    ensures forall y, x | x in old(h.mem) && old(PayloadOf(h.blocks, y, x)) && Free(y + 4) !in ops && !StoresTo(ops, x) ::
              x in h.mem && h.mem[x] == old(h.mem)[x]
    decreases |ops|
  {
    hide Row, Live, StepRow, Legal, Good;
    GoodEnd(h.mem, h.freeList, h.heapEnd, h.blocks);
    if ops == [] {
      return;
    }
    Perform(h, ops[0], contents);
    ghost var bs, bs1, m1 := old(h.blocks), h.blocks, h.mem;
    Run(h, ops[1..], contents);
    forall y, x | x in old(h.mem) && PayloadOf(bs, y, x) && Free(y + 4) !in ops && !StoresTo(ops, x)
      ensures x in h.mem && h.mem[x] == old(h.mem)[x]
    {
      StepKeepsLive(bs, ops[0], y);
      assert PayloadOf(bs1, y, x);
      assert ops[0].Store? ==> ops[0].addr != x;
      assert forall i :: 0 <= i < |ops[1..]| ==> ops[1..][i] == ops[i + 1];
    }
  }

  /** One operation. */
  method Perform(h: Heap, op: Op, contents: int -> Word)
    requires h.Valid() && Legal(h.blocks, op)
    modifies h
    ensures h.Valid() && h.blocks == StepRow(old(h.blocks), op)
    ensures forall y, x | x in old(h.mem) && old(PayloadOf(h.blocks, y, x)) && op != Free(y + 4) && !StoresTo([op], x) ::
              x in h.mem && h.mem[x] == old(h.mem)[x]
  {
    hide Row, Live, FindFit, Take, WithRoom, Extend, Good, ReleaseAt, And;
    GoodEnd(h.mem, h.freeList, h.heapEnd, h.blocks);
    ghost var bs := h.blocks;
    match op
    case Malloc(size, avail) =>
      BlockBytesRoom(size);
      var ptr := h.Alloc(size, avail, contents);
    case Free(ptr) =>
      h.Free(ptr);
      assert forall y, x | PayloadOf(bs, y, x) && op != Free(y + 4) :: PayloadOf(h.blocks, y, x);
    case Store(addr, value) =>
      h.StoreWord(addr, value);
      assert op == [op][0];
  }

  /** kmalloc and kfree of what it returned: the row is what it was after any growth. */
  method AllocAndFree(h: Heap, size: Word, avail: nat, contents: int -> Word) returns (ptr: int)
    requires h.Valid() && Legal(h.blocks, Malloc(size, avail))
    modifies h
    ensures h.Valid() && h.blocks == if ptr == 0 then old(h.blocks) else WithRoom(old(h.blocks), BlockBytes(size))
    ensures KeepsPayloads(old(h.mem), h.mem, old(h.blocks))
  {
    hide Row, Live, FindFit, Take, Extend, Good, ReleaseAt, And, KeepsPayloads, IsPayload, PagesFor;
    GoodEnd(h.mem, h.freeList, h.heapEnd, h.blocks);
    BlockBytesRoom(size);
    ghost var bs, m0 := h.blocks, h.mem;
    ptr := h.Alloc(size, avail, contents);
    if ptr == 0 {
      return;
    }
    ghost var n, m1 := BlockBytes(size), h.mem;
    ghost var g := WithRoom(bs, n);
    WithRoomLive(bs, n);
    ReleaseAtUndoesTake(g, FindFit(g, n), n);
    h.Free(ptr);
    KeepsFewer(m1, h.mem, bs, g);
    KeepsTrans(m0, m1, h.mem, bs);
  }

  /** The block that fills the heap of heap_init, and a request that needs two pages more. */
  lemma {:induction false} FullHeap()
    ensures BlockBytes(0x3FFF8) == HEAP_INIT_PAGES * PAGE_SIZE
    ensures BlockBytes(5000) == 5008
    ensures forall n :: FindFit([Block(HEAP_INIT_PAGES * PAGE_SIZE, false)], n) == 1
    ensures BlockBytes(0xFFFF_FFF4) > WRAP - PAGE_SIZE
    ensures var bs := [Block(HEAP_INIT_PAGES * PAGE_SIZE, true)];
            && FindFit(bs, HEAP_INIT_PAGES * PAGE_SIZE) == 0
            && Take(bs, 0, HEAP_INIT_PAGES * PAGE_SIZE) == [Block(HEAP_INIT_PAGES * PAGE_SIZE, false)]
  {
    hide And;
    BlockBytesRoom(0x3FFF8);
    BlockBytesRoom(5000);
    BlockBytesRoom(0xFFFF_FFF4);
  }

  /**
   From heap_init: one block fills the heap, a growth runs out of frames after one page, and growth for a need
   whose page count wraps then succeeds. No row of blocks fits memory afterwards.
   */
  method BreakHeap(contents: int -> Word) returns (h: Heap, ok: bool)
    ensures fresh(h) && ok && forall p, bs :: !Good(h.mem, p, h.heapEnd, bs)
  {
    hide Row, Live, FindFit, Take, Extend, Good, And, KeepsPayloads, PagesFor, BlockBytes;
    FullHeap();
    h := new Heap(contents);
    GoodEnd(h.mem, h.freeList, h.heapEnd, h.blocks);
    var full := h.Alloc(0x3FFF8, 0, contents);
    GoodEnd(h.mem, h.freeList, h.heapEnd, h.blocks);
    var none := h.Alloc(5000, 1, contents);
    GoodEnd(h.mem, h.freeList, h.heapEnd, h.blocks);
    assert WordAt(h.mem, h.heapEnd) && WordAt(h.mem, h.heapEnd + 4);
    ok := h.GrowNothing(BlockBytes(0xFFFF_FFF4));
  }
}
