/** page_cache_find, page_cache_alloc_slot, readpage, tarfs_readpage and tarfs_read. */
module TarFs {
  import opened Basics
  import opened Bits
  import opened Octal
  import opened Tar
  import opened PageCache

  const READAHEAD := 4

  /** Page numbers below 4 GiB. */
  const PAGES := 0x10_0000

  // ------------------------------------------------------------------ what a read asks for

  /** The requested length, clipped to what the file has past off. */
  function Want(size: nat, off: nat, len: nat): nat {
    if size <= off then 0 else if len <= size - off then len else size - off
  }

  /** It is the greatest length that is no more than asked for and stays inside the file. */
  lemma {:induction false} WantIsGreatest(size: nat, off: nat, len: nat, n: nat)
    ensures Want(size, off, len) <= len && (Want(size, off, len) > 0 ==> off + Want(size, off, len) <= size)
    ensures n <= len && off + n <= size ==> n <= Want(size, off, len)
  {
  }

  function FirstPage(off: nat): nat { off / PAGE_SIZE }

  function EndPage(off: nat, want: nat): nat { (off + want + PAGE_SIZE - 1) / PAGE_SIZE }

  /** The pages of a file from lo up to hi. */
  function Between(ino: nat, lo: nat, hi: nat): set<Page> {
    set p: Word | lo <= p < hi :: Page(ino, p)
  }

  /** The pages a read touches. */
  function Wanted(ino: nat, off: nat, want: nat): set<Page> {
    if want == 0 then {} else Between(ino, FirstPage(off), EndPage(off, want))
  }

  /** There is a slot and a frame for every page. */
  predicate Fits(cached: set<Page>, pool: nat, wanted: set<Page>) {
    |cached + wanted| <= SLOTS && |wanted - cached| <= pool
  }

  /** The ssize_t that carries a size_t. */
  function Signed(n: nat): int
    requires n < WRAP
  {
    if n < 0x8000_0000 then n else n - WRAP
  }

  lemma {:induction false} SubsetSize(a: set<Page>, b: set<Page>)
    requires a <= b
    ensures |a| <= |b| && (|a| == |b| ==> a == b)
  {
    if a != {} {
      var x :| x in a;
      SubsetSize(a - {x}, b - {x});
    }
  }

  lemma {:induction false} UnionSize(a: set<Page>, b: set<Page>)
    ensures |a + b| == |a| + |b - a|
  {
    assert a + b == a + (b - a);
  }

  /** The cache after reading some of the wanted pages: each new page cost one frame. */
  predicate Grew(c: set<Page>, pool: nat, wanted: set<Page>, c': set<Page>, pool': nat) {
    c <= c' <= c + wanted && |c'| + pool' == |c| + pool && |c'| <= SLOTS
  }

  /** A wanted page that finds no slot or no frame shows that the pages did not fit. */
  lemma {:induction false} CannotFit(c: set<Page>, pool: nat, wanted: set<Page>, c': set<Page>, pool': nat, p: Page)
    requires Grew(c, pool, wanted, c', pool') && p in wanted && p !in c' && (|c'| == SLOTS || pool' == 0)
    ensures !Fits(c, pool, wanted)
  {
    SubsetSize(c' + {p}, c + wanted);
    UnionSize(c, wanted);
  }

  /** Having read them all shows that they did. */
  lemma {:induction false} DidFit(c: set<Page>, pool: nat, wanted: set<Page>, c': set<Page>, pool': nat)
    requires Grew(c, pool, wanted, c', pool') && wanted <= c'
    ensures Fits(c, pool, wanted)
  {
    assert c' == c + wanted;
    UnionSize(c, wanted);
  }

  lemma {:induction false} BetweenSize(ino: nat, lo: nat, hi: nat)
    requires lo <= hi <= WRAP
    ensures |Between(ino, lo, hi)| == hi - lo
    decreases hi
  {
    if lo < hi {
      BetweenSize(ino, lo, hi - 1);
      assert Between(ino, lo, hi) == Between(ino, lo, hi - 1) + {Page(ino, hi - 1)};
    } else {
      assert Between(ino, lo, hi) == {};
    }
  }

  /** From an empty cache, a read is whole exactly when it touches at most 64 pages and there is a frame for each. */
  lemma {:induction false} EmptyCacheFits(ino: nat, off: nat, want: nat, pool: nat)
    requires want > 0 && off + want <= WRAP
    ensures Fits({}, pool, Wanted(ino, off, want)) <==> EndPage(off, want) - FirstPage(off) <= if pool < SLOTS then pool else SLOTS
  {
    hide Between;
    BetweenSize(ino, FirstPage(off), EndPage(off, want));
    var wanted := Wanted(ino, off, want);
    assert {} + wanted == wanted && wanted - {} == wanted;
  }

  // ------------------------------------------------------------------ the copied bytes

  /** Where the copy stands when page pgoff is next. */
  predicate At(off: nat, want: nat, pgoff: nat, total: nat) {
    if pgoff <= FirstPage(off) then pgoff == FirstPage(off) && total == 0
    else total == if off + want <= pgoff * PAGE_SIZE then want else pgoff * PAGE_SIZE - off
  }

  /** struct file and struct tarfs_file. */
  class File {
    var ino: nat
    var pos: nat
    var hasPrivate: bool
    var lastPgoff: Word

    /** vfs_open and tarfs_open. */
    constructor (ino: nat)
      ensures this.ino == ino && pos == 0 && hasPrivate && lastPgoff == 0
    {
      this.ino := ino;
      pos := 0;
      hasPrivate := true;
      lastPgoff := 0;
    }
  }

  function PageOff(off: nat, pgoff: nat): nat { if pgoff == off / PAGE_SIZE then off % PAGE_SIZE else 0 }

  function PageLen(off: nat, want: nat, pgoff: nat, total: nat): nat
    requires total <= want
  {
    var n := PAGE_SIZE - PageOff(off, pgoff);
    if n > want - total then want - total else n
  }

  /** One page's copy continues where the last one stopped and stays inside the page's part of the file. */
  lemma {:induction false} PageStep(f: Inode, off: nat, len: nat, pgoff: Word, total: nat)
    requires var want := Want(f.size, off, len); want > 0 && FirstPage(off) <= pgoff < EndPage(off, want) && At(off, want, pgoff, total)
    ensures var want := Want(f.size, off, len);
            && total < want && pgoff * PAGE_SIZE < f.size
            && off + total == pgoff * PAGE_SIZE + PageOff(off, pgoff)
            && PageOff(off, pgoff) + PageLen(off, want, pgoff, total) <= Count(f, pgoff) <= PAGE_SIZE
            && At(off, want, pgoff + 1, total + PageLen(off, want, pgoff, total))
  {
    var want := Want(f.size, off, len);
    assert off == off / PAGE_SIZE * PAGE_SIZE + off % PAGE_SIZE;
    BelowEnd(off + want, pgoff);
    assert FirstPage(off) < pgoff ==> off / PAGE_SIZE * PAGE_SIZE + PAGE_SIZE <= pgoff * PAGE_SIZE;
  }

  lemma {:induction false} BelowEnd(n: nat, p: nat)
    requires p < (n + PAGE_SIZE - 1) / PAGE_SIZE
    ensures p * PAGE_SIZE < n
  {
  }

  lemma {:induction false} AtEnd(off: nat, want: nat, total: nat)
    requires want > 0 && At(off, want, EndPage(off, want), total)
    ensures total == want
  {
    var e := EndPage(off, want);
    assert off + want <= e * PAGE_SIZE;
    assert off == off / PAGE_SIZE * PAGE_SIZE + off % PAGE_SIZE;
  }

  lemma {:induction false} TakenSlice(s: Bytes, c: nat, from: nat, n: nat)
    requires from + n <= c <= |s|
    ensures s[..c][from..from + n] == s[from..from + n]
  {
    var t, u := s[..c][from..from + n], s[from..from + n];
    assert forall i :: 0 <= i < n ==> t[i] == u[i];
  }

  /** The bytes a page contributes are the image's. */
  lemma {:induction false} PageSlice(image: Bytes, f: Inode, pgoff: Word, content: Bytes, from: nat, n: nat)
    requires HasPage(image, f, pgoff, content) && from + n <= Count(f, pgoff)
    ensures content[from..from + n] == image[f.offset + pgoff * PAGE_SIZE + from..f.offset + pgoff * PAGE_SIZE + from + n]
  {
    var at, c := f.offset + pgoff * PAGE_SIZE, Count(f, pgoff);
    assert content[..c] == image[at..at + c];
    hide HasPage, Count;
    TakenSlice(content, c, from, n);
    SubSlice(image, at, c, from, n);
  }

  lemma {:induction false} Joined(image: Bytes, at: nat, m: nat, n: nat)
    requires at + m + n <= |image|
    ensures image[at..at + m] + image[at + m..at + m + n] == image[at..at + m + n]
  {
  }

  /** The buffer holds the image's bytes up to total, and is untouched beyond. */
  ghost predicate Delivered(image: Bytes, at: nat, total: nat, was: Bytes, now: Bytes) {
    && total <= |now| == |was| && at + total <= |image|
    && now[..total] == image[at..at + total] && now[total..] == was[total..]
  }

  lemma {:induction false} DeliveredMore(image: Bytes, at: nat, total: nat, n: nat, was: Bytes, mid: Bytes, now: Bytes)
    requires Delivered(image, at, total, was, mid) && total + n <= |mid| == |now| && at + total + n <= |image|
    requires now[..total] == mid[..total] && now[total..total + n] == image[at + total..at + total + n]
             && now[total + n..] == mid[total + n..]
    ensures Delivered(image, at, total + n, was, now)
  {
    Joined(image, at, total, n);
    assert now[..total + n] == now[..total] + now[total..total + n];
    assert mid[total + n..] == mid[total..][n..] == was[total + n..];
  }

  class FileSystem {
    const image: Bytes
    const files: map<nat, Inode>
    const slots: array<Slot>
    var mem: map<nat, Bytes>
    var pool: seq<nat>
    ghost var faults: nat

    ghost predicate Valid()
      reads this, slots
    {
      Good(slots[..], pool, mem, files, image)
    }

    ghost function Pages(): set<Page>
      reads slots
    {
      Cached(slots[..])
    }

    /** An empty cache over a device, with a pool of free frames. */
    constructor (image: Bytes, files: map<nat, Inode>, mem: map<nat, Bytes>, pool: seq<nat>)
      requires FilesOk(files, image) && PoolOk([], pool, mem)
      ensures Valid() && Pages() == {} && this.image == image && this.files == files && this.pool == pool && faults == 0 && fresh(slots)
    {
      this.image := image;
      this.files := files;
      this.mem := mem;
      this.pool := pool;
      faults := 0;
      slots := new Slot[SLOTS](_ => Slot(0, 0, 0, false));
    }

    /** page_cache_find. */
    method Find(ino: nat, pgoff: Word) returns (i: nat)
      requires Valid()
      ensures i <= SLOTS && (i < SLOTS <==> Page(ino, pgoff) in Pages())
      ensures i < SLOTS ==> slots[i].valid && PageOf(slots[i]) == Page(ino, pgoff)
    {
      hide SlotOk, Apart, PoolOk, FilesOk;
      i := 0;
      while i < SLOTS
        invariant i <= SLOTS && forall k :: 0 <= k < i ==> !(slots[k].valid && PageOf(slots[k]) == Page(ino, pgoff))
      {
        if slots[i].valid && slots[i].ino == ino && slots[i].pgoff == pgoff {
          assert slots[..][i].valid && PageOf(slots[..][i]) == Page(ino, pgoff);
          return;
        }
        i := i + 1;
      }
    }

    /** page_cache_alloc_slot. */
    method AllocSlot() returns (i: nat)
      requires Valid()
      ensures i <= SLOTS && (i == SLOTS <==> |Pages()| == SLOTS)
      ensures i < SLOTS ==> !slots[i].valid
    {
      hide SlotOk, Apart, PoolOk, FilesOk, Cached;
      CachedCount(slots[..]);
      i := 0;
      while i < SLOTS
        invariant i <= SLOTS && forall k :: 0 <= k < i ==> slots[k].valid
      {
        if !slots[i].valid {
          assert !slots[..][i].valid;
          return;
        }
        i := i + 1;
      }
    }

    /** bdev_read into a frame: whole sectors of the image, or a fault that may spoil the frame. */
    method DeviceRead(lba: nat, n: nat, phys: nat) returns (r: int)
      requires phys in mem && |mem[phys]| == PAGE_SIZE && n * BLOCK <= PAGE_SIZE
      modifies this`mem, this`faults
      ensures r == 0 ==> (lba + n) * BLOCK <= |image| && faults == old(faults)
                         && mem == old(mem)[phys := image[lba * BLOCK..(lba + n) * BLOCK] + old(mem)[phys][n * BLOCK..]]
      ensures r != 0 ==> faults > old(faults) && exists junk: Bytes :: |junk| == PAGE_SIZE && mem == old(mem)[phys := junk]
    {
      var fails: bool := *;
      if fails || (lba + n) * BLOCK > |image| {
        var junk: Bytes := *;
        if |junk| != PAGE_SIZE {
          junk := mem[phys];
        }
        mem := mem[phys := junk];
        faults := faults + 1;
        return -1;
      }
      mem := mem[phys := image[lba * BLOCK..(lba + n) * BLOCK] + mem[phys][n * BLOCK..]];
      return 0;
    }

    /** tarfs_readpage. */
    method TarReadPage(ino: nat, pgoff: Word, phys: nat) returns (r: int)
      requires FilesOk(files, image) && ino in files && pgoff < PAGES && phys in mem && |mem[phys]| == PAGE_SIZE
      modifies this`mem, this`faults
      ensures r >= 0 ==>
                && faults == old(faults)
                && exists content: Bytes :: HasPage(image, files[ino], pgoff, content) && mem == old(mem)[phys := content]
      ensures r < 0 ==> exists junk: Bytes :: |junk| == PAGE_SIZE && mem == old(mem)[phys := junk]
      ensures r < 0 ==> pgoff * PAGE_SIZE >= files[ino].size || faults > old(faults)
      ensures faults >= old(faults)
    {
      hide HasPage, Lba, Sectors, ReadCount, Count;
      var tin := files[ino];
      var start := pgoff * PAGE_SIZE % WRAP;
      if start >= tin.size {
        assert mem == mem[phys := mem[phys]];
        return -1;
      }
      var count := ReadCount(tin, start);
      var nsec := Sectors(tin, start);
      SectorsEnough(tin, pgoff);
      var ok := DeviceRead(Lba(tin, start), nsec, phys);
      if ok != 0 {
        return -1;
      }
      SectorsCover(image, tin, pgoff, old(mem)[phys]);
      return count;
    }

    /** readpage: from the cache, or from the device into an empty slot. */
    method ReadPage(ino: nat, pgoff: Word, buf: array<Byte>) returns (r: int)
      requires Valid() && ino in files && pgoff < PAGES && buf.Length == PAGE_SIZE
      modifies this`mem, this`pool, this`faults, slots, buf
      ensures Valid()
      ensures r == PAGE_SIZE || r == -1
      ensures r == PAGE_SIZE ==> HasPage(image, files[ino], pgoff, buf[..])
      ensures Pages() == old(Pages()) + if r == PAGE_SIZE then {Page(ino, pgoff)} else {}
      ensures |Pages()| + |pool| == old(|Pages()| + |pool|) && faults >= old(faults)
      ensures r == -1 ==> Page(ino, pgoff) !in Pages() &&
                          (pgoff * PAGE_SIZE >= files[ino].size || |Pages()| == SLOTS || pool == [] || faults > old(faults))
    {
      hide Good, SlotOk, Apart, PoolOk, FilesOk, Cached, HasPage;
      GoodLen(slots[..], pool, mem, files, image);
      var slot := Find(ino, pgoff);
      if slot != SLOTS {
        HitOk(slots[..], pool, mem, files, image, slot);
        CopyFrame(slots[slot].phys, buf);
        assert old(Pages()) == Pages() + {Page(ino, pgoff)};
        return PAGE_SIZE;
      }
      slot := AllocSlot();
      if slot == SLOTS {
        return -1;
      }
      if pool == [] {
        return -1;
      }
      var phys := pool[0];
      PoolFrame(slots[..], pool, mem, files, image);
      r := TarReadPage(ino, pgoff, phys);
      if r < 0 {
        // alloc_page_frame took the head; free_page_frame puts it back
        ghost var junk: Bytes :| |junk| == PAGE_SIZE && mem == old(mem)[phys := junk];
        SpoiltGood(slots[..], pool, old(mem), files, image, junk);
        pool := [phys] + pool[1..];
        return -1;
      }
      ghost var content: Bytes :| HasPage(image, files[ino], pgoff, content) && mem == old(mem)[phys := content];
      FilledGood(slots[..], pool, old(mem), files, image, slot, ino, pgoff, content);
      FilledCached(slots[..], slot, Slot(ino, pgoff, phys, true));
      PageLength(image, files[ino], pgoff, content);
      ghost var was := slots[..];
      pool := pool[1..];
      slots[slot] := Slot(ino, pgoff, phys, true);
      assert slots[..] == was[slot := Slot(ino, pgoff, phys, true)];
      CopyFrame(phys, buf);
      return PAGE_SIZE;
    }

    /** memcpy of one frame. */
    method CopyFrame(phys: nat, buf: array<Byte>)
      requires phys in mem && |mem[phys]| == PAGE_SIZE && buf.Length == PAGE_SIZE
      modifies buf
      ensures buf[..] == mem[phys]
    {
      forall i | 0 <= i < PAGE_SIZE { buf[i] := mem[phys][i]; }
    }

    /** The read-ahead loop: it only fills the cache with pages the read wants anyway. */
    method ReadAhead(ino: nat, pgoff: nat, end: nat)
      requires Valid() && ino in files && pgoff < end <= PAGES
      modifies this`mem, this`pool, this`faults, slots
      ensures Valid() && faults >= old(faults)
      ensures Grew(old(Pages()), |old(pool)|, Between(ino, pgoff, end), Pages(), |pool|)
      ensures faults == old(faults) ==> Ahead(ino, pgoff, end, 4)
    {
      hide Good, Cached, HasPage, Between;
      var ra := new Byte[PAGE_SIZE];
      var i := 1;
      PagesBound();
      while i <= READAHEAD && pgoff + i < end
        invariant i <= READAHEAD + 1 && Valid() && faults >= old(faults)
        invariant Grew(old(Pages()), |old(pool)|, Between(ino, pgoff, end), Pages(), |pool|)
        invariant faults == old(faults) ==> Ahead(ino, pgoff, end, i - 1)
      {
        ghost var c := Pages();
        IsBetween(ino, pgoff, end, pgoff + i);
        var r := ReadPage(ino, pgoff + i, ra);
        PagesBound();
        SubsetSize(c, Pages());
        i := i + 1;
      }
    }

    /** The n pages after pgoff that lie before end and in the file are cached, unless the slots or the frames have run out. */
    ghost predicate Ahead(ino: nat, pgoff: nat, end: nat, n: nat)
      reads this, slots
      requires ino in files && end <= PAGES
    {
      |Pages()| == SLOTS || pool == [] ||
      forall p: Word :: pgoff < p <= pgoff + n && p < end && p * PAGE_SIZE < files[ino].size ==> Page(ino, p) in Pages()
    }

    lemma {:induction false} PagesBound()
      requires Valid()
      ensures |Pages()| <= SLOTS
    {
      hide SlotOk, PoolOk, FilesOk, Cached;
      CachedCount(slots[..]);
    }

    /** memcpy of part of a page into the caller's buffer. */
    method Splice(buf: array<Byte>, total: nat, page: array<Byte>, from: nat, n: nat)
      requires total + n <= buf.Length && from + n <= page.Length && buf != page
      modifies buf
      ensures buf[..total] == old(buf[..total]) && buf[total..total + n] == page[from..from + n]
              && buf[total + n..] == old(buf[total + n..])
    {
      forall i | 0 <= i < n { buf[total + i] := page[from + i]; }
      assert forall k :: total <= k < total + n ==> buf[k] == page[k - total + from];
      ghost var s, t := buf[total..total + n], page[from..from + n];
      assert forall i :: 0 <= i < n ==> s[i] == t[i];
    }

    /** One turn of the loop of tarfs_read, without the read-ahead. */
    method CopyPage(ino: nat, off: nat, len: nat, pgoff: Word, total: nat, buf: array<Byte>, ghost was: Bytes) returns (r: int, total': nat)
      requires Valid() && ino in files && off < WRAP
      requires var want := Want(files[ino].size, off, len);
               want > 0 && want <= buf.Length && FirstPage(off) <= pgoff < EndPage(off, want) && At(off, want, pgoff, total)
      requires Delivered(image, files[ino].offset + off, total, was, buf[..])
      modifies this`mem, this`pool, this`faults, slots, buf
      ensures Valid() && faults >= old(faults) && (r == PAGE_SIZE || r == -1)
      ensures Pages() == old(Pages()) + if r == PAGE_SIZE then {Page(ino, pgoff)} else {}
      ensures |Pages()| + |pool| == old(|Pages()| + |pool|)
      ensures r == -1 ==> total' == total && Page(ino, pgoff) !in Pages() && (|Pages()| == SLOTS || pool == [] || faults > old(faults))
      ensures var want := Want(files[ino].size, off, len);
              total < want && total <= total' <= want && (r == PAGE_SIZE ==> At(off, want, pgoff + 1, total'))
      ensures Delivered(image, files[ino].offset + off, total', was, buf[..])
    {
      hide Good, Cached, HasPage, Want, At, EndPage, FirstPage, Count, Delivered, PageOff, PageLen;
      ghost var f := files[ino];
      var want := Want(files[ino].size, off, len);
      PageStep(f, off, len, pgoff, total);
      WantInside(f, off, len);
      InImage(slots[..], pool, mem, files, image, ino);
      var page := new Byte[PAGE_SIZE];
      r := ReadPage(ino, pgoff, page);
      if r < 0 {
        total' := total;
        return;
      }
      total' := Deliver(f, off, want, pgoff, total, buf, page, was);
    }

    /** The copying half of that turn. */
    method Deliver(ghost f: Inode, off: nat, want: nat, pgoff: Word, total: nat, buf: array<Byte>, page: array<Byte>,
        ghost was: Bytes) returns (total': nat)
      requires buf != page && page.Length == PAGE_SIZE && HasPage(image, f, pgoff, page[..]) && total <= want <= buf.Length
      requires off + total == pgoff * PAGE_SIZE + PageOff(off, pgoff)
               && PageOff(off, pgoff) + PageLen(off, want, pgoff, total) <= Count(f, pgoff) <= PAGE_SIZE
      requires f.offset + off + want <= |image| && Delivered(image, f.offset + off, total, was, buf[..])
      modifies buf
      ensures total' == total + PageLen(off, want, pgoff, total) <= want
      ensures Delivered(image, f.offset + off, total', was, buf[..])
    {
      hide HasPage, Count;
      var pageOff := if pgoff == off / PAGE_SIZE then off % PAGE_SIZE else 0;
      var pageLen := PAGE_SIZE - pageOff;
      if pageLen > want - total {
        pageLen := want - total;
      }
      PageSlice(image, f, pgoff, page[..], pageOff, pageLen);
      ghost var mid := buf[..];
      Splice(buf, total, page, pageOff, pageLen);
      total' := total + pageLen;
      assert page[..][pageOff..pageOff + pageLen] == page[pageOff..pageOff + pageLen];
      DeliveredMore(image, f.offset + off, total, pageLen, was, mid, buf[..]);
    }

    /** tarfs_read. */
    method Read(filp: File?, buf: array<Byte>, len: Word) returns (r: int)
      requires Valid() && len <= buf.Length
      modifies this`mem, this`pool, this`faults, slots, buf, filp
      ensures Valid() && faults >= old(faults)
      ensures filp == null || filp.ino !in files ==> r == -1 && buf[..] == old(buf[..]) && Pages() == old(Pages())
      ensures filp != null ==> filp.ino == old(filp.ino)
      ensures filp != null && filp.ino in files ==>
                var f, off, got := files[filp.ino], old(filp.pos), filp.pos - old(filp.pos);
                && 0 <= got <= Want(f.size, off, len) && r == Signed(got)
                && f.offset + f.size <= |image| && (got > 0 ==> off + got <= f.size)
                && (got > 0 ==> buf[..got] == image[f.offset + off..f.offset + off + got])
                && buf[got..] == old(buf[got..])
      ensures filp != null && filp.ino in files && faults == old(faults) ==>
                var want := Want(files[filp.ino].size, old(filp.pos), len);
                (filp.pos - old(filp.pos) == want <==> Fits(old(Pages()), |old(pool)|, Wanted(filp.ino, old(filp.pos), want)))
    {
      hide Good, Cached, HasPage, At, EndPage, FirstPage, Count, Grew, Fits, Between;
      if filp == null || filp.ino !in files {
        return -1;
      }
      var ino, off := filp.ino, filp.pos;
      ghost var f := files[ino];
      InImage(slots[..], pool, mem, files, image, ino);
      PagesBound();
      var avail := if files[ino].size > off then files[ino].size - off else 0;
      var want: nat := if len > avail then avail else len;
      assert want == Want(f.size, off, len);
      if want == 0 {
        Nothing(Pages(), |pool|);
        return 0;
      }
      var total := ReadPages(filp, buf, len, want);
      filp.pos := off + total;
      r := Signed(total);
    }

    /** The loop of tarfs_read. */
    method ReadPages(filp: File, buf: array<Byte>, len: Word, want: nat) returns (total: nat)
      requires Valid() && want <= buf.Length && filp.ino in files
      requires want == Want(files[filp.ino].size, filp.pos, len) && want > 0
      modifies this`mem, this`pool, this`faults, slots, buf, filp`lastPgoff
      ensures Valid() && faults >= old(faults) && total <= want
      ensures Delivered(image, files[filp.ino].offset + filp.pos, total, old(buf[..]), buf[..])
      ensures faults == old(faults) ==> (total == want <==> Fits(old(Pages()), |old(pool)|, Wanted(filp.ino, filp.pos, want)))
    {
      hide Good, Cached, HasPage, At, EndPage, FirstPage, Count, Grew, Fits, Between, Want, Wanted, Delivered;
      var ino, off := filp.ino, filp.pos;
      ghost var f, was := files[ino], buf[..];
      ghost var wanted := Wanted(ino, off, want);
      InImage(slots[..], pool, mem, files, image, ino);
      WantInside(f, off, len);
      EndBelow(f, off, len);
      PagesBound();
      Began(ino, off, want, Pages(), |pool|);
      NothingDelivered(image, f.offset + off, was);
      total := 0;
      var pgoff := off / PAGE_SIZE;
      var end := (off + want + PAGE_SIZE - 1) / PAGE_SIZE;
      PageNumbers(off, want);
      ghost var c, n := Pages(), |pool|;
      while pgoff < end
        invariant Valid() && faults >= old(faults) && FirstPage(off) <= pgoff <= end && total <= want
        invariant At(off, want, pgoff, total)
        invariant Delivered(image, f.offset + off, total, was, buf[..])
        invariant Grew(c, n, wanted, Pages(), |pool|) && Between(ino, FirstPage(off), pgoff) <= Pages()
        invariant filp.ino == ino && filp.pos == off
      {
        ghost var c1, n1 := Pages(), |pool|;
        var r, total' := CopyPage(ino, off, len, pgoff, total, buf, was);
        IsWanted(ino, off, want, pgoff);
        PagesBound();
        if r < 0 {
          StillGrew(c, n, wanted, c1, n1, Pages(), |pool|);
          if faults == old(faults) { CannotFit(c, n, wanted, Pages(), |pool|, Page(ino, pgoff)); }
          return;
        }
        GrewBy(c, n, wanted, c1, n1, Page(ino, pgoff), |pool|);
        ReadOne(ino, FirstPage(off), pgoff, c1);
        total := total';
        NoteRead(filp, off, want, pgoff, end, c, n);
        pgoff := pgoff + 1;
      }
      AtEnd(off, want, total);
      AllWanted(ino, off, want);
      DidFit(c, n, wanted, Pages(), |pool|);
    }

    /** The bookkeeping after each page: read ahead if the page follows the last one, and remember it. */
    method NoteRead(filp: File, off: nat, want: nat, pgoff: Word, end: nat, ghost c: set<Page>, ghost n: nat)
      requires Valid() && filp.ino in files && want > 0 && FirstPage(off) <= pgoff < end == EndPage(off, want) <= PAGES
      requires Grew(c, n, Wanted(filp.ino, off, want), Pages(), |pool|)
      modifies this`mem, this`pool, this`faults, slots, filp`lastPgoff
      ensures Valid() && faults >= old(faults) && old(Pages()) <= Pages()
      ensures Grew(c, n, Wanted(filp.ino, off, want), Pages(), |pool|)
      ensures filp.lastPgoff == if filp.hasPrivate then pgoff else old(filp.lastPgoff)
      ensures if filp.hasPrivate && pgoff == (old(filp.lastPgoff) + 1) % WRAP && pgoff + 1 < end
              then faults == old(faults) ==> Ahead(filp.ino, pgoff, end, 4)
              else Pages() == old(Pages())
    {
      hide Good, Cached, EndPage, FirstPage, Grew, Between, Wanted;
      if filp.hasPrivate {
        if pgoff == (filp.lastPgoff + 1) % WRAP && pgoff + 1 < end {
          ReadAhead(filp.ino, pgoff, end);
          PagesInside(filp.ino, off, want, pgoff);
          GrewAgain(c, n, Wanted(filp.ino, off, want), old(Pages()), |old(pool)|, Between(filp.ino, pgoff, end), Pages(), |pool|);
        }
        filp.lastPgoff := pgoff;
      }
    }
  }

  // ------------------------------------------------------------------ small steps

  lemma {:induction false} GoodLen(slots: seq<Slot>, pool: seq<nat>, mem: map<nat, Bytes>, files: map<nat, Inode>, image: Bytes)
    requires Good(slots, pool, mem, files, image)
    ensures |slots| == SLOTS && FilesOk(files, image)
  {
  }

  lemma {:induction false} InImage(slots: seq<Slot>, pool: seq<nat>, mem: map<nat, Bytes>, files: map<nat, Inode>, image: Bytes, ino: nat)
    requires Good(slots, pool, mem, files, image) && ino in files
    ensures files[ino].offset + files[ino].size <= WRAP && files[ino].offset + files[ino].size <= |image|
  {
  }

  lemma {:induction false} HitOk(slots: seq<Slot>, pool: seq<nat>, mem: map<nat, Bytes>, files: map<nat, Inode>, image: Bytes, i: nat)
    requires Good(slots, pool, mem, files, image) && i < |slots| && slots[i].valid
    ensures slots[i].ino in files && slots[i].phys in mem && |mem[slots[i].phys]| == PAGE_SIZE
    ensures HasPage(image, files[slots[i].ino], slots[i].pgoff, mem[slots[i].phys])
  {
    assert SlotOk(slots[i], files, image, mem);
  }

  lemma {:induction false} PoolFrame(slots: seq<Slot>, pool: seq<nat>, mem: map<nat, Bytes>, files: map<nat, Inode>, image: Bytes)
    requires Good(slots, pool, mem, files, image) && pool != []
    ensures pool[0] in mem && |mem[pool[0]]| == PAGE_SIZE
  {
  }

  lemma {:induction false} PageLength(image: Bytes, f: Inode, pgoff: Word, content: Bytes)
    requires HasPage(image, f, pgoff, content)
    ensures |content| == PAGE_SIZE
  {
  }

  lemma {:induction false} WantInside(f: Inode, off: nat, len: nat)
    ensures var want := Want(f.size, off, len); want > 0 ==> off + want <= f.size
  {
  }

  lemma {:induction false} PageNumbers(off: nat, want: nat)
    ensures FirstPage(off) == off / PAGE_SIZE && EndPage(off, want) == (off + want + PAGE_SIZE - 1) / PAGE_SIZE
  {
  }

  lemma {:induction false} EndBelow(f: Inode, off: nat, len: nat)
    requires Want(f.size, off, len) > 0
    ensures var want := Want(f.size, off, len); off < WRAP && FirstPage(off) < EndPage(off, want) <= PAGES
  {
  }

  lemma {:induction false} Began(ino: nat, off: nat, want: nat, c: set<Page>, pool: nat)
    requires |c| <= SLOTS
    ensures At(off, want, FirstPage(off), 0) && Grew(c, pool, Wanted(ino, off, want), c, pool)
    ensures Between(ino, FirstPage(off), FirstPage(off)) == {}
  {
  }

  lemma {:induction false} Nothing(c: set<Page>, pool: nat)
    requires |c| <= SLOTS
    ensures Fits(c, pool, {})
  {
    assert c + {} == c;
  }

  lemma {:induction false} NothingDelivered(image: Bytes, at: nat, was: Bytes)
    requires at <= |image|
    ensures Delivered(image, at, 0, was, was)
  {
  }

  lemma {:induction false} IsBetween(ino: nat, lo: nat, hi: nat, p: Word)
    requires lo <= p < hi
    ensures Page(ino, p) in Between(ino, lo, hi)
  {
  }

  lemma {:induction false} AllWanted(ino: nat, off: nat, want: nat)
    requires want > 0
    ensures Wanted(ino, off, want) == Between(ino, FirstPage(off), EndPage(off, want))
  {
    hide FirstPage, EndPage, Between;
  }

  lemma {:induction false} IsWanted(ino: nat, off: nat, want: nat, pgoff: Word)
    requires want > 0 && FirstPage(off) <= pgoff < EndPage(off, want)
    ensures Page(ino, pgoff) in Wanted(ino, off, want)
  {
    hide FirstPage, EndPage;
  }

  lemma {:induction false} PagesInside(ino: nat, off: nat, want: nat, pgoff: nat)
    requires want > 0 && FirstPage(off) <= pgoff
    ensures Between(ino, pgoff, EndPage(off, want)) <= Wanted(ino, off, want)
  {
    hide FirstPage, EndPage;
  }

  lemma {:induction false} StillGrew(c: set<Page>, n: nat, w: set<Page>, c1: set<Page>, n1: nat, c2: set<Page>, n2: nat)
    requires Grew(c, n, w, c1, n1) && c2 == c1 + {} && |c2| + n2 == |c1| + n1
    ensures Grew(c, n, w, c2, n2)
  {
    assert c2 == c1;
  }

  lemma {:induction false} GrewBy(c: set<Page>, n: nat, w: set<Page>, c1: set<Page>, n1: nat, p: Page, n2: nat)
    requires Grew(c, n, w, c1, n1) && p in w && |c1 + {p}| + n2 == |c1| + n1 && |c1 + {p}| <= SLOTS
    ensures Grew(c, n, w, c1 + {p}, n2)
  {
  }

  lemma {:induction false} GrewAgain(c: set<Page>, n: nat, w: set<Page>, c1: set<Page>, n1: nat, w1: set<Page>, c2: set<Page>, n2: nat)
    requires Grew(c, n, w, c1, n1) && w1 <= w && Grew(c1, n1, w1, c2, n2)
    ensures Grew(c, n, w, c2, n2) && c1 <= c2
  {
  }

  lemma {:induction false} ReadOne(ino: nat, lo: nat, pgoff: Word, c: set<Page>)
    requires Between(ino, lo, pgoff) <= c && lo <= pgoff
    ensures Between(ino, lo, pgoff + 1) <= c + {Page(ino, pgoff)}
  {
    forall p <- Between(ino, lo, pgoff + 1) ensures p in c + {Page(ino, pgoff)} {
      if p != Page(ino, pgoff) { assert p in Between(ino, lo, pgoff); }
    }
  }

  /** A file of 65 pages, read at once from an empty cache: the read stops short, however many frames are free. */
  method ReadStopsShort(image: Bytes, mem: map<nat, Bytes>, pool: seq<nat>, buf: array<Byte>) returns (filp: File, fs: FileSystem)
    requires |image| == buf.Length == 65 * PAGE_SIZE && PoolOk([], pool, mem)
    modifies buf
    ensures fs.faults == 0 ==> filp.pos < 65 * PAGE_SIZE
  {
    hide Fits, Wanted, PoolOk, PageCache.Good;
    fs := new FileSystem(image, map[0 := Inode(0, 65 * PAGE_SIZE)], mem, pool);
    filp := new File(0);
    EmptyCacheFits(0, 0, 65 * PAGE_SIZE, |pool|);
    var r := fs.Read(filp, buf, 65 * PAGE_SIZE);
  }
}
