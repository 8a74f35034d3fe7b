/** What the 64-slot page cache holds, and what a tar file's pages are. */
module PageCache {
  import opened Basics
  import opened Bits
  import opened Octal
  import opened Tar

  const SLOTS := 64

  /** struct tarfs_inode: where a file's bytes lie on the device. */
  datatype Inode = Inode(offset: Word, size: Word)

  /** struct page_cache_slot, without the tier. */
  datatype Slot = Slot(ino: nat, pgoff: Word, phys: nat, valid: bool)

  datatype Page = Page(ino: nat, pgoff: Word)

  /** The files on the device: whole blocks from its start, and below 4 GiB. */
  ghost predicate FilesOk(files: map<nat, Inode>, image: Bytes) {
    forall n <- files :: files[n].offset % BLOCK == 0 && files[n].offset + files[n].size <= WRAP
        && files[n].offset + files[n].size <= |image|
  }

  /** How many bytes of a page belong to the file. */
  function Count(f: Inode, pgoff: Word): nat {
    if f.size <= pgoff * PAGE_SIZE then 0 else if f.size - pgoff * PAGE_SIZE < PAGE_SIZE then f.size - pgoff * PAGE_SIZE else PAGE_SIZE
  }

  /** The page's bytes that belong to the file, as they are on the device. */
  function PageBytes(image: Bytes, f: Inode, pgoff: Word): Bytes
    requires f.offset + f.size <= |image|
  {
    var start := f.offset + if f.size <= pgoff * PAGE_SIZE then 0 else pgoff * PAGE_SIZE;
    image[start..start + Count(f, pgoff)]
  }

  /** A frame holds page pgoff of f: what follows the file's last byte is arbitrary. */
  ghost predicate HasPage(image: Bytes, f: Inode, pgoff: Word, content: Bytes) {
    && |content| == PAGE_SIZE && f.offset + f.size <= |image| && pgoff * PAGE_SIZE < f.size
    && content[..Count(f, pgoff)] == PageBytes(image, f, pgoff)
  }

  ghost predicate SlotOk(s: Slot, files: map<nat, Inode>, image: Bytes, mem: map<nat, Bytes>) {
    s.valid ==> s.ino in files && s.phys in mem && HasPage(image, files[s.ino], s.pgoff, mem[s.phys])
  }

  /** Two slots never hold the same page or share a frame. */
  ghost predicate Apart(slots: seq<Slot>) {
    forall i, j :: 0 <= i < j < |slots| && slots[i].valid && slots[j].valid ==>
      slots[i].phys != slots[j].phys && PageOf(slots[i]) != PageOf(slots[j])
  }

  function PageOf(s: Slot): Page { Page(s.ino, s.pgoff) }

  /** The frame pool holds distinct frames that no slot uses. */
  ghost predicate PoolOk(slots: seq<Slot>, pool: seq<nat>, mem: map<nat, Bytes>) {
    && (forall i, j :: 0 <= i < j < |pool| ==> pool[i] != pool[j])
    && (forall f <- pool :: f in mem && |mem[f]| == PAGE_SIZE && f != 0)
    && (forall i :: 0 <= i < |slots| && slots[i].valid ==> slots[i].phys !in pool)
  }

  ghost predicate Good(slots: seq<Slot>, pool: seq<nat>, mem: map<nat, Bytes>, files: map<nat, Inode>, image: Bytes) {
    && |slots| == SLOTS && FilesOk(files, image) && Apart(slots) && PoolOk(slots, pool, mem)
    && (forall i :: 0 <= i < |slots| ==> SlotOk(slots[i], files, image, mem))
  }

  /** The pages in the cache. */
  function Cached(slots: seq<Slot>): set<Page> {
    set i | 0 <= i < |slots| && slots[i].valid :: PageOf(slots[i])
  }

  predicate AllValid(slots: seq<Slot>) {
    forall i :: 0 <= i < |slots| ==> slots[i].valid
  }

  lemma {:induction false} AllValidSnoc(slots: seq<Slot>)
    requires slots != []
    ensures var n := |slots| - 1; AllValid(slots) <==> AllValid(slots[..n]) && slots[n].valid
  {
    var front := slots[..|slots| - 1];
    assert forall i :: 0 <= i < |front| ==> front[i] == slots[i];
  }

  /** Slots that hold different pages hold at most as many pages as there are slots, and that many only if all are in use. */
  lemma {:induction false} CachedCount(slots: seq<Slot>)
    requires Apart(slots)
    ensures |Cached(slots)| <= |slots| && (|Cached(slots)| == |slots| <==> AllValid(slots))
  {
    if slots != [] {
      var n := |slots| - 1;
      var front := slots[..n];
      assert forall i :: 0 <= i < n ==> front[i] == slots[i];
      CachedCount(front);
      hide AllValid;
      if slots[n].valid {
        assert Cached(slots) == Cached(front) + {PageOf(slots[n])};
        assert PageOf(slots[n]) !in Cached(front);
      } else {
        assert Cached(slots) == Cached(front);
      }
      AllValidSnoc(slots);
    }
  }

  /** Filling an empty slot with a page that was not cached. */
  lemma {:induction false} FilledCached(slots: seq<Slot>, i: nat, s: Slot)
    requires i < |slots| && !slots[i].valid && s.valid
    ensures Cached(slots[i := s]) == Cached(slots) + {PageOf(s)}
  {
    var slots' := slots[i := s];
    forall p ensures p in Cached(slots') <==> p in Cached(slots) + {PageOf(s)} {
      if p in Cached(slots) {
        var k :| 0 <= k < |slots| && slots[k].valid && PageOf(slots[k]) == p;
        assert slots'[k] == slots[k];
      }
      if p == PageOf(s) { assert slots'[i] == s; }
    }
  }

  lemma {:induction false} FilledGood(slots: seq<Slot>, pool: seq<nat>, mem: map<nat, Bytes>, files: map<nat, Inode>, image: Bytes,
                   i: nat, ino: nat, pgoff: Word, content: Bytes)
    requires Good(slots, pool, mem, files, image) && pool != [] && i < SLOTS && !slots[i].valid
    requires Page(ino, pgoff) !in Cached(slots) && ino in files && HasPage(image, files[ino], pgoff, content)
    ensures Good(slots[i := Slot(ino, pgoff, pool[0], true)], pool[1..], mem[pool[0] := content], files, image)
  {
    assert |content| == PAGE_SIZE;
    hide HasPage, FilesOk;
    var f, s := pool[0], Slot(ino, pgoff, pool[0], true);
    var slots', mem', pool' := slots[i := s], mem[f := content], pool[1..];
    assert forall k :: 0 <= k < |pool'| ==> pool'[k] == pool[k + 1];
    forall k, l | 0 <= k < l < SLOTS && slots'[k].valid && slots'[l].valid
      ensures slots'[k].phys != slots'[l].phys && PageOf(slots'[k]) != PageOf(slots'[l]) {
      assert k != i ==> slots'[k] == slots[k] && PageOf(slots[k]) in Cached(slots);
      assert l != i ==> slots'[l] == slots[l] && PageOf(slots[l]) in Cached(slots);
    }
    forall k | 0 <= k < SLOTS ensures SlotOk(slots'[k], files, image, mem') {
      assert k != i ==> SlotOk(slots[k], files, image, mem);
    }
    FilledPool(slots, pool, mem, i, s, content);
  }

  lemma {:induction false} FilledPool(slots: seq<Slot>, pool: seq<nat>, mem: map<nat, Bytes>, i: nat, s: Slot, content: Bytes)
    requires PoolOk(slots, pool, mem) && pool != [] && i < |slots| && s.phys == pool[0] && |content| == PAGE_SIZE
    ensures PoolOk(slots[i := s], pool[1..], mem[pool[0] := content])
  {
  }

  /** Giving the frame back after a failed read. */
  lemma {:induction false} SpoiltGood(slots: seq<Slot>, pool: seq<nat>, mem: map<nat, Bytes>, files: map<nat, Inode>,
      image: Bytes, junk: Bytes)
    requires Good(slots, pool, mem, files, image) && pool != [] && |junk| == PAGE_SIZE
    ensures Good(slots, [pool[0]] + pool[1..], mem[pool[0] := junk], files, image)
  {
    hide HasPage, FilesOk;
    assert [pool[0]] + pool[1..] == pool;
    forall k | 0 <= k < SLOTS ensures SlotOk(slots[k], files, image, mem[pool[0] := junk]) {
      assert SlotOk(slots[k], files, image, mem);
    }
  }

  // ------------------------------------------------------------------ the sectors of a page

  /** tarfs_readpage: how much of the page to read. */
  function ReadCount(f: Inode, start: Word): Word
    requires start < f.size
  {
    if (start + PAGE_SIZE) % WRAP > f.size then f.size - start else PAGE_SIZE
  }

  /** The first sector, and how many. */
  function Lba(f: Inode, start: Word): nat { (f.offset + start) % WRAP / BLOCK }

  function Sectors(f: Inode, start: Word): nat
    requires start < f.size
  {
    (ReadCount(f, start) + BLOCK - 1) / BLOCK
  }

  lemma {:induction false} LbaIs(f: Inode, pgoff: Word)
    requires f.offset % BLOCK == 0 && f.offset + f.size <= WRAP && pgoff * PAGE_SIZE < f.size
    ensures Lba(f, pgoff * PAGE_SIZE) * BLOCK == f.offset + pgoff * PAGE_SIZE
  {
    var q := f.offset / BLOCK;
    assert f.offset == BLOCK * q;
    assert f.offset + pgoff * PAGE_SIZE == BLOCK * (q + pgoff * 8);
    WholeBlocks(q + pgoff * 8);
  }

  lemma {:induction false} WholeBlocks(k: nat)
    ensures BLOCK * k / BLOCK == k
  {
  }

  lemma {:induction false} SectorsEnough(f: Inode, pgoff: Word)
    requires f.size < WRAP && pgoff * PAGE_SIZE < f.size
    ensures Count(f, pgoff) <= ReadCount(f, pgoff * PAGE_SIZE) <= Sectors(f, pgoff * PAGE_SIZE) * BLOCK <= PAGE_SIZE
  {
    var start := pgoff * PAGE_SIZE;
    var count := ReadCount(f, start);
    assert start + PAGE_SIZE <= WRAP;
    assert 1 <= count <= PAGE_SIZE;
    RoundUp(count);
  }

  lemma {:induction false} RoundUp(count: nat)
    requires 1 <= count <= PAGE_SIZE
    ensures count <= (count + BLOCK - 1) / BLOCK * BLOCK <= PAGE_SIZE
  {
    var n := (count + BLOCK - 1) / BLOCK;
    assert n <= 8;
  }

  /** The sectors read begin at the page's first byte and cover the part of it that belongs to the file. */
  lemma {:induction false} SectorsCover(image: Bytes, f: Inode, pgoff: Word, before: Bytes)
    requires f.offset % BLOCK == 0 && f.offset + f.size <= WRAP && f.offset + f.size <= |image| && |before| == PAGE_SIZE
    requires pgoff * PAGE_SIZE < f.size && (Lba(f, pgoff * PAGE_SIZE) + Sectors(f, pgoff * PAGE_SIZE)) * BLOCK <= |image|
    ensures Sectors(f, pgoff * PAGE_SIZE) * BLOCK <= PAGE_SIZE
    ensures var lba, n := Lba(f, pgoff * PAGE_SIZE), Sectors(f, pgoff * PAGE_SIZE);
            HasPage(image, f, pgoff, image[lba * BLOCK..(lba + n) * BLOCK] + before[n * BLOCK..])
  {
    hide Lba, Sectors, ReadCount;
    LbaIs(f, pgoff);
    SectorsEnough(f, pgoff);
    Prefix(image, Lba(f, pgoff * PAGE_SIZE) * BLOCK, Sectors(f, pgoff * PAGE_SIZE) * BLOCK, before, Count(f, pgoff));
  }

  lemma {:induction false} Prefix(image: Bytes, at: nat, n: nat, before: Bytes, c: nat)
    requires at + n <= |image| && c <= n <= |before|
    ensures |image[at..at + n] + before[n..]| == |before| && (image[at..at + n] + before[n..])[..c] == image[at..at + c]
  {
  }
}
