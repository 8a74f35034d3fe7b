/** tar_next_entry, tar_find_entry and the mount walk, over the bytes of a block device. */
module Tar {
  import opened Basics
  import opened Bits
  import opened Octal

  const BLOCK := 512
  const NAME_MAX := 99

  /** Blocks below 4 GiB. */
  const BLOCKS := 0x80_0000

  /** "ustar". */
  const MAGIC: seq<Byte> := [117, 115, 116, 97, 114]

  type Bytes = seq<Byte>

  /** struct tar_entry. */
  datatype Item = Item(name: Bytes, kind: Byte, offset: Word, size: Word)

  predicate Readable(image: Bytes, blk: nat) { (blk + 1) * BLOCK <= |image| }

  function HeaderAt(image: Bytes, blk: nat): (h: Bytes)
    requires Readable(image, blk)
    ensures |h| == BLOCK
  {
    image[blk * BLOCK..(blk + 1) * BLOCK]
  }

  predicate IsHeader(h: Bytes)
    requires |h| == BLOCK
  {
    h[257..262] == MAGIC && h[0] != 0
  }

  /** The bytes of s up to its first NUL, at most limit of them. */
  function UpToNul(s: Bytes, limit: nat): (r: Bytes)
    requires limit <= |s|
    ensures r <= s[..limit] && 0 !in r && (|r| < limit ==> s[|r|] == 0)
  {
    if limit == 0 || s[0] == 0 then [] else [s[0]] + UpToNul(s[1..], limit - 1)
  }

  /** Those bytes are the only ones of their kind. */
  lemma {:induction false} UpToNulIs(s: Bytes, limit: nat, n: nat)
    requires n <= limit <= |s| && 0 !in s[..n] && (n < limit ==> s[n] == 0)
    ensures UpToNul(s, limit) == s[..n]
  {
    var r := UpToNul(s, limit);
    assert |r| == n;
    assert r == s[..limit][..|r|];
  }

  function SizeOf(h: Bytes): Word
    requires |h| == BLOCK
  {
    Value(h[124..136][..Run(h[124..136])]) % WRAP
  }

  /** The block the walk moves to, with the source's 32-bit arithmetic. */
  function After(blk: Word, size: Word): Word {
    (((blk + 1) % WRAP * BLOCK % WRAP) / BLOCK + (size + (BLOCK - size % BLOCK) % BLOCK) % WRAP / BLOCK) % WRAP
  }

  /** How many whole blocks n bytes of data take. */
  function Padded(n: nat): nat { (n + BLOCK - 1) / BLOCK }

  /** The data's block, with the wrap of a byte address that no longer fits. */
  lemma {:induction false} DataBlock(blk: Word)
    ensures (blk + 1) % WRAP * BLOCK % WRAP == (blk + 1) % WRAP % BLOCKS * BLOCK
  {
    var a := (blk + 1) % WRAP;
    var q, r := a / BLOCKS, a % BLOCKS;
    assert a * BLOCK == q * WRAP + r * BLOCK;
    ModAdd(q, r * BLOCK);
  }

  /** The blocks that data and padding take: none when rounding up wraps. */
  lemma {:induction false} DataBlocks(size: Word)
    ensures var total := (size + (BLOCK - size % BLOCK) % BLOCK) % WRAP;
            total / BLOCK < BLOCKS && (size <= WRAP - BLOCK ==> total / BLOCK == Padded(size))
  {
    var q, r := size / BLOCK, size % BLOCK;
    assert size == BLOCK * q + r;
    assert size + (BLOCK - r) % BLOCK == BLOCK * Padded(size);
  }

  /** The walk's next block, without the wraps. */
  lemma {:induction false} AfterSum(blk: Word, size: Word)
    ensures var total := (size + (BLOCK - size % BLOCK) % BLOCK) % WRAP;
            After(blk, size) == (blk + 1) % WRAP % BLOCKS + total / BLOCK
  {
    DataBlock(blk);
    DataBlocks(size);
    hide Padded;
    var r := (blk + 1) % WRAP % BLOCKS;
    assert r * BLOCK / BLOCK == r;
  }

  /** Below 4 GiB it is the block after the header and the padded data. */
  lemma {:induction false} AfterIs(blk: Word, size: Word)
    requires blk + 1 < BLOCKS && size <= WRAP - BLOCK
    ensures After(blk, size) == blk + 1 + Padded(size)
  {
    hide After, Padded;
    AfterSum(blk, size);
    DataBlocks(size);
  }

  /** The index strictly increases if and only if the data begins below 4 GiB, whatever the header says. */
  lemma {:induction false} AfterIncreases(blk: Word, size: Word)
    ensures blk < After(blk, size) <==> blk + 1 < BLOCKS
  {
    hide After, Padded;
    AfterSum(blk, size);
    DataBlocks(size);
    var a := (blk + 1) % WRAP;
    assert a == a / BLOCKS * BLOCKS + a % BLOCKS;
  }

  /** An empty file in the last block below 4 GiB sends the walk back to block 0. */
  lemma {:induction false} AfterWraps()
    ensures After(BLOCKS - 1, 0) == 0
  {
    AfterSum(BLOCKS - 1, 0);
  }

  /** What one step of the walk finds. */
  function Next(image: Bytes, blk: Word): (r: Option<Item>) {
    if !Readable(image, blk) || !IsHeader(HeaderAt(image, blk)) then None
    else
      var h := HeaderAt(image, blk);
      Some(Item(UpToNul(h, NAME_MAX), h[156], (blk + 1) % WRAP * BLOCK % WRAP, SizeOf(h)))
  }

  /** An entry is a block of 512 bytes that does not begin with NUL and has "ustar" at 257; what its fields are. */
  lemma {:induction false} NextIs(image: Bytes, blk: Word)
    ensures var at, r := blk * 512, Next(image, blk);
            && (r.Some? <==> at + 512 <= |image| && image[at] != 0 && image[at + 257..at + 262] == [117, 115, 116, 97, 114])
            && (r.Some? ==>
                  && r.value.kind == image[at + 156] && r.value.offset == (at + 512) % 0x1_0000_0000
                  && r.value.name <= image[at..at + 99] && 0 !in r.value.name
                  && (|r.value.name| < 99 ==> image[at + |r.value.name|] == 0))
  {
    hide UpToNul, SizeOf;
    var at := blk * 512;
    if at + 512 <= |image| {
      var h := image[at..at + 512];
      assert h == HeaderAt(image, blk);
      assert h[257..262] == image[at + 257..at + 262] by { SubSlice(image, at, 512, 257, 5); }
      assert h[..99] == image[at..at + 99];
      DataOffset(blk);
    }
  }

  lemma {:induction false} DataOffset(blk: Word)
    ensures (blk + 1) % WRAP * BLOCK % WRAP == (blk * 512 + 512) % 0x1_0000_0000
  {
    if blk + 1 == WRAP { assert blk * 512 + 512 == 512 * WRAP; }
  }

  /** memcmp of the magic. */
  method SameMagic(h: Bytes) returns (same: bool)
    requires |h| == BLOCK
    ensures same <==> h[257..262] == MAGIC
  {
    var i := 0;
    while i < 5
      invariant i <= 5 && h[257..257 + i] == MAGIC[..i]
    {
      if h[257 + i] != MAGIC[i] {
        assert h[257..262][i] != MAGIC[i];
        return false;
      }
      assert h[257..258 + i] == h[257..257 + i] + [h[257 + i]];
      i := i + 1;
    }
    return true;
  }

  /** tar_next_entry. A block the device cannot deliver ends the walk. */
  method NextEntry(image: Bytes, blk: Word) returns (r: int, blk': Word, item: Item)
    ensures r == 0 <==> Next(image, blk).Some?
    ensures r == 0 ==> Next(image, blk) == Some(item) && blk' == After(blk, item.size)
    ensures r != 0 ==> r == -1 && blk' == blk
  {
    item := Item([], 0, 0, 0);
    if (blk + 1) * BLOCK > |image| {
      return -1, blk, item;
    }
    var hdr := image[blk * BLOCK..(blk + 1) * BLOCK];
    var same := SameMagic(hdr);
    if !same || hdr[0] == 0 {
      return -1, blk, item;
    }
    var name: Bytes := [];
    var i := 0;
    while i < NAME_MAX && hdr[i] != 0
      invariant i <= NAME_MAX && name == hdr[..i] && 0 !in name
    {
      name := name + [hdr[i]];
      i := i + 1;
    }
    UpToNulIs(hdr, NAME_MAX, i);
    var size := TarOctal(hdr[124..136], 12);
    assert hdr[124..136][..12] == hdr[124..136];
    var dataOff := (blk + 1) % WRAP * BLOCK % WRAP;
    item := Item(name, hdr[156], dataOff, size);
    var padding := (BLOCK - size % BLOCK) % BLOCK;
    return 0, (dataOff / BLOCK + (size + padding) % WRAP / BLOCK) % WRAP, item;
  }

  lemma {:induction false} NextBelow(image: Bytes, blk: Word)
    requires |image| < WRAP && Next(image, blk).Some?
    ensures blk + 1 < BLOCKS && blk < After(blk, Next(image, blk).value.size)
  {
    AfterIncreases(blk, Next(image, blk).value.size);
  }

  /** Everything the walk lists from blk on, on a device below 4 GiB. */
  function Walk(image: Bytes, blk: Word): seq<Item>
    requires |image| < WRAP
    decreases WRAP - blk
  {
    match Next(image, blk)
    case None => []
    case Some(item) =>
      NextBelow(image, blk);
      [item] + Walk(image, After(blk, item.size))
  }

  lemma {:induction false} WalkStep(image: Bytes, blk: Word)
    requires |image| < WRAP
    ensures Next(image, blk).None? ==> Walk(image, blk) == []
    ensures Next(image, blk).Some? ==>
              var item := Next(image, blk).value;
              blk < After(blk, item.size) && Walk(image, blk) == [item] + Walk(image, After(blk, item.size))
  {
    hide Next, After;
    if Next(image, blk).Some? { NextBelow(image, blk); }
  }

  /** The first item with the given name. */
  function Lookup(items: seq<Item>, path: Bytes): Option<Item> {
    if items == [] then None else if items[0].name == path then Some(items[0]) else Lookup(items[1..], path)
  }

  lemma {:induction false} LookupIsFirst(items: seq<Item>, path: Bytes)
    ensures Lookup(items, path).None? <==> forall i :: 0 <= i < |items| ==> items[i].name != path
    ensures Lookup(items, path).Some? ==>
              exists i :: 0 <= i < |items| && items[i] == Lookup(items, path).value && items[i].name == path
                          && forall j :: 0 <= j < i ==> items[j].name != path
  {
    if items != [] && items[0].name != path {
      LookupIsFirst(items[1..], path);
      if Lookup(items[1..], path).Some? {
        var i :| 0 <= i < |items[1..]| && items[1..][i] == Lookup(items[1..], path).value && items[1..][i].name == path
                 && forall j :: 0 <= j < i ==> items[1..][j].name != path;
        assert items[i + 1] == Lookup(items, path).value;
        assert forall j :: 0 < j < i + 1 ==> items[j] == items[1..][j - 1];
      }
      assert forall j :: 0 < j < |items| ==> items[j] == items[1..][j - 1];
    }
  }

  /** tar_find_entry. */
  method FindEntry(image: Bytes, path: Bytes) returns (r: int, item: Item)
    requires |image| < WRAP
    ensures r == 0 || r == -1
    ensures r == 0 <==> Lookup(Walk(image, 0), path).Some?
    ensures r == 0 ==> Lookup(Walk(image, 0), path) == Some(item)
  {
    hide Next, After, Walk;
    var blk: Word := 0;
    var more, next, e := NextEntry(image, blk);
    while more == 0
      invariant more == 0 <==> Next(image, blk).Some?
      invariant more == 0 ==> Next(image, blk) == Some(e) && next == After(blk, e.size)
      invariant Lookup(Walk(image, blk), path) == Lookup(Walk(image, 0), path)
      decreases WRAP - blk
    {
      WalkStep(image, blk);
      if e.name == path {
        return 0, e;
      }
      blk := next;
      more, next, e := NextEntry(image, blk);
    }
    WalkStep(image, blk);
    return -1, e;
  }

  predicate IsRegular(kind: Byte) { kind == 48 || kind == 0 }

  function Regular(items: seq<Item>): seq<Item> {
    if items == [] then [] else (if IsRegular(items[0].kind) then [items[0]] else []) + Regular(items[1..])
  }

  /** The regular files are those of type '0' or NUL. */
  lemma {:induction false} RegularAre(items: seq<Item>, x: Item)
    ensures x in Regular(items) <==> x in items && (x.kind == 48 || x.kind == 0)
  {
    if items != [] {
      RegularAre(items[1..], x);
      assert items == [items[0]] + items[1..];
    }
  }

  lemma {:induction false} RegularStep(e: Item, rest: seq<Item>)
    ensures Regular([e] + rest) == (if IsRegular(e.kind) then [e] else []) + Regular(rest)
  {
    assert ([e] + rest)[1..] == rest;
  }

  /** The loop of tarfs_fill_super: one inode for each regular file, in order. */
  method Mount(image: Bytes) returns (files: seq<Item>)
    requires |image| < WRAP
    ensures files == Regular(Walk(image, 0))
  {
    files := [];
    hide Next, After, Walk;
    var blk: Word := 0;
    var more, next, e := NextEntry(image, blk);
    while more == 0
      invariant more == 0 <==> Next(image, blk).Some?
      invariant more == 0 ==> Next(image, blk) == Some(e) && next == After(blk, e.size)
      invariant files + Regular(Walk(image, blk)) == Regular(Walk(image, 0))
      decreases WRAP - blk
    {
      WalkStep(image, blk);
      RegularStep(e, Walk(image, next));
      if IsRegular(e.kind) {
        files := files + [e];
      }
      blk := next;
      more, next, e := NextEntry(image, blk);
    }
    WalkStep(image, blk);
  }

  // ------------------------------------------------------------------ archives

  /** One archive member: its header block, its data, and the bytes that fill its last block. */
  datatype Member = Member(header: Bytes, data: Bytes, pad: Bytes)

  ghost predicate MemberOk(m: Member) {
    && |m.header| == BLOCK && IsHeader(m.header) && Field(m.header[124..136], |m.data|)
    && |m.pad| < BLOCK && (|m.data| + |m.pad|) % BLOCK == 0
  }

  ghost predicate MembersOk(ms: seq<Member>) {
    forall m <- ms :: MemberOk(m)
  }

  function MemberBytes(m: Member): Bytes { m.header + m.data + m.pad }

  function Archive(ms: seq<Member>): Bytes {
    if ms == [] then [] else MemberBytes(ms[0]) + Archive(ms[1..])
  }

  /** The archive is over: no further block, or one that is not a header (the format ends it with zero blocks). */
  predicate Ends(tail: Bytes) {
    |tail| < BLOCK || !IsHeader(tail[..BLOCK])
  }

  /** What a reader of the format expects of an archive placed at byte address at. */
  function Listing(ms: seq<Member>, at: nat): seq<Item>
    requires at + |Archive(ms)| < WRAP && forall m <- ms :: |m.header| == BLOCK
  {
    if ms == [] then []
    else
      var m := ms[0];
      [Item(UpToNul(m.header, NAME_MAX), m.header[156], at + BLOCK, |m.data|)] + Listing(ms[1..], at + |MemberBytes(m)|)
  }

  lemma {:induction false} HeaderSize(m: Member)
    requires MemberOk(m) && |m.data| < WRAP
    ensures SizeOf(m.header) == |m.data|
  {
    FieldRoundTrip(m.header[124..136], |m.data|);
  }

  lemma {:induction false} MemberBlocks(m: Member)
    requires MemberOk(m)
    ensures |MemberBytes(m)| == BLOCK * (1 + Padded(|m.data|))
  {
    var n, p := |m.data|, |m.pad|;
    var q := (n + p) / BLOCK;
    assert n + p == BLOCK * q;
    assert Padded(n) == q;
  }

  /** One step over a member: its entry, and the block where the next one begins. */
  lemma {:induction false} StepOver(image: Bytes, blk: nat, m: Member)
    requires MemberOk(m) && |image| < WRAP && blk * BLOCK + |MemberBytes(m)| <= |image|
    requires image[blk * BLOCK..blk * BLOCK + |MemberBytes(m)|] == MemberBytes(m)
    ensures blk < WRAP && Next(image, blk) == Some(Item(UpToNul(m.header, NAME_MAX), m.header[156], (blk + 1) * BLOCK, |m.data|))
    ensures After(blk, |m.data|) * BLOCK == blk * BLOCK + |MemberBytes(m)|
  {
    hide UpToNul, SizeOf, After, MemberBytes, Field, Padded;
    MemberHeader(image, blk * BLOCK, m);
    MemberBlocks(m);
    HeaderSize(m);
    AfterIs(blk, |m.data|);
  }

  lemma {:induction false} MemberHeader(image: Bytes, at: nat, m: Member)
    requires |m.header| == BLOCK && at + |MemberBytes(m)| <= |image| && image[at..at + |MemberBytes(m)|] == MemberBytes(m)
    ensures at + BLOCK <= |image| && image[at..at + BLOCK] == m.header && |m.data| < |MemberBytes(m)|
  {
    var all := MemberBytes(m);
    assert all[..BLOCK] == m.header;
    assert image[at..at + BLOCK] == image[at..at + |all|][..BLOCK];
  }

  /** The walk over an archive lists exactly its members, in order, with their data offsets and sizes, and stops. */
  lemma {:induction false} WalkLists(image: Bytes, blk: nat, ms: seq<Member>, tail: Bytes)
    requires MembersOk(ms) && Ends(tail) && |image| < WRAP
    requires blk * BLOCK <= |image| && image[blk * BLOCK..] == Archive(ms) + tail
    ensures blk < WRAP && Walk(image, blk) == Listing(ms, blk * BLOCK)
    decreases |ms|
  {
    hide UpToNul, SizeOf, After, Walk, Next, Archive, MemberBytes, MemberOk, Ends;
    WalkStepAt(image, blk);
    if ms == [] {
      WalkEnds(image, blk, tail);
    } else {
      FirstMember(image, blk * BLOCK, ms, tail);
      StepOver(image, blk, ms[0]);
      WalkLists(image, After(blk, |ms[0].data|), ms[1..], tail);
    }
  }

  lemma {:induction false} WalkStepAt(image: Bytes, blk: nat)
    requires |image| < WRAP && blk * BLOCK <= |image|
    ensures blk < WRAP && (Next(image, blk).None? ==> Walk(image, blk) == [])
    ensures Next(image, blk).Some? ==>
              var item := Next(image, blk).value;
              Walk(image, blk) == [item] + Walk(image, After(blk, item.size))
  {
    WalkStep(image, blk);
  }

  lemma {:induction false} WalkEnds(image: Bytes, blk: Word, tail: Bytes)
    requires Ends(tail) && blk * BLOCK <= |image| && image[blk * BLOCK..] == Archive([]) + tail
    ensures Next(image, blk).None?
  {
    assert image[blk * BLOCK..] == tail;
    if Readable(image, blk) { assert HeaderAt(image, blk) == tail[..BLOCK]; }
  }

  lemma {:induction false} FirstMember(image: Bytes, at: nat, ms: seq<Member>, tail: Bytes)
    requires ms != [] && at <= |image| && image[at..] == Archive(ms) + tail
    ensures var n := |MemberBytes(ms[0])|;
            at + n <= |image| && image[at..at + n] == MemberBytes(ms[0]) && image[at + n..] == Archive(ms[1..]) + tail
  {
    hide MemberBytes, Archive;
    assert Archive(ms) == MemberBytes(ms[0]) + Archive(ms[1..]) by { ArchiveStep(ms); }
    FrontOf(image, at, MemberBytes(ms[0]), Archive(ms[1..]), tail);
  }

  lemma {:induction false} ArchiveStep(ms: seq<Member>)
    requires ms != []
    ensures Archive(ms) == MemberBytes(ms[0]) + Archive(ms[1..])
  {
    hide MemberBytes;
  }

  lemma {:induction false} FrontOf(image: Bytes, at: nat, m: Bytes, a: Bytes, tail: Bytes)
    requires at <= |image| && image[at..] == m + a + tail
    ensures at + |m| <= |image| && image[at..at + |m|] == m && image[at + |m|..] == a + tail
  {
    var rest := image[at..];
    assert rest == m + (a + tail);
    assert image[at..at + |m|] == rest[..|m|];
    assert image[at + |m|..] == rest[|m|..];
  }

  function RegularMembers(ms: seq<Member>): seq<Member>
    requires forall m <- ms :: |m.header| == BLOCK
  {
    if ms == [] then [] else (if IsRegular(ms[0].header[156]) then [ms[0]] else []) + RegularMembers(ms[1..])
  }

  /** The bytes a listed item names. */
  predicate Holds(image: Bytes, item: Item, data: Bytes) {
    item.size == |data| && item.offset + item.size <= |image| && image[item.offset..item.offset + item.size] == data
  }

  /** One member's item names its data. */
  lemma {:induction false} MemberHeld(image: Bytes, at: nat, m: Member, rest: Bytes, item: Item)
    requires |m.header| == BLOCK && at <= |image| && image[at..] == MemberBytes(m) + rest
    requires item.offset == at + BLOCK && item.size == |m.data|
    ensures Holds(image, item, m.data) && image[at + |MemberBytes(m)|..] == rest
  {
    var data := image[at..][BLOCK..BLOCK + |m.data|];
    assert data == m.data;
    assert image[at + BLOCK..at + BLOCK + |m.data|] == data;
    assert image[at + |MemberBytes(m)|..] == image[at..][|MemberBytes(m)|..];
  }

  /** The k-th file names the k-th member's data, at a whole number of blocks from the archive's start. */
  ghost predicate NamesData(image: Bytes, files: seq<Item>, rs: seq<Member>, at: nat) {
    && |files| == |rs|
    && (forall k :: 0 <= k < |files| ==> Holds(image, files[k], rs[k].data))
    && (forall k :: 0 <= k < |files| ==> files[k].offset % BLOCK == at % BLOCK)
  }

  /** Every regular file of a mounted archive names exactly its member's data, in order. */
  lemma {:induction false} MountedData(image: Bytes, at: nat, ms: seq<Member>, tail: Bytes)
    requires MembersOk(ms) && |image| < WRAP && at <= |image| && image[at..] == Archive(ms) + tail
    ensures NamesData(image, Regular(Listing(ms, at)), RegularMembers(ms), at)
    decreases |ms|
  {
    hide UpToNul, Holds, MemberBytes, IsHeader, Field, NamesData, Padded, Archive;
    assert NamesData(image, [], [], at) by { NamesNone(image, at); }
    if ms != [] {
      var m, n := ms[0], |MemberBytes(ms[0])|;
      ArchiveCons(ms, tail);
      MemberBlocks(m);
      var item := Listing(ms, at)[0];
      MemberHeld(image, at, m, Archive(ms[1..]) + tail, item);
      MountedData(image, at + n, ms[1..], tail);
      ShiftBlocks(at, 1 + Padded(|m.data|));
      RegularStep(item, Listing(ms[1..], at + n));
      NamesCons(image, IsRegular(item.kind), item, m, Regular(Listing(ms[1..], at + n)), RegularMembers(ms[1..]), at, at + n);
    }
  }

  lemma {:induction false} NamesNone(image: Bytes, at: nat)
    ensures NamesData(image, [], [], at)
  {
  }

  lemma {:induction false} NamesCons(image: Bytes, keep: bool, item: Item, m: Member, files: seq<Item>, rs: seq<Member>, at: nat, next: nat)
    requires Holds(image, item, m.data) && item.offset % BLOCK == at % BLOCK == next % BLOCK && NamesData(image, files, rs, next)
    ensures NamesData(image, (if keep then [item] else []) + files, (if keep then [m] else []) + rs, at)
  {
    hide Holds;
    assert [] + files == files && [] + rs == rs;
  }

  lemma {:induction false} ArchiveCons(ms: seq<Member>, tail: Bytes)
    requires ms != []
    ensures Archive(ms) + tail == MemberBytes(ms[0]) + (Archive(ms[1..]) + tail)
            && |Archive(ms)| == |MemberBytes(ms[0])| + |Archive(ms[1..])|
  {
    hide MemberBytes;
  }

  lemma {:induction false} ShiftBlocks(at: nat, k: nat)
    ensures (at + BLOCK * k) % BLOCK == at % BLOCK && (at + BLOCK) % BLOCK == at % BLOCK
  {
  }

  lemma {:induction false} SubSlice(image: Bytes, at: nat, n: nat, off: nat, got: nat)
    requires at + n <= |image| && off + got <= n
    ensures image[at..at + n][off..off + got] == image[at + off..at + off + got]
  {
    var s, t := image[at..at + n][off..off + got], image[at + off..at + off + got];
    assert forall i :: 0 <= i < |s| ==> s[i] == t[i];
  }

  // ------------------------------------------------------------------ names

  /** The path a ustar header spells: the name field, after the prefix field and a slash if there is a prefix. */
  function UstarPath(h: Bytes): Bytes
    requires |h| == BLOCK
  {
    var name := UpToNul(h, 100);
    if h[345] == 0 then name else UpToNul(h[345..], 155) + [47] + name
  }

  /** The walker's name is the header's path exactly when there is no prefix and the name is at most 99 bytes. */
  lemma {:induction false} NameIsPath(h: Bytes)
    requires |h| == BLOCK
    ensures UpToNul(h, NAME_MAX) == UstarPath(h) <==> h[345] == 0 && |UpToNul(h, 100)| <= NAME_MAX
  {
    var name, short := UpToNul(h, 100), UpToNul(h, NAME_MAX);
    if |name| <= NAME_MAX {
      assert name == h[..100][..|name|] == h[..|name|];
      UpToNulIs(h, NAME_MAX, |name|);
    }
  }
}
