/** The tar walker and the page cache together: a mounted archive's files read as its members' data. */
module Mounted {
  import opened Basics
  import opened Bits
  import opened Octal
  import opened Tar
  import opened PageCache
  import opened TarFs

  function InodeAt(items: seq<Item>, base: nat, n: nat): Inode
    requires base <= n < base + |items|
  {
    Inode(items[n - base].offset, items[n - base].size)
  }

  /** tarfs_fill_super gives the regular files consecutive inode numbers. */
  function Inodes(items: seq<Item>, base: nat): map<nat, Inode> {
    map n: nat | base <= n < base + |items| :: InodeAt(items, base, n)
  }

  lemma {:induction false} NamedFilesOk(image: Bytes, items: seq<Item>, rs: seq<Member>, base: nat)
    requires |image| < WRAP && NamesData(image, items, rs, 0)
    ensures FilesOk(Inodes(items, base), image)
  {
    var files := Inodes(items, base);
    forall n <- files ensures files[n].offset % BLOCK == 0 && files[n].offset + files[n].size <= |image| {
      assert Holds(image, items[n - base], rs[n - base].data);
    }
  }

  lemma {:induction false} NamedSlice(image: Bytes, item: Item, data: Bytes, off: nat, got: nat)
    requires Holds(image, item, data) && off + got <= |data|
    ensures item.offset + off + got <= |image| && image[item.offset + off..item.offset + off + got] == data[off..off + got]
  {
    SubSlice(image, item.offset, item.size, off, got);
  }

  /** Mounting an archive leaves a file table the read path can serve. */
  lemma {:induction false} MountedFilesOk(image: Bytes, ms: seq<Member>, tail: Bytes, base: nat)
    requires MembersOk(ms) && Ends(tail) && |image| < WRAP && image == Archive(ms) + tail
    ensures NamesData(image, Regular(Walk(image, 0)), RegularMembers(ms), 0)
    ensures FilesOk(Inodes(Regular(Walk(image, 0)), base), image)
  {
    hide Walk, Regular, Ends, NamesData, Inodes, FilesOk;
    assert image[0..] == image;
    WalkLists(image, 0, ms, tail);
    MountedData(image, 0, ms, tail);
    NamedFilesOk(image, Regular(Walk(image, 0)), RegularMembers(ms), base);
  }

  /**
   What tarfs_read delivers from byte off of the k-th regular file is the k-th regular member's data from
   byte off: the device bytes its contract names are those.
   */
  lemma {:induction false} ReadIsMemberData(image: Bytes, ms: seq<Member>, tail: Bytes, base: nat, k: nat, off: nat, got: nat)
    requires MembersOk(ms) && Ends(tail) && |image| < WRAP && image == Archive(ms) + tail
    requires k < |RegularMembers(ms)| && off + got <= |RegularMembers(ms)[k].data|
    ensures var files, data := Inodes(Regular(Walk(image, 0)), base), RegularMembers(ms)[k].data;
            && base + k in files && files[base + k].size == |data| && files[base + k].offset + off + got <= |image|
            && image[files[base + k].offset + off..files[base + k].offset + off + got] == data[off..off + got]
  {
    hide Walk, Regular, RegularMembers, Ends, Holds, FilesOk, Archive;
    MountedFilesOk(image, ms, tail, base);
    var items := Regular(Walk(image, 0));
    assert InodeAt(items, base, base + k) == Inode(items[k].offset, items[k].size);
    HeldSize(image, items[k], RegularMembers(ms)[k].data);
    NamedSlice(image, items[k], RegularMembers(ms)[k].data, off, got);
  }

  lemma {:induction false} HeldSize(image: Bytes, item: Item, data: Bytes)
    requires Holds(image, item, data)
    ensures item.size == |data|
  {
  }

  /** From an empty cache a read from a file's start is whole exactly when there are slots and frames for its pages. */
  lemma {:induction false} WholeFits(ino: nat, size: nat, len: nat, pool: nat)
    requires size <= WRAP
    ensures var n := if len < size then len else size;
            && Want(size, 0, len) == n
            && (Fits({}, pool, Wanted(ino, 0, n)) <==> (n + 4095) / 4096 <= (if pool < 64 then pool else 64))
  {
    hide Fits, Between;
    var n := if len < size then len else size;
    WantIsGreatest(size, 0, len, n);
    if n > 0 { EmptyCacheFits(ino, 0, n, pool); } else { Nothing({}, pool); }
  }

  /** Mounting an archive and reading one of its files into a buffer. */
  method ReadMounted(image: Bytes, ghost ms: seq<Member>, ghost tail: Bytes, base: nat, k: nat, mem: map<nat, Bytes>,
      pool: seq<nat>, buf: array<Byte>, len: Word)
    returns (r: int, filp: File, fs: FileSystem)
    requires MembersOk(ms) && Ends(tail) && |image| < WRAP && image == Archive(ms) + tail
    requires k < |RegularMembers(ms)| && PoolOk([], pool, mem) && len <= buf.Length
    modifies buf
    ensures filp.pos <= len && filp.pos <= |RegularMembers(ms)[k].data|
    ensures buf[..filp.pos] == RegularMembers(ms)[k].data[..filp.pos] && buf[filp.pos..] == old(buf[..])[filp.pos..]
    ensures filp.pos < 0x8000_0000 ==> r == filp.pos
    ensures fs.faults == 0 ==>
              var data := RegularMembers(ms)[k].data;
              var n := if len < |data| then len else |data|;
              filp.pos == n <==> (n + 4095) / 4096 <= (if |pool| < 64 then |pool| else 64)
  {
    hide Walk, Regular, RegularMembers, Ends, Fits, Want, Wanted, Archive, NamesData, FilesOk, PoolOk;
    var items := Mount(image);
    MountedFilesOk(image, ms, tail, base);
    ReadIsMemberData(image, ms, tail, base, k, 0, 0);
    fs := new FileSystem(image, Inodes(items, base), mem, pool);
    filp := new File(base + k);
    ghost var size := |RegularMembers(ms)[k].data|;
    WholeFits(base + k, size, len, |pool|);
    r := fs.Read(filp, buf, len);
    ReadIsMemberData(image, ms, tail, base, k, 0, filp.pos);
  }
}
