/**
  From the image builder to the kernel: the bitmap that mkfs writes is the one the kernel's allocator needs,
  and reading a file of the image gives back the bytes that were appended to it, whatever calls built the image.
*/
module RoundTrip {
  import opened Prelude
  import opened FsLayout
  import opened BlockMap
  import opened FileTree
  import opened Bitmap
  import opened Mkfs
  import opened KernelFs
  import opened FileWrite
  import opened FileRead

  /** `balloc` of mkfs: exactly the first `used` bits of the bitmap are set; a panic if they need a second block. */
  method BAlloc(img: FsImage, bmapStart: nat, used: nat) returns (ok: bool)
    requires img.LaidOut() && Blank(img.disk, img.start, img.meta, img.freeInode)
    requires img.start + img.freeInode / IPB < bmapStart < img.meta
    modifies img`disk
    ensures img.LaidOut() && (ok <==> used < BPB)
    ensures ok ==> forall b: nat :: bmapStart + b / BPB < img.meta ==> (Used(img.disk, bmapStart, b) <==> b < used)
    ensures !ok ==> img.disk == old(img.disk)
  {
    if used >= BPB {
      return false;
    }
    var buf: Block := ZeroBytes(BSIZE);
    ZeroBits();
    var i := 0;
    while i < used
      invariant 0 <= i <= used && img.disk == old(img.disk)
      invariant forall b: nat {:trigger UsedIn(buf, b)} :: b < BPB ==> (UsedIn(buf, b) <==> b < i)
    {
      MarkNext(buf, i);
      buf := MarkIn(buf, i, true);
      i := i + 1;
    }
    BitmapWritten(img.disk, img.own, img.inodes, img.files, img.start, img.meta, img.freeBlock, img.freeInode,
                  bmapStart, buf);
    img.disk := Write(img.disk, bmapStart, buf);
    forall b: nat | bmapStart + b / BPB < img.meta ensures Used(img.disk, bmapStart, b) <==> b < used {
      if b < BPB {
        assert b / BPB == 0 && b % BPB == b;
      } else {
        assert b / BPB > 0 && At(old(img.disk), bmapStart + b / BPB) == ZeroBytes(BSIZE);
        assert !UsedIn(ZeroBytes(BSIZE), b % BPB);
      }
    }
    ok := true;
  }

  lemma ZeroBits()
    ensures forall b: nat {:trigger UsedIn(ZeroBytes(BSIZE), b)} :: b < BPB ==> !UsedIn(ZeroBytes(BSIZE), b)
  {
    forall b: nat | b < BPB ensures !UsedIn(ZeroBytes(BSIZE), b) { NoBit(b % 8); }
  }

  lemma {:induction false} NoBit(k: nat)
    ensures !BitOf(0, k)
  {
    if k > 0 { NoBit(k - 1); }
  }

  lemma MarkNext(buf: Block, i: nat)
    requires i < BPB && forall b: nat {:trigger UsedIn(buf, b)} :: b < BPB ==> (UsedIn(buf, b) <==> b < i)
    ensures forall b: nat {:trigger UsedIn(MarkIn(buf, i, true), b)} :: b < BPB ==>
              (UsedIn(MarkIn(buf, i, true), b) <==> b < i + 1)
  {
    forall b: nat | b < BPB ensures UsedIn(MarkIn(buf, i, true), b) <==> b < i + 1 { MarkInBits(buf, i, true, b); }
  }

  /** The bitmap lies between the inode table and the data blocks. */
  lemma BitmapWritten(d: Disk, own: Uses, inodes: map<nat, Inode>, files: Files, start: nat, meta: nat, free: nat,
                      freeInode: nat, bn: nat, blk: Block)
    requires Laid(d, own, inodes, files, start, meta, free, freeInode) && start + freeInode / IPB < bn < meta
    ensures Laid(Write(d, bn, blk), own, inodes, files, start, meta, free, freeInode)
  {
    var d' := Write(d, bn, blk);
    MetaWrite(own, d, inodes, meta, bn, blk);
    forall b: nat | free <= b ensures At(d', b) == ZeroBytes(BSIZE) { assert At(d, b) == ZeroBytes(BSIZE); }
    forall n | n in inodes ensures InodeAt(d', start, n, inodes[n]) {
      assert InodeAt(d, start, n, inodes[n]) && HandedOut(n, start, meta, freeInode);
      assert n / IPB <= freeInode / IPB;
    }
    forall n | n in files ensures Holds(d', inodes[n].addrs, Padded(files[n])) {
      assert Holds(d, inodes[n].addrs, Padded(files[n]));
      HoldsKept(own, d, d', 0, inodes, n, Padded(files[n]));
    }
  }

  /** The kernel on the image: inodes come from the table, and no block of the image is free to its allocator. */
  method Mount(img: FsImage, bmapStart: nat, size: nat, inums: set<nat>) returns (fs: Fs)
    requires img.LaidOut() && inums == img.files.Keys && 0 < bmapStart
             && bmapStart + size / BPB < img.meta <= img.freeBlock <= size <= U32
    requires forall b: nat :: b < img.freeBlock ==> Used(img.disk, bmapStart, b)
    ensures fresh(fs) && fs.Valid() && fs.disk == img.disk && fs.inodes == img.inodes && fs.own == img.own
    ensures fs.start == bmapStart && fs.meta == img.meta && fs.size == size
  {
    var inodes: map<nat, Inode> := map[];
    var todo := inums;
    while todo != {}
      invariant todo <= inums && inodes.Keys == inums - todo
      invariant forall n {:trigger inodes[n]} :: n in inodes ==> inodes[n] == img.inodes[n]
    {
      var n :| n in todo;
      var ino := img.RInode(n);
      inodes, todo := With(inodes, n, ino), todo - {n};
    }
    assert inodes == img.inodes;
    UsedBits(img.own, img.disk, bmapStart, img.meta, img.freeBlock, size);
    fs := new Fs(img.disk, inodes, bmapStart, img.meta, size, img.own);
  }

  lemma UsedBits(own: Uses, d: Disk, bmapStart: nat, meta: nat, free: nat, size: nat)
    requires Fresh(own, d, meta, free) && free <= size && forall b: nat :: b < free ==> Used(d, bmapStart, b)
    ensures BitsOk(own, d, bmapStart, meta, size)
  {
  }

  /**
    `readi` on a file of a mounted image: the slice of the appended bytes that was asked for, up to the end of the
    file.
  */
  method ReadBack(fs: Fs, inum: nat, offset: nat, n: nat, ghost file: seq<Byte>)
    returns (panicked: bool, ok: bool, bytes: seq<Byte>)
    requires fs.Valid() && inum in fs.inodes && FileIs(fs.disk, fs.inodes[inum], file)
    modifies fs`disk, fs`inodes, fs`own
    ensures panicked <==> offset + n < USIZE && offset > |file|
    ensures !panicked ==>
              fs.Valid() && fs.disk == old(fs.disk) && fs.inodes == old(fs.inodes) && (ok <==> offset + n < USIZE)
    ensures !panicked && ok ==> bytes == file[offset..offset + Min(n, |file| - offset)]
  {
    var end := Min(offset + n, |file|);
    if offset <= |file| { HoldsMapped(fs.disk, fs.inodes[inum].addrs, file, offset, end); }
    panicked, ok, bytes := ReadI(fs, inum, offset, n);
    if !panicked && ok { HoldsSeen(old(fs.disk), old(fs.inodes)[inum].addrs, file, offset, bytes); }
  }

  // ---- The size of the root ----

  /** The next multiple of BSIZE, also for a size that is one. */
  function FixedSize(size: nat): nat {
    (size / BSIZE + 1) * BSIZE
  }

  /**
    The last step of mkfs for the root directory.  Its slots stay as they are, so it stays a file, with zeros behind its
    old end, if and only if its size is no multiple of BSIZE.
  */
  method FixSize(img: FsImage, inum: nat)
    requires img.Valid() && inum in img.files && FixedSize(|img.files[inum]|) < U32
    modifies img`disk, img`inodes, img`files
    ensures img.LaidOut() && Blank(img.disk, img.start, img.meta, img.freeInode) && img.files == old(img.files)
    ensures img.inodes == old(img.inodes)[inum := old(img.inodes)[inum].(size := FixedSize(|img.files[inum]|))]
    ensures if |img.files[inum]| % BSIZE != 0 then FileIs(img.disk, img.inodes[inum], Padded(img.files[inum]))
            else forall bytes :: !FileIs(img.disk, img.inodes[inum], bytes)
  {
    ghost var file := img.files[inum];
    var ino := img.RInode(inum);
    var ino' := ino.(size := FixedSize(ino.size));
    Resized(img.disk, img.own, img.inodes, img.files, img.start, img.meta, img.freeBlock, img.freeInode, inum, ino');
    img.WInode(inum, ino', file);
    SizeFixed(img.disk, img.own, img.inodes, img.files, inum);
  }

  lemma Resized(d: Disk, own: Uses, inodes: map<nat, Inode>, files: Files, start: nat, meta: nat, free: nat,
                freeInode: nat, inum: nat, ino: Inode)
    requires Laid(d, own, inodes, files, start, meta, free, freeInode) && Blank(d, start, meta, freeInode)
    requires inum in files && ino.Valid() && ino == inodes[inum].(size := ino.size)
    ensures Open(d, own, inodes, files, start, meta, free, freeInode, inum, ino, files[inum])
    ensures HandedOut(inum, start, meta, freeInode) && files[inum := files[inum]] == files
  {
    Reopened(d, own, inodes, files, start, meta, free, freeInode, inum);
    SameSlots(own, d, inodes, inum, inodes[inum], ino.size);
  }

  lemma SizeFixed(d: Disk, own: Uses, inodes: map<nat, Inode>, files: Files, inum: nat)
    requires MapOk(own, d, inodes) && UsesFit(own, files) && inum in inodes && inum in files
    requires Holds(d, inodes[inum].addrs, Padded(files[inum])) && inodes[inum].size == FixedSize(|files[inum]|)
    ensures if |files[inum]| % BSIZE != 0 then FileIs(d, inodes[inum], Padded(files[inum]))
            else forall bytes :: !FileIs(d, inodes[inum], bytes)
  {
    if |files[inum]| % BSIZE == 0 {
      var size := |files[inum]|;
      PastEnd(own, d, inodes, files, inum, size / BSIZE);
      forall bytes ensures !FileIs(d, inodes[inum], bytes) {
        assert |bytes| == FixedSize(size) ==> !HoldsAt(d, inodes[inum].addrs, size, bytes[size]);
      }
    }
  }

  // ---- From end to end ----

  /** What mkfs does to the image: `ialloc`, and `iappend` to a file. */
  datatype Op = NewInode | Append(inum: nat, bytes: seq<Byte>)

  /** The number that `ialloc` hands out after the first `n` calls. */
  function NextInode(ops: seq<Op>, n: nat): (next: nat)
    requires n <= |ops|
    ensures 1 <= next
  {
    if n == 0 then 1 else NextInode(ops, n - 1) + if ops[n - 1].NewInode? then 1 else 0
  }

  /** What each file is after the first `n` calls. */
  function FilesAfter(ops: seq<Op>, n: nat): Files
    requires n <= |ops|
  {
    if n == 0 then map[]
    else
      var files := FilesAfter(ops, n - 1);
      match ops[n - 1]
      case NewInode => files[NextInode(ops, n - 1) := []]
      case Append(inum, bytes) => if inum in files then files[inum := files[inum] + bytes] else files
  }

  /** Call `k` appends to a file that is there. */
  predicate IsCall(ops: seq<Op>, k: nat)
    requires k < |ops|
  {
    ops[k].Append? ==> ops[k].inum in FilesAfter(ops, k)
  }

  ghost predicate AllCalls(ops: seq<Op>) {
    forall k: nat {:trigger IsCall(ops, k)} :: k < |ops| ==> IsCall(ops, k)
  }

  /** There are inodes, sizes and block numbers for all that `ops` put into the image. */
  ghost predicate Enough(ops: seq<Op>, start: nat, bmapStart: nat, meta: nat) {
    && 0 < start < bmapStart < meta && start + NextInode(ops, |ops|) / IPB < bmapStart
    && (forall n {:trigger FilesAfter(ops, |ops|)[n]} :: n in FilesAfter(ops, |ops|) ==>
          |FilesAfter(ops, |ops|)[n]| < U32)
    && meta + AllBlocks(FilesAfter(ops, |ops|), NextInode(ops, |ops|)) <= U32
  }

  /** Files only grow. */
  predicate Longer(files: Files, files': Files, n: nat) {
    n in files ==> n in files' && |files[n]| <= |files'[n]|
  }

  lemma {:induction false} Grows(ops: seq<Op>, k: nat, n: nat)
    requires k <= n <= |ops|
    ensures NextInode(ops, k) <= NextInode(ops, n)
    ensures forall i {:trigger Longer(FilesAfter(ops, k), FilesAfter(ops, n), i)} ::
              Longer(FilesAfter(ops, k), FilesAfter(ops, n), i)
    decreases n
  {
    if k < n {
      Grows(ops, k, n - 1);
      BelowNext(ops, n - 1, NextInode(ops, n - 1));
      forall i ensures Longer(FilesAfter(ops, k), FilesAfter(ops, n), i) {
        assert Longer(FilesAfter(ops, k), FilesAfter(ops, n - 1), i);
      }
    }
  }

  lemma {:induction false} BelowNext(ops: seq<Op>, n: nat, i: nat)
    requires n <= |ops|
    ensures i in FilesAfter(ops, n) <==> 1 <= i < NextInode(ops, n)
  {
    if n > 0 { BelowNext(ops, n - 1, i); }
  }

  lemma {:induction false} BlocksGrow(files: Files, files': Files, k: nat, n: nat)
    requires k <= n && forall i {:trigger Longer(files, files', i)} :: Longer(files, files', i)
    ensures AllBlocks(files, k) <= AllBlocks(files', n)
    decreases n
  {
    if k < n {
      BlocksGrow(files, files', k, n - 1);
    } else if n > 0 {
      BlocksGrow(files, files', k - 1, n - 1);
      if n - 1 in files {
        assert Longer(files, files', n - 1);
        MoreBytes(|files[n - 1]|, |files'[n - 1]|);
        TreeGrows(BlockCount(|files[n - 1]|), BlockCount(|files'[n - 1]|));
      }
    }
  }

  /** One call. */
  method Call(img: FsImage, op: Op)
    requires img.Valid() && (op.Append? ==> op.inum in img.files && |img.files[op.inum]| + |op.bytes| < U32)
    requires op.NewInode? ==> img.start + img.freeInode / IPB < img.meta
    requires op.Append? ==>
               img.meta + AllBlocks(img.files[op.inum := img.files[op.inum] + op.bytes], img.freeInode) <= U32
    modifies img
    ensures img.Valid() && img.freeInode == old(img.freeInode) + if op.NewInode? then 1 else 0
    ensures img.files == match op
                         case NewInode => old(img.files)[old(img.freeInode) := []]
                         case Append(inum, bytes) => old(img.files)[inum := old(img.files)[inum] + bytes]
  {
    match op
    case NewInode => var inum := img.IAlloc([0, 0]);
    case Append(inum, bytes) => img.IAppend(inum, bytes);
  }

  /** All calls before call `k` leave room for it. */
  lemma RoomFor(ops: seq<Op>, k: nat, start: nat, bmapStart: nat, meta: nat)
    requires AllCalls(ops) && Enough(ops, start, bmapStart, meta) && k < |ops|
    ensures start + NextInode(ops, k) / IPB < bmapStart
    ensures ops[k].Append? ==>
              var files, inum := FilesAfter(ops, k), ops[k].inum;
              inum in files && |files[inum]| + |ops[k].bytes| < U32
                  && meta + AllBlocks(files[inum := files[inum] + ops[k].bytes], NextInode(ops, k)) <= U32
  {
    var files := FilesAfter(ops, k + 1);
    assert IsCall(ops, k);
    Grows(ops, k, |ops|);
    Grows(ops, k + 1, |ops|);
    BlocksGrow(files, FilesAfter(ops, |ops|), NextInode(ops, k), NextInode(ops, |ops|));
    if ops[k].Append? { assert Longer(files, FilesAfter(ops, |ops|), ops[k].inum); }
  }

  /** mkfs without its last steps: the image holds what the calls put into its files. */
  method Build(ops: seq<Op>, start: nat, ghost bmapStart: nat, meta: nat) returns (img: FsImage)
    requires AllCalls(ops) && Enough(ops, start, bmapStart, meta)
    ensures fresh(img) && img.Valid() && img.start == start && img.meta == meta
    ensures img.files == FilesAfter(ops, |ops|) && img.freeInode == NextInode(ops, |ops|)
  {
    img := new FsImage(start, meta);
    for k := 0 to |ops|
      invariant fresh(img) && img.Valid() && img.start == start && img.meta == meta
      invariant img.files == FilesAfter(ops, k) && img.freeInode == NextInode(ops, k)
    {
      RoomFor(ops, k, start, bmapStart, meta);
      Call(img, ops[k]);
    }
  }

  /** The root directory, which `main` makes first. */
  const ROOTINO: nat := 1

  /** What the kernel reads as file `n`: the root has zeros behind its end, up to its fixed size. */
  function Served(files: Files, n: nat): seq<Byte>
    requires n in files
  {
    if n == ROOTINO then WholeBlocks(files[n]) else files[n]
  }

  /** The disk holds the files, each in its own blocks, and the inodes have their sizes. */
  ghost predicate Serves(d: Disk, own: Uses, inodes: map<nat, Inode>, files: Files) {
    && MapOk(own, d, inodes) && AllHeld(d, inodes, files) && UsesFit(own, files) && At(d, 0) == ZeroBytes(BSIZE)
    && forall n {:trigger inodes[n]} :: n in files ==> inodes[n].size == |Served(files, n)|
  }

  /** The blocks of an image that mkfs has built with these calls, metadata included. */
  function UsedBlocks(ops: seq<Op>, meta: nat): nat {
    meta + AllBlocks(FilesAfter(ops, |ops|), NextInode(ops, |ops|))
  }

  /** mkfs does not stop, and its image is one for the kernel: it has a root, and all that it holds is in it. */
  ghost predicate Builds(ops: seq<Op>, start: nat, bmapStart: nat, meta: nat, size: nat) {
    && AllCalls(ops) && Enough(ops, start, bmapStart, meta) && bmapStart + size / BPB < meta
    && UsedBlocks(ops, meta) < BPB && UsedBlocks(ops, meta) <= size <= U32
    && ROOTINO in FilesAfter(ops, |ops|) && FixedSize(|FilesAfter(ops, |ops|)[ROOTINO]|) < U32
  }

  /** The whole of mkfs and then the mount: exactly the blocks that are not in use are free to the kernel. */
  method Install(ops: seq<Op>, start: nat, bmapStart: nat, meta: nat, size: nat, inums: set<nat>) returns (fs: Fs)
    requires Builds(ops, start, bmapStart, meta, size) && inums == FilesAfter(ops, |ops|).Keys
    ensures fresh(fs) && fs.Valid() && fs.start == bmapStart && fs.meta == meta && fs.size == size
    ensures Serves(fs.disk, fs.own, fs.inodes, FilesAfter(ops, |ops|))
    ensures FreeCount(fs.disk, fs.start, fs.size) == size - UsedBlocks(ops, meta)
  {
    var img := Build(ops, start, bmapStart, meta);
    FixSize(img, ROOTINO);
    var marked := BAlloc(img, bmapStart, img.freeBlock);
    assert forall b: nat | b < img.freeBlock :: b / BPB == 0;
    fs := Mount(img, bmapStart, size, inums);
    forall b: nat | b < size ensures Used(fs.disk, bmapStart, b) <==> b < UsedBlocks(ops, meta) {
      BitmapBelow(bmapStart, meta, size, b);
    }
    FreeIs(fs.disk, bmapStart, size, UsedBlocks(ops, meta));
  }

  lemma FreeIs(d: Disk, start: nat, size: nat, used: nat)
    requires used <= size
    requires forall b: nat {:trigger Used(d, start, b)} :: b < size ==> (Used(d, start, b) <==> b < used)
    ensures FreeCount(d, start, size) == size - used
  {
    assert Below(size) == Below(used) + FreeSet(d, start, size);
    assert Below(used) !! FreeSet(d, start, size);
  }

  /** What `readi` sees of a file is what it is served as. */
  lemma ServedSeen(d: Disk, own: Uses, inodes: map<nat, Inode>, files: Files, n: nat, x: nat)
    requires Serves(d, own, inodes, files) && n in files && x < |Served(files, n)|
    ensures |inodes[n].addrs| == NDIRECT + 2 && Seen(d, inodes[n].addrs, x) == Served(files, n)[x]
  {
    assert Holds(d, inodes[n].addrs, Padded(files[n]));
    if x < |Padded(files[n])| {
      assert HoldsAt(d, inodes[n].addrs, x, Padded(files[n])[x]);
    } else {
      PastEnd(own, d, inodes, files, n, x / BSIZE);
    }
  }

  /** The range reaches the block that a root has not been given. */
  predicate Behind(files: Files, n: nat, offset: nat, end: nat) {
    n == ROOTINO && n in files && |files[n]| % BSIZE == 0 && offset < end && |files[n]| < end
  }

  /** What `bmap` takes for that block: itself, and the indirect block if it is the first behind the direct ones. */
  function HoleBlocks(fbn: nat): nat {
    if fbn == NDIRECT then 2 else 1
  }

  lemma HolesLast(d: Disk, addrs: seq<nat>, lo: nat, hi: nat)
    requires |addrs| == NDIRECT + 2 && lo <= hi
    ensures Holes(d, addrs, lo, hi + 1) == Holes(d, addrs, lo, hi) + Missing(Find(d, addrs, hi))
    decreases hi - lo
  {
    if lo < hi { HolesLast(d, addrs, lo + 1, hi); }
  }

  lemma BlockMapped(d: Disk, own: Uses, inodes: map<nat, Inode>, files: Files, n: nat, f: nat)
    requires Serves(d, own, inodes, files) && n in files
    ensures |inodes[n].addrs| == NDIRECT + 2 && Holds(d, inodes[n].addrs, Padded(files[n]))
    ensures f < BlockCount(|files[n]|) ==> Find(d, inodes[n].addrs, f) != 0
  {
    assert Holds(d, inodes[n].addrs, Padded(files[n]));
    if f < BlockCount(|files[n]|) { BeforeEnd(d, inodes[n].addrs, files[n], f); }
  }

  lemma AllMapped(d: Disk, own: Uses, inodes: map<nat, Inode>, files: Files, n: nat, lo: nat, hi: nat)
    requires Serves(d, own, inodes, files) && n in files && hi <= BlockCount(|files[n]|)
    ensures |inodes[n].addrs| == NDIRECT + 2 && Holes(d, inodes[n].addrs, lo, hi) == 0
    ensures NDIRECT < hi ==> inodes[n].addrs[NDIRECT] != 0
  {
    BlockMapped(d, own, inodes, files, n, 0);
    forall f: nat | lo <= f < hi ensures Find(d, inodes[n].addrs, f) != 0 { BlockMapped(d, own, inodes, files, n, f); }
    NoHoles(d, inodes[n].addrs, lo, hi);
    IndirectSet(own, d, inodes, files, n);
  }

  /** A range that stays out of the missing block stays in the blocks of the file. */
  lemma InBlocks(files: Files, n: nat, offset: nat, end: nat)
    requires n in files && offset < end <= |Served(files, n)| && !Behind(files, n, offset, end)
    ensures (end - 1) / BSIZE + 1 <= BlockCount(|files[n]|)
  {
  }

  lemma AtMissing(files: Files, n: nat, offset: nat, end: nat)
    requires Behind(files, n, offset, end) && end <= |Served(files, n)|
    ensures (end - 1) / BSIZE == |files[n]| / BSIZE == BlockCount(|files[n]|) && offset / BSIZE <= |files[n]| / BSIZE
  {
  }

  /** The slots at the end of a file. */
  lemma AtEnd(d: Disk, own: Uses, inodes: map<nat, Inode>, files: Files, n: nat, last: nat)
    requires Serves(d, own, inodes, files) && n in files && last == BlockCount(|files[n]|)
    ensures |inodes[n].addrs| == NDIRECT + 2 && Find(d, inodes[n].addrs, last) == 0
    ensures inodes[n].addrs[NDIRECT] != 0 <==> NDIRECT < last
  {
    BlockMapped(d, own, inodes, files, n, 0);
    PastEnd(own, d, inodes, files, n, last);
    IndirectSet(own, d, inodes, files, n);
  }

  lemma HoleNeeds(d: Disk, own: Uses, inodes: map<nat, Inode>, files: Files, n: nat, lo: nat, last: nat)
    requires Serves(d, own, inodes, files) && n in files && last == BlockCount(|files[n]|)
    requires lo <= last < NDIRECT + WORDS
    ensures |inodes[n].addrs| == NDIRECT + 2
    ensures BlocksNeeded(d, inodes[n].addrs, lo, last + 1) == HoleBlocks(last)
  {
    AllMapped(d, own, inodes, files, n, lo, last);
    AtEnd(d, own, inodes, files, n, last);
    OneHole(d, inodes[n].addrs, lo, last);
  }

  lemma OneHole(d: Disk, addrs: seq<nat>, lo: nat, last: nat)
    requires |addrs| == NDIRECT + 2 && lo <= last < NDIRECT + WORDS && (addrs[NDIRECT] != 0 <==> NDIRECT < last)
    requires Holes(d, addrs, lo, last) == 0 && Find(d, addrs, last) == 0
    ensures BlocksNeeded(d, addrs, lo, last + 1) == HoleBlocks(last)
  {
    HolesLast(d, addrs, lo, last);
  }

  /** Only behind the old end of the root a block is missing, and perhaps the table for it. */
  lemma ServedNeeds(d: Disk, own: Uses, inodes: map<nat, Inode>, files: Files, n: nat, offset: nat, end: nat)
    requires Serves(d, own, inodes, files) && n in files && end <= |Served(files, n)|
    requires Behind(files, n, offset, end) ==> |files[n]| / BSIZE < NDIRECT + WORDS
    ensures |inodes[n].addrs| == NDIRECT + 2
    ensures WriteNeeds(d, inodes[n].addrs, offset, end) ==
            if Behind(files, n, offset, end) then HoleBlocks(|files[n]| / BSIZE) else 0
  {
    AtEnd(d, own, inodes, files, n, BlockCount(|files[n]|));
    if Behind(files, n, offset, end) {
      AtMissing(files, n, offset, end);
      HoleNeeds(d, own, inodes, files, n, offset / BSIZE, |files[n]| / BSIZE);
    } else if offset < end {
      InBlocks(files, n, offset, end);
      AllMapped(d, own, inodes, files, n, offset / BSIZE, (end - 1) / BSIZE + 1);
    }
  }

  lemma ServedPlaced(d: Disk, own: Uses, inodes: map<nat, Inode>, files: Files, n: nat, offset: nat, end: nat)
    requires Serves(d, own, inodes, files) && n in files && end <= |Served(files, n)|
    requires Behind(files, n, offset, end) ==> |files[n]| / BSIZE < NDIRECT + WORDS
    ensures |inodes[n].addrs| == NDIRECT + 2 && AllPlaced(d, inodes[n].addrs, offset, end)
  {
    BlockMapped(d, own, inodes, files, n, 0);
    forall x: nat | offset <= x < end ensures Placed(d, inodes[n].addrs, x) {
      BlockMapped(d, own, inodes, files, n, x / BSIZE);
      if Behind(files, n, offset, end) { AtMissing(files, n, offset, end); } else { InBlocks(files, n, offset, end); }
      assert x / BSIZE <= (end - 1) / BSIZE;
    }
  }

  /**
    `readi` of any file of an image that mkfs has built with any calls and the kernel has mounted: the slice that was
    asked for of the bytes that were appended, up to the end of the file, and behind the end of the root zeros.  It
    panics if and only if the range starts past the end, or reaches a block that the root was not given
    while there are too few blocks for it.
  */
  method BuildAndRead(ops: seq<Op>, start: nat, bmapStart: nat, meta: nat, size: nat, inum: nat, offset: nat,
                      n: nat, inums: set<nat>)
    returns (panicked: bool, ok: bool, bytes: seq<Byte>)
    requires Builds(ops, start, bmapStart, meta, size) && inums == FilesAfter(ops, |ops|).Keys && inum in inums
    requires var root := FilesAfter(ops, |ops|)[ROOTINO]; |root| % BSIZE == 0 ==> |root| / BSIZE < NDIRECT + WORDS
    ensures var files := FilesAfter(ops, |ops|);
            var end := Min(offset + n, |Served(files, inum)|);
            && (panicked <==>
                  offset + n < USIZE
                      && (offset > |Served(files, inum)|
                          || (Behind(files, inum, offset, end)
                              && size - UsedBlocks(ops, meta) < HoleBlocks(|files[inum]| / BSIZE))))
            && (!panicked ==> (ok <==> offset + n < USIZE))
            && (!panicked && ok ==> bytes == Served(files, inum)[offset..end])
  {
    var fs := Install(ops, start, bmapStart, meta, size, inums);
    ghost var files := FilesAfter(ops, |ops|);
    ghost var d, addrs, end := fs.disk, fs.inodes[inum].addrs, Min(offset + n, |Served(files, inum)|);
    ServedNeeds(d, fs.own, fs.inodes, files, inum, offset, end);
    ServedPlaced(d, fs.own, fs.inodes, files, inum, offset, end);
    forall x: nat | x < |Served(files, inum)| ensures Seen(d, addrs, x) == Served(files, inum)[x] {
      ServedSeen(d, fs.own, fs.inodes, files, inum, x);
    }
    panicked, ok, bytes := ReadI(fs, inum, offset, n);
    if !panicked && ok {
      assert forall k: nat | k < |bytes| :: bytes[k] == Seen(d, addrs, offset + k);
      assert bytes == Served(files, inum)[offset..end];
    }
  }
}
