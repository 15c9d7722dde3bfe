/**
  Small file systems on which `bmap`, `writei` and `itrunc` (kernel/src/fs.rs) and the last step of mkfs do not do what
  they are for.  The first has 100 blocks, with the bitmap in block 1; file 1 has its eleven direct blocks, all zeros.
*/
module FsCases {
  import opened Prelude
  import opened FsLayout
  import opened BlockMap
  import opened FileTree
  import opened Bitmap
  import opened KernelFs
  import opened FileWrite
  import opened FileRead
  import opened Mkfs
  import opened RoundTrip
  import opened Directory

  /** The bits of blocks 0 to 12 are set. */
  function Bits(): Block {
    ZeroBytes(BSIZE)[0 := 0xFF][1 := 0x1F]
  }

  function Image(): Disk {
    map[1 := Bits()]
  }

  function DirectAddrs(): seq<nat> {
    seq<nat>(NDIRECT, i => i + 2) + [0, 0]
  }

  function Table(): map<nat, Inode> {
    map[1 := Inode([0, 0], NDIRECT * BSIZE, DirectAddrs())]
  }

  /** The blocks of file 1. */
  predicate IsDirect(b: nat) {
    2 <= b < NDIRECT + 2
  }

  function DirectUses(): Uses {
    map b: nat | b < NDIRECT + 2 && IsDirect(b) :: Data(1, b - 2)
  }

  lemma {:induction false} LowBits(n: nat, k: nat)
    ensures BitOf(Power(n) - 1, k) <==> k < n
  {
    if n > 0 && k > 0 {
      LowBits(n - 1, k - 1);
      assert (Power(n) - 1) / 2 == Power(n - 1) - 1;
    } else if k > 0 {
      LowBits(0, k - 1);
    }
  }

  lemma ImageBits(x: nat)
    requires x < 100
    ensures Used(Image(), 1, x) <==> x < 13
  {
    assert Power(8) == 256 && Power(5) == 32 && Power(0) == 1;
    LowBits(8, x % 8);
    LowBits(5, x % 8);
    LowBits(0, x % 8);
  }

  lemma DirectSlots()
    ensures InodeOk(DirectUses(), 1, DirectAddrs())
  {
  }

  lemma ImageMap()
    ensures MapOk(DirectUses(), Image(), Table())
  {
    DirectSlots();
  }

  lemma ImageUsed()
    ensures BitsOk(DirectUses(), Image(), 1, 2, 100)
  {
    forall b | b in DirectUses() ensures BlockUsed(Image(), 1, 2, 100, b) { ImageBits(b); }
    forall b: nat | b < 2 ensures Used(Image(), 1, b) { ImageBits(b); }
  }

  lemma ImageFree()
    ensures FreeCount(Image(), 1, 100) >= 3
  {
    ImageBits(13);
    ImageBits(14);
    ImageBits(15);
    var free := FreeSet(Image(), 1, 100);
    assert free == {13, 14, 15} + (free - {13, 14, 15});
  }

  method Boot() returns (fs: Fs)
    ensures fresh(fs) && fs.Valid() && fs.disk == Image() && fs.inodes == Table() && fs.start == 1 && fs.size == 100
    ensures FreeCount(fs.disk, fs.start, fs.size) >= 3
  {
    ImageMap();
    ImageUsed();
    ImageFree();
    fs := new Fs(Image(), Table(), 1, 2, 100, DirectUses());
  }

  /** The first touch of the block behind the end of the file: it becomes mapped, and 0 is returned. */
  method FirstTouch() returns (ok: bool, bn: nat, mapped: nat)
    ensures ok && bn == 0 && mapped != 0
  {
    var fs := Boot();
    ok, bn := fs.Bmap(1, NDIRECT);
    mapped := Find(fs.disk, fs.inodes[1].addrs, NDIRECT);
  }

  /** A byte written behind the direct blocks of a file reads back as zero. */
  method LostByte(x: Byte) returns (panicked: bool, ok: bool, back: seq<Byte>)
    ensures !panicked && ok && back == [0]
  {
    var fs := Boot();
    DirectFile(x);
    panicked, ok := WriteI(fs, 1, NDIRECT * BSIZE, [x], DirectBytes());
    ghost var file := DirectBytes() + [0];
    HoldsMapped(fs.disk, fs.inodes[1].addrs, file, NDIRECT * BSIZE, NDIRECT * BSIZE + 1);
    ghost var disk, addrs := fs.disk, fs.inodes[1].addrs;
    panicked, ok, back := ReadI(fs, 1, NDIRECT * BSIZE, 1);
    HoldsSeen(disk, addrs, file, NDIRECT * BSIZE, back);
  }

  function DirectBytes(): seq<Byte> {
    ZeroBytes(NDIRECT * BSIZE)
  }

  lemma DirectFile(x: Byte)
    ensures Holds(Image(), DirectAddrs(), DirectBytes())
            && AllPlaced(Image(), DirectAddrs(), NDIRECT * BSIZE, NDIRECT * BSIZE + 1)
    ensures WriteNeeds(Image(), DirectAddrs(), NDIRECT * BSIZE, NDIRECT * BSIZE + 1) == 2
    ensures Over(DirectBytes(), NDIRECT * BSIZE,
                 Stored(Image(), DirectAddrs(), NDIRECT * BSIZE, [x])) == DirectBytes() + [0]
  {
    forall k: nat | k < NDIRECT * BSIZE ensures HoldsAt(Image(), DirectAddrs(), k, 0) {
      assert DirectAddrs()[k / BSIZE] > 1;
    }
    assert NDIRECT * BSIZE / BSIZE == NDIRECT;
    assert Holes(Image(), DirectAddrs(), NDIRECT, NDIRECT + 1) == 1;
    assert Stored(Image(), DirectAddrs(), NDIRECT * BSIZE, [x]) == [0];
  }

  // ---- Blocks that are not given back ----

  /** An empty root, and a file that fills its direct and indirect blocks. */
  function FullOps(bytes: seq<Byte>): seq<Op> {
    [NewInode, NewInode, Append(2, bytes)]
  }

  lemma {:induction false} ShortTree(n: nat)
    requires n <= NDIRECT + WORDS
    ensures TreeBlocks(n) == n + if n > NDIRECT then 1 else 0
  {
    if n > 0 { ShortTree(n - 1); }
  }

  lemma FullFiles(bytes: seq<Byte>)
    ensures FilesAfter(FullOps(bytes), 3) == map[1 := [], 2 := bytes] && NextInode(FullOps(bytes), 3) == 3
    ensures AllCalls(FullOps(bytes))
    ensures AllBlocks(map[1 := [], 2 := bytes], 3) == TreeBlocks(BlockCount(|bytes|))
  {
    var ops := FullOps(bytes);
    assert NextInode(ops, 1) == 2 && NextInode(ops, 2) == 3;
    assert FilesAfter(ops, 1) == map[1 := []];
    assert FilesAfter(ops, 2) == map[1 := [], 2 := []];
    assert FilesAfter(ops, 3) == map[1 := [], 2 := [] + bytes] && [] + bytes == bytes;
    var files: Files := map[1 := [], 2 := bytes];
    assert AllBlocks(files, 1) == 0 && AllBlocks(files, 2) == 0;
  }

  lemma FullBuilds(bytes: seq<Byte>)
    requires |bytes| == (NDIRECT + WORDS) * BSIZE
    ensures Builds(FullOps(bytes), 1, 2, 4, 2000) && UsedBlocks(FullOps(bytes), 4) == 4 + NDIRECT + WORDS + 1
  {
    FullFiles(bytes);
    assert BlockCount(|bytes|) == NDIRECT + WORDS;
    ShortTree(BlockCount(|bytes|));
  }

  lemma {:induction false} AddrCount(own: Uses, inum: nat, addrs: seq<nat>, n: nat)
    requires InodeOk(own, inum, addrs) && n <= NDIRECT + 1 && forall i: nat :: i < n ==> addrs[i] != 0
    ensures |AddrSet(addrs, n)| == n
  {
    if n > 0 {
      AddrCount(own, inum, addrs, n - 1);
      AddrNew(own, inum, addrs, n - 1, n - 1);
    }
  }

  lemma {:induction false} WordCount(own: Uses, inum: nat, addrs: seq<nat>, blk: Block, n: nat)
    requires InodeOk(own, inum, addrs) && BlockOk(own, Ind(inum), blk) && n <= WORDS
    requires forall j: nat {:trigger Word(blk, j)} :: j < n ==> Word(blk, j) != 0
    ensures |AddrSet(addrs, NDIRECT) + WordSetOf(blk, n)| == |AddrSet(addrs, NDIRECT)| + n
  {
    var direct := AddrSet(addrs, NDIRECT);
    if n == 0 {
      assert direct + WordSetOf(blk, 0) == direct;
    } else {
      WordCount(own, inum, addrs, blk, n - 1);
      WordNew(own, inum, addrs, blk, n - 1, n - 1);
      assert Word(blk, n - 1) != 0;
      OneMoreWord(direct, blk, n);
    }
  }

  lemma OneMoreWord(direct: set<nat>, blk: Block, n: nat)
    requires 0 < n <= WORDS && Word(blk, n - 1) != 0 && Word(blk, n - 1) !in direct + WordSetOf(blk, n - 1)
    ensures |direct + WordSetOf(blk, n)| == |direct + WordSetOf(blk, n - 1)| + 1
  {
    assert direct + WordSetOf(blk, n) == direct + WordSetOf(blk, n - 1) + {Word(blk, n - 1)};
  }

  /** All direct and indirect slots of a file are in use, and the double-indirect one is not. */
  ghost predicate Filled(d: Disk, own: Uses, inodes: map<nat, Inode>, inum: nat) {
    && MapOk(own, d, inodes) && inum in inodes && |inodes[inum].addrs| == NDIRECT + 2
    && (forall f: nat {:trigger Find(d, inodes[inum].addrs, f)} :: f < NDIRECT + WORDS ==>
          Find(d, inodes[inum].addrs, f) != 0)
    && inodes[inum].addrs[NDIRECT] != 0 && inodes[inum].addrs[NDIRECT + 1] == 0
  }

  lemma FilledBlocks(d: Disk, own: Uses, inodes: map<nat, Inode>, inum: nat)
    requires Filled(d, own, inodes, inum)
    ensures |FileBlocks(d, inodes[inum].addrs)| == NDIRECT + WORDS + 1
  {
    var addrs := inodes[inum].addrs;
    var blk := At(d, addrs[NDIRECT]);
    assert InodeOk(own, inum, addrs);
    assert Points(own, addrs[NDIRECT], AddrUse(inum, NDIRECT));
    assert BlockOk(own, Ind(inum), blk) by { assert BlockOk(own, own[addrs[NDIRECT]], blk); }
    forall i: nat | i < NDIRECT ensures addrs[i] != 0 { assert Find(d, addrs, i) != 0; }
    forall j: nat | j < WORDS ensures Word(blk, j) != 0 { assert Find(d, addrs, NDIRECT + j) != 0; }
    AddrCount(own, inum, addrs, NDIRECT);
    WordCount(own, inum, addrs, blk, WORDS);
    AddrNew(own, inum, addrs, NDIRECT, NDIRECT);
    TableNew(own, inum, addrs, blk, WORDS);
    assert FileBlocks(d, addrs) == AddrSet(addrs, NDIRECT) + WordSetOf(blk, WORDS) + {addrs[NDIRECT]};
  }

  lemma {:induction false} SameAddrs(addrs: seq<nat>, addrs': seq<nat>, n: nat)
    requires n <= |addrs| && n <= |addrs'| && forall j: nat :: j < n ==> addrs'[j] == addrs[j]
    ensures AddrSet(addrs', n) == AddrSet(addrs, n)
  {
    if n > 0 { SameAddrs(addrs, addrs', n - 1); }
  }

  lemma {:induction false} SameWords(blk: Block, blk': Block, n: nat)
    requires n <= WORDS && forall j: nat {:trigger Word(blk', j)} :: j < n ==> Word(blk', j) == Word(blk, j)
    ensures WordSetOf(blk', n) == WordSetOf(blk, n)
  {
    if n > 0 { SameWords(blk, blk', n - 1); }
  }

  /** A new double-indirect block leaves the others alone. */
  lemma SameFileBlocks(d: Disk, own: Uses, inodes: map<nat, Inode>, inum: nat, d': Disk, addrs': seq<nat>)
    requires Filled(d, own, inodes, inum) && Extends(d, inodes[inum].addrs, d', addrs')
    requires forall j: nat :: j < NDIRECT + 1 ==> addrs'[j] == inodes[inum].addrs[j]
    ensures FileBlocks(d', addrs') == FileBlocks(d, inodes[inum].addrs)
  {
    var addrs := inodes[inum].addrs;
    SameAddrs(addrs, addrs', NDIRECT + 1);
    forall j: nat | j < WORDS ensures Word(At(d', addrs[NDIRECT]), j) == Word(At(d, addrs[NDIRECT]), j) {
      assert Find(d', addrs', NDIRECT + j) == Find(d, addrs, NDIRECT + j);
    }
    SameWords(At(d, addrs[NDIRECT]), At(d', addrs[NDIRECT]), WORDS);
  }

  lemma FullFile(d: Disk, own: Uses, inodes: map<nat, Inode>, files: Files)
    requires Serves(d, own, inodes, files) && 2 in files && |files[2]| == (NDIRECT + WORDS) * BSIZE
    ensures Filled(d, own, inodes, 2) && Needed(d, inodes[2].addrs, NDIRECT + WORDS) == 3
  {
    assert BlockCount(|files[2]|) == NDIRECT + WORDS;
    BlockMapped(d, own, inodes, files, 2, 0);
    forall f: nat | f < NDIRECT + WORDS ensures Find(d, inodes[2].addrs, f) != 0 {
      BlockMapped(d, own, inodes, files, 2, f);
    }
    IndirectSet(own, d, inodes, files, 2);
    DoubleSet(own, d, inodes, files, 2, NDIRECT + WORDS);
    ZeroWords(0);
  }

  method FullBoot(bytes: seq<Byte>) returns (fs: Fs)
    requires |bytes| == (NDIRECT + WORDS) * BSIZE
    ensures fresh(fs) && fs.Valid() && Filled(fs.disk, fs.own, fs.inodes, 2)
    ensures Needed(fs.disk, fs.inodes[2].addrs, NDIRECT + WORDS) == 3
    ensures FreeCount(fs.disk, fs.start, fs.size) == 2000 - 4 - (NDIRECT + WORDS + 1)
  {
    FullFiles(bytes);
    FullBuilds(bytes);
    fs := Install(FullOps(bytes), 1, 2, 4, 2000, {1, 2});
    FullFile(fs.disk, fs.own, fs.inodes, map[1 := [], 2 := bytes]);
  }

  /** Touching the block behind the end and cutting the file to nothing. */
  method TouchAndCut(fs: Fs) returns (ok: bool, size: nat)
    requires fs.Valid() && Filled(fs.disk, fs.own, fs.inodes, 2)
    requires Needed(fs.disk, fs.inodes[2].addrs, NDIRECT + WORDS) == 3 <= FreeCount(fs.disk, fs.start, fs.size)
    modifies fs`disk, fs`inodes, fs`own
    ensures ok && size == 0
    ensures FreeCount(fs.disk, fs.start, fs.size) ==
            old(FreeCount(fs.disk, fs.start, fs.size)) + (NDIRECT + WORDS + 1) - 3
  {
    ghost var d, own, inodes := fs.disk, fs.own, fs.inodes;
    FilledBlocks(d, own, inodes, 2);
    var mapped, bn := fs.Bmap(2, NDIRECT + WORDS);
    SameFileBlocks(d, own, inodes, 2, fs.disk, fs.inodes[2].addrs);
    var freed := fs.ITrunc(2);
    size, ok := fs.inodes[2].size, mapped && freed;
  }

  /**
    The block behind the end of a file that fills its direct and indirect blocks takes three, and `itrunc` gives none of
    them back: of the data blocks three are not free, and no file has a byte.
  */
  method LostBlocks(bytes: seq<Byte>) returns (ok: bool, size: nat, ghost free: nat)
    requires |bytes| == (NDIRECT + WORDS) * BSIZE
    ensures ok && size == 0 && free == 2000 - 4 - 3
  {
    var fs := FullBoot(bytes);
    ok, size := TouchAndCut(fs);
    free := FreeCount(fs.disk, fs.start, fs.size);
  }

  // ---- A root beyond its blocks ----

  lemma OneBlock(file: seq<Byte>)
    requires |file| <= BSIZE
    ensures AllBlocks(map[1 := file], 2) <= 1
  {
    var files: Files := map[1 := file];
    assert AllBlocks(files, 1) == 0;
    assert BlockCount(|file|) <= 1 && TreeBlocks(0) == 0 && TreeBlocks(1) == 1;
  }

  /**
    A root directory of 128 entries, as mkfs makes it for 126 programs: it fills one block, gets the size of two, and
    there is no block behind the first.
  */
  method RootBeyondBlocks(entries: seq<seq<Byte>>) returns (size: nat, behind: nat, ghost disk: Disk, ghost ino: Inode)
    requires |entries| == 128 && forall e :: e in entries ==> |e| == ENTRY
    ensures size == 2 * BSIZE && behind == 0
    ensures ino.size == size && forall bytes :: !FileIs(disk, ino, bytes)
  {
    var img := new FsImage(1, 4);
    var inum := img.IAlloc([0, 0]);
    for k := 0 to |entries|
      invariant img.Valid() && img.files.Keys == {1} && img.freeInode == 2 && img.meta == 4
      invariant |img.files[1]| == ENTRY * k
    {
      assert entries[k] in entries;
      ghost var file := img.files[1] + entries[k];
      assert img.files[1 := file] == map[1 := file];
      OneBlock(file);
      img.IAppend(1, entries[k]);
    }
    FixSize(img, 1);
    PastEnd(img.own, img.disk, img.inodes, img.files, 1, 1);
    var root := img.RInode(1);
    size, behind, disk, ino := root.size, Find(img.disk, root.addrs, 1), img.disk, root;
  }
}
