/**
  The file system on disk, as mkfs/src/main.rs writes it and kernel/src/fs.rs reads it: blocks of bytes,
  little-endian words in them, inodes of sixteen words, and the block map of an inode with its direct,
  indirect and double-indirect slots.
*/
module FsLayout {
  import opened Prelude

  newtype Byte = x: int | 0 <= x < 256

  const BSIZE: nat := 4096
  const WORDS: nat := 1024 // NINDIRECT and NDINDIRECT
  const NDIRECT: nat := 11
  const MAXFILE: nat := 11 + 1024 + 1024 * 1024
  const U32: nat := 0x1_0000_0000
  const IPB: nat := 64
  const INODEWORDS: nat := 16

  function ZeroBytes(n: nat): (r: seq<Byte>)
    ensures |r| == n && forall k :: 0 <= k < n ==> r[k] == 0
  {
    seq(n, _ => 0)
  }

  type Block = b: seq<Byte> | |b| == BSIZE witness ZeroBytes(BSIZE)

  // ---- Words ----

  function Word(b: Block, i: nat): (w: nat)
    requires i < WORDS
    ensures w < U32
  {
    b[4 * i] as nat + 0x100 * b[4 * i + 1] as nat + 0x1_0000 * b[4 * i + 2] as nat + 0x100_0000 * b[4 * i + 3] as nat
  }

  function SetWord(b: Block, i: nat, w: nat): (r: Block)
    requires i < WORDS && w < U32
  {
    b[4 * i := (w % 0x100) as Byte][4 * i + 1 := (w / 0x100 % 0x100) as Byte]
     [4 * i + 2 := (w / 0x1_0000 % 0x100) as Byte][4 * i + 3 := (w / 0x100_0000) as Byte]
  }

  lemma WordSet(b: Block, i: nat, w: nat)
    requires i < WORDS && w < U32
    ensures Word(SetWord(b, i, w), i) == w
    ensures forall j: nat {:trigger Word(SetWord(b, i, w), j)} :: j < WORDS && j != i ==>
              Word(SetWord(b, i, w), j) == Word(b, j)
  {
    Split(w);
  }

  lemma Split(w: nat)
    ensures w % 0x100 + 0x100 * (w / 0x100 % 0x100) + 0x1_0000 * (w / 0x1_0000 % 0x100)
            + 0x100_0000 * (w / 0x100_0000) == w
  {
    assert w / 0x1_0000 == w / 0x100 / 0x100;
    assert w / 0x100_0000 == w / 0x1_0000 / 0x100;
  }

  lemma ZeroWords(j: nat)
    requires j < WORDS
    ensures Word(ZeroBytes(BSIZE), j) == 0
  {
  }

  function Words(b: Block, at: nat, n: nat): (r: seq<nat>)
    requires at + n <= WORDS
    ensures |r| == n
    ensures forall k: nat {:trigger r[k]} :: k < n ==> r[k] == Word(b, at + k)
  {
    seq<nat>(n, k requires 0 <= k < n => Word(b, at + k) as nat)
  }

  function SetWords(b: Block, at: nat, ws: seq<nat>): (r: Block)
    requires at + |ws| <= WORDS && forall k :: 0 <= k < |ws| ==> ws[k] < U32
    ensures forall j: nat {:trigger Word(r, j)} :: j < WORDS ==>
              Word(r, j) == if at <= j < at + |ws| then ws[j - at] else Word(b, j)
  {
    if ws == [] then b
    else
      var n := |ws| - 1;
      WordSet(SetWords(b, at, ws[..n]), at + n, ws[n]);
      SetWord(SetWords(b, at, ws[..n]), at + n, ws[n])
  }

  // ---- The disk ----

  /** Blocks never written read as zeroes, also past the end of the image file. */
  type Disk = map<nat, Block>

  function At(d: Disk, b: nat): Block {
    if b in d then d[b] else ZeroBytes(BSIZE)
  }

  function Write(d: Disk, b: nat, blk: Block): Disk {
    d[b := blk]
  }

  // ---- Inodes ----

  /** `DiskInode`: two words of type, device and link count, the size, and the slots. */
  datatype Inode = Inode(head: seq<nat>, size: nat, addrs: seq<nat>) {
    predicate Valid() {
      && |head| == 2 && |addrs| == NDIRECT + 2 && size < U32
      && (forall k :: 0 <= k < 2 ==> head[k] < U32) && (forall k :: 0 <= k < NDIRECT + 2 ==> addrs[k] < U32)
    }
  }

  function GetInode(b: Block, k: nat): (r: Inode)
    requires k < IPB
    ensures r.Valid()
  {
    var ws := Words(b, INODEWORDS * k, INODEWORDS);
    Inode(ws[..2], ws[2], ws[3..])
  }

  /** `r` is `b` with inode `ino` in place `k`. */
  ghost predicate InodePut(b: Block, k: nat, ino: Inode, r: Block)
    requires k < IPB
  {
    GetInode(r, k) == ino && forall j: nat {:trigger GetInode(r, j)} :: j < IPB && j != k ==>
          GetInode(r, j) == GetInode(b, j)
  }

  /** `ptr::write` of an inode into the block of it. */
  method PutInode(b: Block, k: nat, ino: Inode) returns (r: Block)
    requires k < IPB && ino.Valid()
    ensures InodePut(b, k, ino, r)
  {
    r := SetWords(b, INODEWORDS * k, ino.head + [ino.size] + ino.addrs);
    PutInodeSame(b, k, ino);
    PutInodeOthers(b, k, ino);
  }

  lemma PutInodeSame(b: Block, k: nat, ino: Inode)
    requires k < IPB && ino.Valid()
    ensures GetInode(SetWords(b, INODEWORDS * k, ino.head + [ino.size] + ino.addrs), k) == ino
  {
    var ws := ino.head + [ino.size] + ino.addrs;
    assert Words(SetWords(b, INODEWORDS * k, ws), INODEWORDS * k, INODEWORDS) == ws;
  }

  lemma PutInodeOthers(b: Block, k: nat, ino: Inode)
    requires k < IPB && ino.Valid()
    ensures var r := SetWords(b, INODEWORDS * k, ino.head + [ino.size] + ino.addrs);
            forall j: nat {:trigger GetInode(r, j)} :: j < IPB && j != k ==> GetInode(r, j) == GetInode(b, j)
  {
    var r := SetWords(b, INODEWORDS * k, ino.head + [ino.size] + ino.addrs);
    forall j: nat | j < IPB && j != k ensures GetInode(r, j) == GetInode(b, j) {
      assert Words(r, INODEWORDS * j, INODEWORDS) == Words(b, INODEWORDS * j, INODEWORDS);
    }
  }
}
