/**
  The image builder (mkfs/src/main.rs): what `iappend` puts into a file, through direct, indirect and double-indirect
  blocks, is in the file behind what was there, and it takes exactly the blocks that the longer file needs.
*/
module Mkfs {
  import opened Prelude
  import opened FsLayout
  import opened BlockMap
  import opened FileTree

  // ---- New slots ----

  /** Blocks from `free` on have no use and are zero, as is the boot block; used blocks lie from `meta` on. */
  ghost predicate Fresh(own: Uses, d: Disk, meta: nat, free: nat) {
    && 0 < meta <= free && At(d, 0) == ZeroBytes(BSIZE)
    && (forall b {:trigger b in own} :: b in own ==> meta <= b < free)
    && (forall b: nat {:trigger At(d, b)} :: free <= b ==> At(d, b) == ZeroBytes(BSIZE))
  }

  lemma NewSlot(own: Uses, d: Disk, view: map<nat, Inode>, meta: nat, free: nat, table: nat, pos: nat)
    requires MapOk(own, d, view) && Fresh(own, d, meta, free) && free < U32 && pos < WORDS
    requires table in own && !own[table].Data? && Word(At(d, table), pos) == 0
    ensures var own', d' := own[free := SlotUse(own[table], pos)], Write(d, table, SetWord(At(d, table), pos, free));
            && MapOk(own', d', view) && Fresh(own', d', meta, free + 1) && Kept(own, d, d', meta)
            && Word(At(d', table), pos) == free
  {
    FillSlot(own, d, view, meta, table, pos, free);
    var d' := Write(d, table, SetWord(At(d, table), pos, free));
    forall b: nat | free + 1 <= b ensures At(d', b) == ZeroBytes(BSIZE) {
      assert At(d, b) == ZeroBytes(BSIZE);
    }
  }

  lemma NewAddr(own: Uses, d: Disk, view: map<nat, Inode>, meta: nat, free: nat, inum: nat, i: nat)
    requires MapOk(own, d, view) && Fresh(own, d, meta, free) && inum in view && i < NDIRECT + 2
    ensures |view[inum].addrs| == NDIRECT + 2
    ensures var own', ino := own[free := AddrUse(inum, i)], view[inum].(addrs := view[inum].addrs[i := free]);
            MapOk(own', d, With(view, inum, ino)) && Fresh(own', d, meta, free + 1)
  {
    FillAddr(own, d, view, inum, i, free);
  }

  // ---- Appending bytes ----

  lemma WriteMap(own: Uses, d: Disk, view: map<nat, Inode>, meta: nat, free: nat, bn: nat, blk: Block)
    requires MapOk(own, d, view) && Fresh(own, d, meta, free) && bn in own && own[bn].Data?
    ensures MapOk(own, Write(d, bn, blk), view) && Fresh(own, Write(d, bn, blk), meta, free)
  {
    WriteKeepsMap(own, d, view, bn, blk);
    forall b: nat | free <= b ensures At(Write(d, bn, blk), b) == ZeroBytes(BSIZE) {
      assert At(d, b) == ZeroBytes(BSIZE);
    }
  }

  // ---- The image ----

  /** The inode table from block `start` on holds `ino` for `n`. */
  predicate InodeAt(d: Disk, start: nat, n: nat, ino: Inode) {
    ino.Valid() && GetInode(At(d, start + n / IPB), n % IPB) == ino
  }

  ghost predicate OnDisk(d: Disk, inodes: map<nat, Inode>, start: nat) {
    forall n {:trigger InodeAt(d, start, n, inodes[n])} :: n in inodes ==> InodeAt(d, start, n, inodes[n])
  }

  ghost predicate FileIs(d: Disk, ino: Inode, bytes: seq<Byte>) {
    ino.size == |bytes| && Holds(d, ino.addrs, bytes)
  }

  /** The slots of every inode hold its file, whatever size it has. */
  ghost predicate AllHeld(d: Disk, inodes: map<nat, Inode>, files: Files) {
    inodes.Keys == files.Keys && forall n {:trigger Holds(d, inodes[n].addrs, Padded(files[n]))} :: n in files ==>
          Holds(d, inodes[n].addrs, Padded(files[n]))
  }

  /** The same for all files but `inum`. */
  ghost predicate HeldBut(d: Disk, inodes: map<nat, Inode>, files: Files, inum: nat) {
    inodes.Keys == files.Keys
    && forall n {:trigger Holds(d, inodes[n].addrs, Padded(files[n]))} :: n in files && n != inum ==>
          Holds(d, inodes[n].addrs, Padded(files[n]))
  }

  ghost predicate SizesMatch(inodes: map<nat, Inode>, files: Files) {
    inodes.Keys == files.Keys && forall n {:trigger inodes[n]} :: n in files ==> inodes[n].size == |files[n]|
  }

  /** Inode `n` was handed out, and its place is in the table. */
  predicate HandedOut(n: nat, start: nat, meta: nat, freeInode: nat) {
    n < freeInode && start + n / IPB < meta
  }

  ghost predicate AllHandedOut(inodes: map<nat, Inode>, start: nat, meta: nat, freeInode: nat) {
    forall n {:trigger HandedOut(n, start, meta, freeInode)} :: n in inodes ==> HandedOut(n, start, meta, freeInode)
  }

  /** Everything about an image but the sizes of the files: `files` is what is in it, in exactly the blocks it takes. */
  ghost predicate Laid(d: Disk, own: Uses, inodes: map<nat, Inode>, files: Files, start: nat, meta: nat,
                       free: nat, freeInode: nat) {
    && 0 < start && MapOk(own, d, inodes) && Fresh(own, d, meta, free) && OnDisk(d, inodes, start)
    && AllHeld(d, inodes, files) && UsesFit(own, files) && AllHandedOut(inodes, start, meta, freeInode)
    && free == meta + AllBlocks(files, freeInode)
  }

  /** Nothing has been written between the inodes in use and the data blocks. */
  ghost predicate Blank(d: Disk, start: nat, meta: nat, freeInode: nat) {
    forall b: nat {:trigger At(d, b)} :: start + freeInode / IPB < b < meta ==> At(d, b) == ZeroBytes(BSIZE)
  }

  /** All is in order but file `inum`, whose inode is `ino` for now. */
  ghost predicate Framed(d: Disk, own: Uses, inodes: map<nat, Inode>, files: Files, start: nat, meta: nat, free: nat,
                         freeInode: nat, inum: nat, ino: Inode) {
    && MapOk(own, d, With(inodes, inum, ino)) && Fresh(own, d, meta, free) && OnDisk(d, inodes, start)
    && AllHandedOut(inodes, start, meta, freeInode) && HeldBut(d, inodes, files, inum) && ino.Valid()
    && Blank(d, start, meta, freeInode)
  }

  /** The slots of `ino` hold `bytes`. */
  ghost predicate Open(d: Disk, own: Uses, inodes: map<nat, Inode>, files: Files, start: nat, meta: nat, free: nat,
                       freeInode: nat, inum: nat, ino: Inode, bytes: seq<Byte>) {
    && Framed(d, own, inodes, files, start, meta, free, freeInode, inum, ino)
    && Holds(d, ino.addrs, Padded(bytes)) && UsesFit(own, files[inum := bytes])
  }

  class FsImage {
    var disk: Disk
    var freeBlock: nat
    var freeInode: nat
    ghost var own: Uses
    ghost var inodes: map<nat, Inode>
    ghost var files: Files
    const start: nat // of the inode table
    const meta: nat // the first data block

    ghost predicate LaidOut()
      reads this
    {
      Laid(disk, own, inodes, files, start, meta, freeBlock, freeInode)
    }

    ghost predicate Valid()
      reads this
    {
      LaidOut() && SizesMatch(inodes, files) && Blank(disk, start, meta, freeInode)
    }

    /** `write_zeroes`: an image without inodes. */
    constructor (start0: nat, meta0: nat)
      requires 0 < start0 < meta0
      ensures Valid() && files == map[] && freeInode == 1 && start == start0 && meta == meta0
    {
      disk, freeBlock, freeInode := map[], meta0, 1;
      own, inodes, files := map[], map[], map[];
      start, meta := start0, meta0;
    }

    method RInode(inum: nat) returns (ino: Inode)
      requires LaidOut() && inum in inodes
      ensures ino == inodes[inum] && ino.Valid()
    {
      assert InodeAt(disk, start, inum, inodes[inum]);
      ino := GetInode(At(disk, start + inum / IPB), inum % IPB);
    }

    /** `ialloc`: a new, empty file. */
    method IAlloc(head: seq<nat>) returns (inum: nat)
      requires Valid() && |head| == 2 && head[0] < U32 && head[1] < U32 && start + freeInode / IPB < meta
      modifies this
      ensures Valid() && inum !in old(files) && files == old(files)[inum := []]
      ensures inum == old(freeInode) && freeInode == inum + 1
      ensures inodes[inum] == Inode(head, 0, Zeros(NDIRECT + 2))
    {
      inum := freeInode;
      var ino := Inode(head, 0, Zeros(NDIRECT + 2));
      Opened(disk, own, inodes, files, start, meta, freeBlock, inum, ino);
      freeInode := freeInode + 1;
      WInode(inum, ino, []);
    }

    /** `winode`: the inode whose slots hold `bytes` goes to its place in the table. */
    method WInode(inum: nat, ino: Inode, ghost bytes: seq<Byte>)
      requires Open(disk, own, inodes, files, start, meta, freeBlock, freeInode, inum, ino, bytes)
      requires 0 < start && HandedOut(inum, start, meta, freeInode)
      requires freeBlock == meta + AllBlocks(files[inum := bytes], freeInode)
      modifies this`disk, this`inodes, this`files
      ensures LaidOut() && Blank(disk, start, meta, freeInode)
      ensures files == old(files)[inum := bytes] && inodes == old(inodes)[inum := ino]
    {
      var bn := start + inum / IPB;
      var blk := PutBack(At(disk, bn), inum, ino, disk, own, inodes, files, start, meta, freeBlock, freeInode, bytes);
      disk := Write(disk, bn, blk);
      inodes, files := With(inodes, inum, ino), files[inum := bytes];
    }

    /** The next free block, for use `u`. */
    method TakeBlock(ghost u: Use) returns (b: nat)
      requires freeBlock < U32
      modifies this`freeBlock, this`own
      ensures b == old(freeBlock) && freeBlock == b + 1 && own == old(own)[b := u]
    {
      b := freeBlock;
      freeBlock := freeBlock + 1;
      own := own[b := u];
    }

    /** Slot `pos` of a block of slots, filled if it is empty. */
    method TableSlot(table: nat, pos: nat, ghost view: map<nat, Inode>) returns (b: nat)
      requires MapOk(own, disk, view) && Fresh(own, disk, meta, freeBlock) && pos < WORDS
      requires table in own && !own[table].Data? && freeBlock + Missing(Word(At(disk, table), pos)) <= U32
      modifies this`disk, this`freeBlock, this`own
      ensures MapOk(own, disk, view) && Fresh(own, disk, meta, freeBlock) && Kept(old(own), old(disk), disk, meta)
      ensures freeBlock == old(freeBlock) + Missing(Word(At(old(disk), table), pos)) && Grown(old(own), own)
      ensures Added(old(own), own, own[table].inum, FirstBlock(SlotUse(own[table], pos)))
      ensures b != 0 && b == Word(At(disk, table), pos) && b in own && own[b] == SlotUse(own[table], pos)
      ensures if Word(At(old(disk), table), pos) == 0 then At(disk, b) == ZeroBytes(BSIZE) else disk == old(disk)
    {
      assert BlockOk(own, own[table], At(disk, table));
      b := Word(At(disk, table), pos);
      if b == 0 {
        NewSlot(own, disk, view, meta, freeBlock, table, pos);
        ghost var u := SlotUse(own[table], pos);
        disk := Write(disk, table, SetWord(At(disk, table), pos, freeBlock));
        b := TakeBlock(u);
      }
    }

    /** A slot of the inode, filled if it is empty. */
    method InodeSlot(inum: nat, ino: Inode, i: nat, ghost view: map<nat, Inode>) returns (ino': Inode)
      requires MapOk(own, disk, view) && Fresh(own, disk, meta, freeBlock) && i < NDIRECT + 2
      requires inum in view && view[inum] == ino && ino.Valid() && freeBlock + Missing(ino.addrs[i]) <= U32
      modifies this`freeBlock, this`own
      ensures MapOk(own, disk, With(view, inum, ino')) && Fresh(own, disk, meta, freeBlock)
      ensures freeBlock == old(freeBlock) + Missing(ino.addrs[i]) && Grown(old(own), own)
      ensures Added(old(own), own, inum, FirstBlock(AddrUse(inum, i)))
      ensures ino'.Valid() && ino' == ino.(addrs := ino'.addrs) && Extends(disk, ino.addrs, disk, ino'.addrs)
      ensures ino'.addrs[i] != 0 && ino'.addrs[i] in own && own[ino'.addrs[i]] == AddrUse(inum, i)
      ensures if ino.addrs[i] == 0 then At(disk, ino'.addrs[i]) == ZeroBytes(BSIZE) else ino' == ino
    {
      assert InodeOk(own, inum, view[inum].addrs);
      ino' := ino;
      if ino.addrs[i] == 0 {
        NewAddr(own, disk, view, meta, freeBlock, inum, i);
        ExtendsAddr(disk, ino.addrs, i, freeBlock);
        var b := TakeBlock(AddrUse(inum, i));
        ino' := ino.(addrs := ino.addrs[i := b]);
      } else {
        SameView(view, inum, ino);
      }
    }

    /** The block for block `fbn` of a file, with all the slots on the way: the middle of `iappend`. */
    method BlockFor(inum: nat, ino: Inode, fbn: nat, ghost view: map<nat, Inode>) returns (ino': Inode, bn: nat)
      requires MapOk(own, disk, view) && Fresh(own, disk, meta, freeBlock) && fbn < MAXFILE
      requires inum in view && view[inum] == ino && ino.Valid() && freeBlock + Taken(disk, ino.addrs, fbn) <= U32
      modifies this`disk, this`freeBlock, this`own
      ensures MapOk(own, disk, With(view, inum, ino')) && Fresh(own, disk, meta, freeBlock)
              && Kept(old(own), old(disk), disk, meta)
      ensures freeBlock == old(freeBlock) + Taken(old(disk), ino.addrs, fbn)
      ensures Grown(old(own), own) && Added(old(own), own, inum, fbn)
      ensures ino'.Valid() && ino' == ino.(addrs := ino'.addrs) && Extends(old(disk), ino.addrs, disk, ino'.addrs)
      ensures bn != 0 && bn == Find(disk, ino'.addrs, fbn) && bn in own && own[bn] == Data(inum, fbn)
      ensures Find(old(disk), ino.addrs, fbn) == 0 ==> At(disk, bn) == ZeroBytes(BSIZE)
    {
      if fbn < NDIRECT {
        ino' := InodeSlot(inum, ino, fbn, view);
        bn := ino'.addrs[fbn];
      } else if fbn < NDIRECT + WORDS {
        ino', bn := Indirect(inum, ino, fbn, view);
      } else {
        ino', bn := DoubleIndirect(inum, ino, fbn, view);
      }
    }

    method Indirect(inum: nat, ino: Inode, fbn: nat, ghost view: map<nat, Inode>) returns (ino': Inode, bn: nat)
      requires MapOk(own, disk, view) && Fresh(own, disk, meta, freeBlock) && NDIRECT <= fbn < NDIRECT + WORDS
      requires inum in view && view[inum] == ino && ino.Valid() && freeBlock + Taken(disk, ino.addrs, fbn) <= U32
      modifies this`disk, this`freeBlock, this`own
      ensures MapOk(own, disk, With(view, inum, ino')) && Fresh(own, disk, meta, freeBlock)
              && Kept(old(own), old(disk), disk, meta)
      ensures freeBlock == old(freeBlock) + Taken(old(disk), ino.addrs, fbn)
      ensures Grown(old(own), own) && Added(old(own), own, inum, fbn)
      ensures ino'.Valid() && ino' == ino.(addrs := ino'.addrs) && Extends(old(disk), ino.addrs, disk, ino'.addrs)
      ensures bn != 0 && bn == Find(disk, ino'.addrs, fbn) && bn in own && own[bn] == Data(inum, fbn)
      ensures Find(old(disk), ino.addrs, fbn) == 0 ==> At(disk, bn) == ZeroBytes(BSIZE)
    {
      ino' := InodeSlot(inum, ino, NDIRECT, view);
      ghost var view', own' := With(view, inum, ino'), own;
      bn := TableSlot(ino'.addrs[NDIRECT], fbn - NDIRECT, view');
      KeptLess(old(own), own', old(disk), disk, meta);
      ExtendsKept(own', old(disk), disk, meta, view', inum);
      ExtendsTrans(old(disk), ino.addrs, old(disk), ino'.addrs, disk, ino'.addrs);
    }

    method DoubleIndirect(inum: nat, ino: Inode, fbn: nat, ghost view: map<nat, Inode>) returns (ino': Inode, bn: nat)
      requires MapOk(own, disk, view) && Fresh(own, disk, meta, freeBlock) && NDIRECT + WORDS <= fbn < MAXFILE
      requires inum in view && view[inum] == ino && ino.Valid() && freeBlock + Taken(disk, ino.addrs, fbn) <= U32
      modifies this`disk, this`freeBlock, this`own
      ensures MapOk(own, disk, With(view, inum, ino')) && Fresh(own, disk, meta, freeBlock)
              && Kept(old(own), old(disk), disk, meta)
      ensures freeBlock == old(freeBlock) + Taken(old(disk), ino.addrs, fbn)
      ensures Grown(old(own), own) && Added(old(own), own, inum, fbn)
      ensures ino'.Valid() && ino' == ino.(addrs := ino'.addrs) && Extends(old(disk), ino.addrs, disk, ino'.addrs)
      ensures bn != 0 && bn == Find(disk, ino'.addrs, fbn) && bn in own && own[bn] == Data(inum, fbn)
      ensures Find(old(disk), ino.addrs, fbn) == 0 ==> At(disk, bn) == ZeroBytes(BSIZE)
    {
      var leaf;
      ino', leaf := LeafTable(inum, ino, fbn, view);
      ghost var view', own1, disk1 := With(view, inum, ino'), own, disk;
      ZeroWords(PosOf(fbn));
      bn := TableSlot(leaf, PosOf(fbn), view');
      assert Word(At(disk, ino'.addrs[NDIRECT + 1]), LeafOf(fbn)) == leaf;
      KeptTrans(old(own), old(own), own1, old(disk), disk1, disk, meta);
      ExtendsKept(own1, disk1, disk, meta, view', inum);
      ExtendsTrans(old(disk), ino.addrs, disk1, ino'.addrs, disk, ino'.addrs);
    }

    /** The indirect block for block `fbn`, below the double-indirect one. */
    method LeafTable(inum: nat, ino: Inode, fbn: nat, ghost view: map<nat, Inode>) returns (ino': Inode, leaf: nat)
      requires MapOk(own, disk, view) && Fresh(own, disk, meta, freeBlock) && NDIRECT + WORDS <= fbn < MAXFILE
      requires inum in view && view[inum] == ino && ino.Valid() && freeBlock + Taken(disk, ino.addrs, fbn) <= U32
      modifies this`disk, this`freeBlock, this`own
      ensures MapOk(own, disk, With(view, inum, ino')) && Fresh(own, disk, meta, freeBlock)
              && Kept(old(own), old(disk), disk, meta)
      ensures freeBlock == old(freeBlock) + Taken(old(disk), ino.addrs, fbn)
                           - Missing(Find(old(disk), ino.addrs, fbn))
      ensures Grown(old(own), own) && Added(old(own), own, inum, fbn)
      ensures ino'.Valid() && ino' == ino.(addrs := ino'.addrs) && Extends(old(disk), ino.addrs, disk, ino'.addrs)
      ensures ino'.addrs[NDIRECT + 1] != 0 && Points(own, ino'.addrs[NDIRECT + 1], Dind(inum))
      ensures leaf != 0 && leaf == InTable(disk, ino'.addrs[NDIRECT + 1], LeafOf(fbn))
      ensures leaf in own && own[leaf] == Leaf(inum, LeafOf(fbn))
      ensures if InTable(old(disk), ino.addrs[NDIRECT + 1], LeafOf(fbn)) == 0 then At(disk, leaf) == ZeroBytes(BSIZE)
              else disk == old(disk) && leaf == InTable(disk, ino.addrs[NDIRECT + 1], LeafOf(fbn))
    {
      ZeroWords(LeafOf(fbn));
      ino' := InodeSlot(inum, ino, NDIRECT + 1, view);
      ghost var view', own1 := With(view, inum, ino'), own;
      leaf := TableSlot(ino'.addrs[NDIRECT + 1], LeafOf(fbn), view');
      KeptLess(old(own), own1, old(disk), disk, meta);
      ExtendsKept(own1, old(disk), disk, meta, view', inum);
      ExtendsTrans(old(disk), ino.addrs, old(disk), ino'.addrs, disk, ino'.addrs);
    }

    /** The block that the end of the file is in, with zeros behind the end; the bytes in `part` are to follow. */
    method EndBlock(inum: nat, ino: Inode, fbn: nat, ghost bytes: seq<Byte>, ghost part: seq<Byte>)
      returns (ino': Inode, bn: nat)
      requires Open(disk, own, inodes, files, start, meta, freeBlock, freeInode, inum, ino, bytes)
      requires fbn == |bytes| / BSIZE < MAXFILE && 0 < |part| && |bytes| % BSIZE + |part| <= BSIZE
      requires freeBlock + TreeBlocks(fbn + 1) <= U32 + TreeBlocks(BlockCount(|bytes|))
      modifies this`disk, this`freeBlock, this`own
      ensures Framed(disk, own, inodes, files, start, meta, freeBlock, freeInode, inum, ino')
      ensures freeBlock == old(freeBlock) + TreeBlocks(fbn + 1) - TreeBlocks(BlockCount(|bytes|))
      ensures ino' == ino.(addrs := ino'.addrs) && Holds(disk, ino'.addrs, WholeBlocks(bytes))
      ensures bn != 0 && bn == Find(disk, ino'.addrs, fbn) && bn in own && own[bn] == Data(inum, fbn)
      ensures UsesFit(own, files[inum := bytes + part])
    {
      ghost var own0, view, now := own, With(inodes, inum, ino), files[inum := bytes];
      TakenIs(own, disk, view, now, inum, fbn);
      if |bytes| % BSIZE == 0 { PastEnd(own, disk, view, now, inum, fbn); }
      ino', bn := BlockFor(inum, ino, fbn, view);
      WithTwice(inodes, inum, ino, ino');
      HoldsExtends(old(disk), ino.addrs, disk, ino'.addrs, Padded(bytes));
      WithRoom(disk, ino'.addrs, bytes);
      OthersStay(own0, old(disk), disk, inodes, files, start, meta, freeInode, inum, ino);
      RoomFilled(bytes, part);
      UsesGrow(own0, own, now, inum, fbn, bytes + part);
      assert now[inum := bytes + part] == files[inum := bytes + part];
    }

    /** One round of the loop of `iappend`: as much of `rest` as the block at the end of the file takes. */
    method AppendChunk(inum: nat, ino: Inode, off: nat, rest: seq<Byte>, ghost bytes: seq<Byte>)
      returns (ino': Inode, n: nat)
      requires Open(disk, own, inodes, files, start, meta, freeBlock, freeInode, inum, ino, bytes)
      requires off == |bytes| && 0 < |rest| && off + |rest| < U32
      requires freeBlock + TreeBlocks(BlockCount(off + |rest|)) <= U32 + TreeBlocks(BlockCount(off))
      modifies this`disk, this`freeBlock, this`own
      ensures n == Min(|rest|, BSIZE - off % BSIZE) && n <= |rest| && ino' == ino.(addrs := ino'.addrs)
      ensures Open(disk, own, inodes, files, start, meta, freeBlock, freeInode, inum, ino', bytes + rest[..n])
      ensures freeBlock == old(freeBlock) + TreeBlocks(BlockCount(off + n)) - TreeBlocks(BlockCount(off))
    {
      var fbn := off / BSIZE;
      InRange(off, |rest|);
      n := Min(|rest|, (fbn + 1) * BSIZE - off);
      var part := rest[..n];
      RoomFilled(bytes, part);
      MoreBytes(off + n, off + |rest|);
      TreeGrows(fbn + 1, BlockCount(off + |rest|));
      var bn;
      ino', bn := EndBlock(inum, ino, fbn, bytes, part);
      var buf := Splice(At(disk, bn), off - fbn * BSIZE, part);
      ChunkPut(disk, own, inodes, files, start, meta, freeBlock, freeInode, inum, ino', bytes, part, bn);
      disk := Write(disk, bn, buf);
    }

    /** The same, for bytes in the middle of `src`. */
    method AppendRound(inum: nat, ino: Inode, off: nat, src: seq<Byte>, i: nat, ghost file: seq<Byte>,
                       ghost now: seq<Byte>, ghost base: int)
      returns (ino': Inode, off': nat, i': nat, ghost now': seq<Byte>)
      requires Open(disk, own, inodes, files, start, meta, freeBlock, freeInode, inum, ino, now)
      requires i < |src| && off == |now| && now == file + src[..i] && |file| + |src| < U32
      requires freeBlock == base + TreeBlocks(BlockCount(off)) && base + TreeBlocks(BlockCount(|file| + |src|)) <= U32
      modifies this`disk, this`freeBlock, this`own
      ensures i < i' <= |src| && off' == |now'| && now' == file + src[..i']
      ensures Open(disk, own, inodes, files, start, meta, freeBlock, freeInode, inum, ino', now')
      ensures freeBlock == base + TreeBlocks(BlockCount(off'))
    {
      var n;
      ino', n := AppendChunk(inum, ino, off, src[i..], now);
      Appended(file, src, i, n);
      now' := now + src[i..][..n];
      off', i' := off + n, i + n;
    }

    /** `iappend`: the file grows by `src`, and no other file changes. */
    method IAppend(inum: nat, src: seq<Byte>)
      requires Valid() && inum in files && |files[inum]| + |src| < U32
      requires meta + AllBlocks(files[inum := files[inum] + src], freeInode) <= U32
      modifies this
      ensures Valid() && files == old(files)[inum := old(files)[inum] + src] && freeInode == old(freeInode)
    {
      var dinode := RInode(inum);
      Reopened(disk, own, inodes, files, start, meta, freeBlock, freeInode, inum);
      var off, i := dinode.size, 0;
      ghost var file, now := files[inum], files[inum];
      ghost var base := freeBlock - TreeBlocks(BlockCount(|file|));
      BlocksAfter(files, inum, file + src, freeInode);
      assert |file + src| == |file| + |src| && base + TreeBlocks(BlockCount(|file| + |src|)) <= U32;
      assert now == now + src[..0];
      while i < |src|
        modifies this`disk, this`freeBlock, this`own
        invariant i <= |src| && off == |now| && now == file + src[..i]
        invariant Open(disk, own, inodes, files, start, meta, freeBlock, freeInode, inum, dinode, now)
        invariant freeBlock == base + TreeBlocks(BlockCount(off))
      {
        dinode, off, i, now := AppendRound(inum, dinode, off, src, i, file, now, base);
      }
      assert src[..i] == src;
      SameSlots(own, disk, inodes, inum, dinode, off);
      WInode(inum, dinode.(size := off), now);
    }
  }

  // ---- Opening and closing a file ----

  lemma Reopened(d: Disk, own: Uses, inodes: map<nat, Inode>, files: Files, start: nat, meta: nat, free: nat,
                 freeInode: nat, inum: nat)
    requires Laid(d, own, inodes, files, start, meta, free, freeInode) && Blank(d, start, meta, freeInode)
             && inum in files
    ensures Open(d, own, inodes, files, start, meta, free, freeInode, inum, inodes[inum], files[inum])
    ensures HandedOut(inum, start, meta, freeInode)
  {
    assert Holds(d, inodes[inum].addrs, Padded(files[inum])) && HandedOut(inum, start, meta, freeInode);
    assert InodeAt(d, start, inum, inodes[inum]) && files[inum := files[inum]] == files;
    SameView(inodes, inum, inodes[inum]);
  }

  lemma Opened(d: Disk, own: Uses, inodes: map<nat, Inode>, files: Files, start: nat, meta: nat, free: nat,
               inum: nat, ino: Inode)
    requires Laid(d, own, inodes, files, start, meta, free, inum) && Blank(d, start, meta, inum)
    requires ino.Valid() && ino.addrs == Zeros(NDIRECT + 2)
    ensures inum !in files && Open(d, own, inodes, files, start, meta, free, inum + 1, inum, ino, [])
    ensures free == meta + AllBlocks(files[inum := []], inum + 1)
  {
    NewInode(own, d, inodes, inum, ino);
    OneMore(inodes, start, meta, inum);
    NewFile(own, files, inum);
  }

  /** The block of the inode table that `ino` goes into. */
  method PutBack(b: Block, inum: nat, ino: Inode, ghost d: Disk, ghost own: Uses, ghost inodes: map<nat, Inode>,
                 ghost files: Files, ghost start: nat, ghost meta: nat, ghost free: nat,
                 ghost freeInode: nat, ghost bytes: seq<Byte>)
    returns (blk: Block)
    requires Open(d, own, inodes, files, start, meta, free, freeInode, inum, ino, bytes)
    requires 0 < start && HandedOut(inum, start, meta, freeInode)
    requires free == meta + AllBlocks(files[inum := bytes], freeInode) && b == At(d, start + inum / IPB)
    ensures Laid(Write(d, start + inum / IPB, blk), own, With(inodes, inum, ino), files[inum := bytes], start, meta,
                 free, freeInode)
    ensures Blank(Write(d, start + inum / IPB, blk), start, meta, freeInode)
  {
    blk := PutInode(b, inum % IPB, ino);
    FileClosed(d, own, inodes, files, start, meta, free, freeInode, inum, ino, bytes, blk);
  }

  lemma FileClosed(d: Disk, own: Uses, inodes: map<nat, Inode>, files: Files, start: nat, meta: nat, free: nat,
                   freeInode: nat, inum: nat, ino: Inode, bytes: seq<Byte>, blk: Block)
    requires Open(d, own, inodes, files, start, meta, free, freeInode, inum, ino, bytes)
    requires 0 < start && HandedOut(inum, start, meta, freeInode)
             && free == meta + AllBlocks(files[inum := bytes], freeInode)
    requires InodePut(At(d, start + inum / IPB), inum % IPB, ino, blk)
    ensures Laid(Write(d, start + inum / IPB, blk), own, With(inodes, inum, ino), files[inum := bytes], start, meta,
                 free, freeInode)
    ensures Blank(Write(d, start + inum / IPB, blk), start, meta, freeInode)
  {
    assert inum / IPB <= freeInode / IPB;
    BlankKept(d, start, meta, freeInode, start + inum / IPB, blk);
    TableWrite(own, d, inodes, meta, free, start, inum, ino, blk);
    TableFiles(own, d, inodes, files, meta, start, inum, ino, blk, bytes);
    forall n | n in With(inodes, inum, ino) ensures HandedOut(n, start, meta, freeInode) {
    }
  }

  /** The bytes of a chunk go to the end of the file. */
  lemma ChunkPut(d: Disk, own: Uses, inodes: map<nat, Inode>, files: Files, start: nat, meta: nat, free: nat,
                 freeInode: nat, inum: nat, ino: Inode, bytes: seq<Byte>, part: seq<Byte>, bn: nat)
    requires Framed(d, own, inodes, files, start, meta, free, freeInode, inum, ino)
    requires Holds(d, ino.addrs, WholeBlocks(bytes))
    requires 0 < |part| && |bytes| % BSIZE + |part| <= BSIZE && |bytes| / BSIZE < MAXFILE
    requires bn != 0 && bn == Find(d, ino.addrs, |bytes| / BSIZE) && bn in own && own[bn] == Data(inum, |bytes| / BSIZE)
    requires UsesFit(own, files[inum := bytes + part])
    ensures Open(Write(d, bn, Splice(At(d, bn), |bytes| % BSIZE, part)), own, inodes, files, start, meta, free,
                 freeInode, inum, ino, bytes + part)
  {
    var view, buf := With(inodes, inum, ino), Splice(At(d, bn), |bytes| % BSIZE, part);
    RoomFilled(bytes, part);
    WriteAt(own, d, view, inum, WholeBlocks(bytes), |bytes|, part);
    WriteMap(own, d, view, meta, free, bn, buf);
    OthersWritten(own, d, inodes, files, start, meta, freeInode, free, inum, ino, bn, buf);
  }

  lemma SameSlots(own: Uses, d: Disk, view: map<nat, Inode>, inum: nat, ino: Inode, size: nat)
    requires MapOk(own, d, With(view, inum, ino))
    ensures MapOk(own, d, With(view, inum, ino.(size := size)))
  {
    var view0, view1 := With(view, inum, ino), With(view, inum, ino.(size := size));
    forall n | n in view1 ensures InodeOk(own, n, view1[n].addrs) {
      assert InodeOk(own, n, view0[n].addrs);
    }
  }

  lemma InRange(off: nat, n: nat)
    requires off + n < U32 && n > 0
    ensures off / BSIZE < MAXFILE && off + n <= MAXFILE * BSIZE
    ensures off - off / BSIZE * BSIZE == off % BSIZE && (off / BSIZE + 1) * BSIZE - off == BSIZE - off % BSIZE
  {
  }

  lemma Appended(file: seq<Byte>, src: seq<Byte>, i: nat, n: nat)
    requires i + n <= |src|
    ensures file + src[..i] + src[i..][..n] == file + src[..i + n]
  {
  }

  /** New slots for one file leave the table and the other files alone. */
  lemma OthersStay(own: Uses, d: Disk, d': Disk, inodes: map<nat, Inode>, files: Files, start: nat, meta: nat,
                   freeInode: nat, inum: nat, ino: Inode)
    requires MapOk(own, d, With(inodes, inum, ino)) && Kept(own, d, d', meta) && OnDisk(d, inodes, start)
    requires AllHandedOut(inodes, start, meta, freeInode) && HeldBut(d, inodes, files, inum)
             && Blank(d, start, meta, freeInode)
    ensures OnDisk(d', inodes, start) && HeldBut(d', inodes, files, inum) && Blank(d', start, meta, freeInode)
  {
    forall n | n in inodes ensures InodeAt(d', start, n, inodes[n]) {
      assert InodeAt(d, start, n, inodes[n]) && HandedOut(n, start, meta, freeInode);
      assert At(d', start + n / IPB) == At(d, start + n / IPB);
    }
    forall n | n in files && n != inum ensures Holds(d', inodes[n].addrs, Padded(files[n])) {
      assert Holds(d, inodes[n].addrs, Padded(files[n]));
      HoldsKept(own, d, d', meta, With(inodes, inum, ino), n, Padded(files[n]));
    }
  }

  lemma OthersWritten(own: Uses, d: Disk, inodes: map<nat, Inode>, files: Files, start: nat, meta: nat, freeInode: nat,
                      free: nat, inum: nat, ino: Inode, bn: nat, blk: Block)
    requires MapOk(own, d, With(inodes, inum, ino)) && Fresh(own, d, meta, free) && OnDisk(d, inodes, start)
    requires AllHandedOut(inodes, start, meta, freeInode) && HeldBut(d, inodes, files, inum)
             && Blank(d, start, meta, freeInode)
    requires bn in own && own[bn].Data? && own[bn].inum == inum
    ensures OnDisk(Write(d, bn, blk), inodes, start) && HeldBut(Write(d, bn, blk), inodes, files, inum)
    ensures Blank(Write(d, bn, blk), start, meta, freeInode)
  {
    BlankKept(d, start, meta, freeInode, bn, blk);
    var d' := Write(d, bn, blk);
    forall n | n in inodes ensures InodeAt(d', start, n, inodes[n]) {
      assert InodeAt(d, start, n, inodes[n]) && HandedOut(n, start, meta, freeInode);
    }
    forall n | n in files && n != inum ensures Holds(d', inodes[n].addrs, Padded(files[n])) {
      assert Holds(d, inodes[n].addrs, Padded(files[n]));
      WriteOthers(own, d, With(inodes, inum, ino), bn, blk, n, Padded(files[n]));
    }
  }

  lemma BlankKept(d: Disk, start: nat, meta: nat, freeInode: nat, bn: nat, blk: Block)
    requires Blank(d, start, meta, freeInode) && (bn <= start + freeInode / IPB || meta <= bn)
    ensures Blank(Write(d, bn, blk), start, meta, freeInode)
  {
    forall b: nat | start + freeInode / IPB < b < meta ensures At(Write(d, bn, blk), b) == ZeroBytes(BSIZE) {
      assert At(d, b) == ZeroBytes(BSIZE);
    }
  }

  lemma KeptLess(own: Uses, own': Uses, d: Disk, d': Disk, meta: nat)
    requires Grown(own, own') && Kept(own', d, d', meta)
    ensures Kept(own, d, d', meta)
  {
  }

  lemma KeptTrans(own0: Uses, own1: Uses, own2: Uses, d0: Disk, d1: Disk, d2: Disk, meta: nat)
    requires Grown(own0, own1) && Grown(own1, own2) && Kept(own1, d0, d1, meta) && Kept(own2, d1, d2, meta)
    ensures Kept(own0, d0, d2, meta)
  {
    forall b: nat | b < meta || (b in own0 && own0[b].Data?) ensures At(d2, b) == At(d0, b) {
      assert At(d1, b) == At(d0, b);
    }
    forall b: nat, j: nat | b in own0 && !own0[b].Data? && j < WORDS && Word(At(d0, b), j) != 0
      ensures Word(At(d2, b), j) == Word(At(d0, b), j) {
      assert Word(At(d1, b), j) == Word(At(d0, b), j);
    }
  }

  lemma OneMore(inodes: map<nat, Inode>, start: nat, meta: nat, freeInode: nat)
    requires AllHandedOut(inodes, start, meta, freeInode)
    ensures AllHandedOut(inodes, start, meta, freeInode + 1) && freeInode !in inodes
  {
    forall n | n in inodes ensures HandedOut(n, start, meta, freeInode + 1) && n != freeInode {
      assert HandedOut(n, start, meta, freeInode);
    }
  }

  /** `winode` writes one entry of the table, outside of all that is mapped. */
  lemma TableWrite(own: Uses, d: Disk, inodes: map<nat, Inode>, meta: nat, free: nat, start: nat, inum: nat,
                   ino: Inode, blk: Block)
    requires MapOk(own, d, With(inodes, inum, ino)) && Fresh(own, d, meta, free) && OnDisk(d, inodes, start)
             && ino.Valid()
    requires 0 < start && start + inum / IPB < meta && InodePut(At(d, start + inum / IPB), inum % IPB, ino, blk)
    ensures var d' := Write(d, start + inum / IPB, blk);
            MapOk(own, d', With(inodes, inum, ino)) && Fresh(own, d', meta, free)
                && OnDisk(d', With(inodes, inum, ino), start)
  {
    var d' := Write(d, start + inum / IPB, blk);
    forall x | x in own ensures BlockOk(own, own[x], At(d', x)) {
      assert BlockOk(own, own[x], At(d, x));
    }
    forall b: nat | free <= b ensures At(d', b) == ZeroBytes(BSIZE) {
      assert At(d, b) == ZeroBytes(BSIZE);
    }
    var inodes' := With(inodes, inum, ino);
    forall n | n in inodes' ensures InodeAt(d', start, n, inodes'[n]) {
      if n != inum { assert InodeAt(d, start, n, inodes[n]); TableSlotOther(n, inum); }
    }
  }

  lemma NewFile(own: Uses, files: Files, inum: nat)
    requires UsesFit(own, files) && inum !in files
    ensures UsesFit(own, files[inum := []]) && AllBlocks(files[inum := []], inum + 1) == AllBlocks(files, inum)
  {
    BlocksOfNone(files, inum, inum);
    forall b | b in own ensures UseFits(own[b], files[inum := []]) { assert UseFits(own[b], files); }
  }

  lemma TableSlotOther(n: nat, m: nat)
    requires n != m
    ensures n / IPB != m / IPB || n % IPB != m % IPB
  {
  }

  lemma NewInode(own: Uses, d: Disk, inodes: map<nat, Inode>, inum: nat, ino: Inode)
    requires MapOk(own, d, inodes) && |ino.addrs| == NDIRECT + 2 && forall i :: 0 <= i < NDIRECT + 2 ==>
               ino.addrs[i] == 0
    ensures MapOk(own, d, With(inodes, inum, ino))
  {
    var inodes' := With(inodes, inum, ino);
    forall n | n in inodes' ensures InodeOk(own, n, inodes'[n].addrs) {
      if n != inum { assert InodeOk(own, n, inodes[n].addrs); }
    }
  }

  lemma TableFiles(own: Uses, d: Disk, inodes: map<nat, Inode>, files: Files, meta: nat, start: nat, inum: nat,
                   ino: Inode, blk: Block, bytes: seq<Byte>)
    requires MapOk(own, d, With(inodes, inum, ino)) && HeldBut(d, inodes, files, inum)
    requires start + inum / IPB < meta && forall b :: b in own ==> meta <= b
    requires Holds(d, ino.addrs, Padded(bytes))
    ensures AllHeld(Write(d, start + inum / IPB, blk), With(inodes, inum, ino), files[inum := bytes])
  {
    var d' := Write(d, start + inum / IPB, blk);
    var inodes', files' := With(inodes, inum, ino), files[inum := bytes];
    forall n | n in files' ensures Holds(d', inodes'[n].addrs, Padded(files'[n])) {
      if n != inum { assert Holds(d, inodes[n].addrs, Padded(files[n])); }
      HoldsKept(own, d, d', 0, inodes', n, Padded(files'[n]));
    }
  }
}
