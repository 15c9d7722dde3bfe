/**
  The kernel's side of the file system: the block allocator (kernel/src/bmap.rs) and `bmap` and `itrunc`
  of inodes (kernel/src/fs.rs).  The disk is what the buffer cache shows of it, and `inodes` are the
  inodes as the kernel has them in memory.
*/
module KernelFs {
  import opened Prelude
  import opened FsLayout
  import opened BlockMap
  import opened Bitmap

  /** A block with a use is a data block that the bitmap has as in use. */
  predicate BlockUsed(d: Disk, start: nat, meta: nat, size: nat, b: nat) {
    meta <= b < size && Used(d, start, b)
  }

  ghost predicate BitsOk(own: Uses, d: Disk, start: nat, meta: nat, size: nat) {
    && (forall b {:trigger BlockUsed(d, start, meta, size, b)} :: b in own ==> BlockUsed(d, start, meta, size, b))
    && (forall b: nat {:trigger Used(d, start, b)} :: b < meta ==> Used(d, start, b))
  }

  lemma BitmapBelow(start: nat, meta: nat, size: nat, b: nat)
    requires start + size / BPB < meta && b < size
    ensures start + b / BPB < meta
  {
    assert b / BPB <= size / BPB;
  }

  // ---- What is needed ----

  /**
    The blocks that `bmap` takes for block `fbn` of a file: behind an empty double-indirect slot it looks in block 0.
  */
  function Needed(d: Disk, addrs: seq<nat>, fbn: nat): nat
    requires |addrs| == NDIRECT + 2 && fbn < MAXFILE
  {
    if fbn < NDIRECT then Missing(addrs[fbn])
    else if fbn < NDIRECT + WORDS then Missing(addrs[NDIRECT]) + Missing(Find(d, addrs, fbn))
    else
      var leaf := InTable(d, addrs[NDIRECT + 1], LeafOf(fbn));
      Missing(addrs[NDIRECT + 1]) + Missing(leaf) + Missing(Word(At(d, leaf), PosOf(fbn)))
  }

  /** It succeeds if and only if `n` blocks are free, and then takes that many. */
  ghost predicate Spends(d: Disk, d': Disk, start: nat, size: nat, ok: bool, n: nat) {
    && (ok <==> n <= FreeCount(d, start, size))
    && (ok ==> FreeCount(d', start, size) == FreeCount(d, start, size) - n)
  }

  /** Blocks below `meta` are in no block map. */
  lemma MetaWrite(own: Uses, d: Disk, view: map<nat, Inode>, meta: nat, bn: nat, blk: Block)
    requires MapOk(own, d, view) && bn !in own
    ensures MapOk(own, Write(d, bn, blk), view)
  {
    forall x | x in own ensures BlockOk(own, own[x], At(Write(d, bn, blk), x)) {
      assert BlockOk(own, own[x], At(d, x));
    }
  }

  class Fs {
    var disk: Disk
    var inodes: map<nat, Inode>
    ghost var own: Uses
    const start: nat // of the bitmap
    const meta: nat // the first data block
    const size: nat // of the disk

    ghost predicate Valid()
      reads this
    {
      && 0 < start && start + size / BPB < meta <= size <= U32
      && MapOk(own, disk, inodes) && BitsOk(own, disk, start, meta, size)
    }

    constructor (d: Disk, table: map<nat, Inode>, bitmap: nat, data: nat, blocks: nat, ghost uses: Uses)
      requires 0 < bitmap && bitmap + blocks / BPB < data <= blocks <= U32 && MapOk(uses, d, table)
               && BitsOk(uses, d, bitmap, data, blocks)
      ensures Valid() && disk == d && inodes == table && own == uses && start == bitmap && meta == data
              && size == blocks
    {
      disk, inodes, own, start, meta, size := d, table, uses, bitmap, data, blocks;
    }

    /** `alloc`: the first block that the bitmap has as free, zeroed. */
    method Alloc() returns (ok: bool, b: nat)
      requires Valid()
      modifies this`disk
      ensures Valid()
      ensures ok ==>
                meta <= b < size && !Used(old(disk), start, b) && b !in own && forall x: nat :: x < b ==>
                      Used(old(disk), start, x)
      ensures ok ==>
                disk == Write(Mark(old(disk), start, b, true), b, ZeroBytes(BSIZE))
                    && BlockUsed(disk, start, meta, size, b)
      ensures !ok ==> disk == old(disk) && forall x: nat :: x < size ==> Used(disk, start, x)
      ensures Spends(old(disk), disk, start, size, ok, 1) && At(disk, 0) == At(old(disk), 0)
    {
      var base := 0;
      b := 0;
      while base < size
        invariant base % BPB == 0 && disk == old(disk)
        invariant forall x: nat :: x < base && x < size ==> Used(disk, start, x)
      {
        var offset := 0;
        while offset < BPB && base + offset < size
          invariant 0 <= offset <= BPB && disk == old(disk)
          invariant forall x: nat :: x < base + offset && x < size ==> Used(disk, start, x)
        {
          Offset(base, offset);
          if !UsedIn(At(disk, start + base / BPB), offset) {
            b := base + offset;
            Take(b);
            return true, b;
          }
          offset := offset + 1;
        }
        base := base + BPB;
      }
      FreeNone(disk, start, size);
      ok := false;
    }

    /** A free block is marked and zeroed. */
    method Take(b: nat)
      requires Valid() && b < size && !Used(disk, start, b)
      modifies this`disk
      ensures Valid() && meta <= b && b !in own && BlockUsed(disk, start, meta, size, b)
      ensures disk == Write(Mark(old(disk), start, b, true), b, ZeroBytes(BSIZE)) && At(disk, 0) == At(old(disk), 0)
      ensures FreeCount(disk, start, size) == FreeCount(old(disk), start, size) - 1
    {
      AllocKeeps(own, disk, inodes, start, meta, size, b);
      FreeTaken(disk, Write(Mark(disk, start, b, true), b, ZeroBytes(BSIZE)), start, size, b);
      disk := Mark(disk, start, b, true);
      disk := Write(disk, b, ZeroBytes(BSIZE));
    }

    /** `free`: a panic if the block is free already. */
    method Free(b: nat) returns (ok: bool)
      requires b < size
      modifies this`disk
      ensures ok <==> Used(old(disk), start, b)
      ensures disk == if ok then Mark(old(disk), start, b, false) else old(disk)
    {
      ok := UsedIn(At(disk, start + b / BPB), b % BPB);
      if ok {
        disk := Mark(disk, start, b, false);
      }
    }

    /** The slot of an inode, filled if it is empty. */
    method AddrSlot(inum: nat, i: nat) returns (ok: bool, b: nat)
      requires Valid() && inum in inodes && i < NDIRECT + 2
      modifies this`disk, this`inodes, this`own
      ensures ok ==>
                Valid() && SameButSlots(old(inodes), inodes, inum) && Grown(old(own), own)
                    && Kept(old(own), old(disk), disk, 0)
      ensures ok ==> Extends(old(disk), old(inodes)[inum].addrs, disk, inodes[inum].addrs)
      ensures ok ==> b == inodes[inum].addrs[i] && b != 0 && b in own && own[b] == AddrUse(inum, i)
      ensures |old(inodes)[inum].addrs| == NDIRECT + 2
      ensures old(inodes)[inum].addrs[i] != 0 ==> ok && disk == old(disk) && inodes == old(inodes) && own == old(own)
      ensures ok ==> forall j: nat :: j < NDIRECT + 2 && j != i ==> inodes[inum].addrs[j] == old(inodes)[inum].addrs[j]
      ensures ok && old(inodes)[inum].addrs[i] == 0 ==> b !in old(own) && At(disk, b) == ZeroBytes(BSIZE)
      ensures ok ==> forall x :: x in old(own) ==> At(disk, x) == At(old(disk), x)
      ensures Spends(old(disk), disk, start, size, ok, Missing(old(inodes)[inum].addrs[i]))
              && At(disk, 0) == At(old(disk), 0)
    {
      assert InodeOk(own, inum, inodes[inum].addrs);
      ok, b := true, inodes[inum].addrs[i];
      if b == 0 {
        ok, b := Alloc();
        if ok {
          AllocKept(own, old(disk), start, meta, size, b);
          ExtendsKept(own, old(disk), disk, 0, inodes, inum);
          ExtendsAddr(disk, inodes[inum].addrs, i, b);
          ExtendsTrans(old(disk), inodes[inum].addrs, disk, inodes[inum].addrs, disk, inodes[inum].addrs[i := b]);
          FillAddr(own, disk, inodes, inum, i, b);
          MoreBits(own, disk, start, meta, size, b, AddrUse(inum, i));
          inodes := With(inodes, inum, inodes[inum].(addrs := inodes[inum].addrs[i := b]));
          own := own[b := AddrUse(inum, i)];
        }
      } else {
        ExtendsSame(disk, inodes[inum].addrs);
      }
    }

    /** Slot `pos` of a block of slots, filled if it is empty.  What is returned is what the slot held before. */
    method FillWord(table: nat, pos: nat) returns (ok: bool, b: nat)
      requires Valid() && table in own && !own[table].Data? && pos < WORDS
      modifies this`disk, this`own
      ensures ok ==> Valid() && Grown(old(own), own) && Kept(old(own), old(disk), disk, 0)
      ensures ok ==> b == Word(At(old(disk), table), pos)
      ensures Word(At(old(disk), table), pos) != 0 ==> ok && disk == old(disk) && own == old(own)
      ensures ok && b == 0 ==>
                var nb := Word(At(disk, table), pos);
                nb != 0 && nb in own && own[nb] == SlotUse(own[table], pos) && nb !in old(own)
                    && At(disk, nb) == ZeroBytes(BSIZE)
      ensures ok ==> forall j: nat {:trigger Word(At(disk, table), j)} :: j < WORDS && j != pos ==>
                Word(At(disk, table), j) == Word(At(old(disk), table), j)
      ensures Spends(old(disk), disk, start, size, ok, Missing(Word(At(old(disk), table), pos)))
              && At(disk, 0) == At(old(disk), 0)
    {
      assert BlockOk(own, own[table], At(disk, table)) && BlockUsed(disk, start, meta, size, table);
      ok, b := true, Word(At(disk, table), pos);
      if b == 0 {
        var nb;
        ok, nb := Alloc();
        if ok {
          AllocKept(own, old(disk), start, meta, size, nb);
          FillSlot(own, disk, inodes, meta, table, pos, nb);
          WordSet(At(disk, table), pos, nb);
          FillBits(own, disk, start, meta, size, table, SetWord(At(disk, table), pos, nb), nb,
                   SlotUse(own[table], pos));
          FreeSame(disk, Write(disk, table, SetWord(At(disk, table), pos, nb)), start, size);
          KeptTwice(own, old(disk), disk, Write(disk, table, SetWord(At(disk, table), pos, nb)), meta);
          disk := Write(disk, table, SetWord(At(disk, table), pos, nb));
          own := own[nb := SlotUse(own[table], pos)];
        }
      }
    }

    /** The same on block 0, where the code ends up when a slot of the double-indirect block was empty. */
    method FillBlockZero(pos: nat) returns (ok: bool, b: nat)
      requires Valid() && pos < WORDS
      modifies this`disk
      ensures ok ==> Valid() && Kept(own, old(disk), disk, 0) && b == Word(At(old(disk), 0), pos)
      ensures ok && b == 0 ==> Word(At(disk, 0), pos) != 0
      ensures ok ==> forall x :: x in own ==> At(disk, x) == At(old(disk), x)
      ensures ok && b != 0 ==> disk == old(disk)
      ensures Spends(old(disk), disk, start, size, ok, Missing(Word(At(old(disk), 0), pos)))
    {
      ok, b := true, Word(At(disk, 0), pos);
      if b == 0 {
        var nb;
        ok, nb := Alloc();
        if ok {
          AllocKept(own, old(disk), start, meta, size, nb);
          BlockZero(own, disk, inodes, start, meta, size, SetWord(At(disk, 0), pos, nb));
          WordSet(At(disk, 0), pos, nb);
          FreeSame(disk, Write(disk, 0, SetWord(At(disk, 0), pos, nb)), start, size);
          disk := Write(disk, 0, SetWord(At(disk, 0), pos, nb));
        }
      }
    }

    /**
      `bmap`.  It keeps the block maps apart and every mapped block in place, but the block it returns is the
      one that is mapped only for direct blocks and for blocks that were mapped before.
    */
    method Bmap(inum: nat, fbn: nat) returns (ok: bool, bn: nat)
      requires Valid() && inum in inodes && |inodes[inum].addrs| == NDIRECT + 2
      modifies this`disk, this`inodes, this`own
      ensures fbn < MAXFILE ==>
                Spends(old(disk), disk, start, size, ok, Needed(old(disk), old(inodes)[inum].addrs, fbn))
      ensures ok ==> fbn < MAXFILE && Valid() && SameButSlots(old(inodes), inodes, inum) && Grown(old(own), own)
      ensures ok ==> Extends(old(disk), old(inodes)[inum].addrs, disk, inodes[inum].addrs)
      ensures Find(old(disk), old(inodes)[inum].addrs, fbn) != 0 ==>
                ok && bn == Find(old(disk), old(inodes)[inum].addrs, fbn) && disk == old(disk) && inodes == old(inodes)
                    && own == old(own)
      ensures ok ==>
                (bn != 0 && bn == Find(disk, inodes[inum].addrs, fbn) <==>
                   fbn < NDIRECT || Find(old(disk), old(inodes)[inum].addrs, fbn) != 0)
      ensures ok && NDIRECT <= fbn < NDIRECT + WORDS && Find(old(disk), old(inodes)[inum].addrs, fbn) == 0 ==>
                && bn == 0 && Kept(old(own), old(disk), disk, 0)
                && Find(disk, inodes[inum].addrs, fbn) != 0
                    && At(disk, Find(disk, inodes[inum].addrs, fbn)) == ZeroBytes(BSIZE)
      ensures ok && (fbn < NDIRECT + WORDS || Find(old(disk), old(inodes)[inum].addrs, fbn) != 0) ==>
                OnlyMaps(old(disk), old(inodes)[inum].addrs, disk, inodes[inum].addrs, fbn)
      ensures ok && (fbn < NDIRECT || Find(old(disk), old(inodes)[inum].addrs, fbn) != 0) ==>
                Kept(old(own), old(disk), disk, 0) && bn in own && own[bn] == Data(inum, fbn)
      ensures ok && fbn < NDIRECT && Find(old(disk), old(inodes)[inum].addrs, fbn) == 0 ==>
                At(disk, bn) == ZeroBytes(BSIZE)
      ensures ok && fbn < NDIRECT + WORDS ==> At(disk, 0) == At(old(disk), 0)
      ensures ok && NDIRECT + WORDS <= fbn ==> inodes[inum].addrs[NDIRECT + 1] != 0
      ensures ok && NDIRECT + WORDS <= fbn ==>
                forall j: nat :: j < NDIRECT + 1 ==> inodes[inum].addrs[j] == old(inodes)[inum].addrs[j]
    {
      bn := 0;
      ghost var found := Find(disk, inodes[inum].addrs, fbn);
      if found != 0 { FindUse(own, disk, inodes, inum, fbn); }
      if fbn < NDIRECT {
        assert InodeOk(own, inum, inodes[inum].addrs);
        ghost var table := inodes[inum].addrs[NDIRECT];
        assert table != 0 ==> Points(own, table, AddrUse(inum, NDIRECT));
        ok, bn := AddrSlot(inum, fbn);
        if ok { DirectMapped(old(disk), old(inodes)[inum].addrs, disk, inodes[inum].addrs, fbn); }
      } else if fbn < NDIRECT + WORDS {
        ok, bn := BmapIndirect(inum, fbn);
      } else if fbn < MAXFILE {
        ok, bn := BmapDouble(inum, fbn);
      } else {
        ok := false;
      }
    }

    method BmapIndirect(inum: nat, fbn: nat) returns (ok: bool, bn: nat)
      requires Valid() && inum in inodes && |inodes[inum].addrs| == NDIRECT + 2 && NDIRECT <= fbn < NDIRECT + WORDS
      modifies this`disk, this`inodes, this`own
      ensures Spends(old(disk), disk, start, size, ok, Needed(old(disk), old(inodes)[inum].addrs, fbn))
      ensures ok ==> Valid() && SameButSlots(old(inodes), inodes, inum) && Grown(old(own), own)
      ensures ok ==> Extends(old(disk), old(inodes)[inum].addrs, disk, inodes[inum].addrs)
      ensures ok ==> bn == Find(old(disk), old(inodes)[inum].addrs, fbn)
      ensures Find(old(disk), old(inodes)[inum].addrs, fbn) != 0 ==>
                ok && disk == old(disk) && inodes == old(inodes) && own == old(own)
      ensures ok ==> Find(disk, inodes[inum].addrs, fbn) != 0
      ensures ok && bn == 0 ==> At(disk, Find(disk, inodes[inum].addrs, fbn)) == ZeroBytes(BSIZE)
      ensures ok ==> Kept(old(own), old(disk), disk, 0) && At(disk, 0) == At(old(disk), 0)
      ensures ok ==> OnlyMaps(old(disk), old(inodes)[inum].addrs, disk, inodes[inum].addrs, fbn)
    {
      var table;
      bn := 0;
      ok, table := AddrSlot(inum, NDIRECT);
      if ok {
        ghost var disk1, own1 := disk, own;
        ok, bn := FillWord(table, fbn - NDIRECT);
        if ok {
          ExtendsKept(own1, disk1, disk, 0, inodes, inum);
          ExtendsTrans(old(disk), old(inodes)[inum].addrs, disk1, inodes[inum].addrs, disk, inodes[inum].addrs);
          ZeroWords(fbn - NDIRECT);
          KeptGrown(old(own), own1, old(disk), disk1, disk);
          OneMapped(old(disk), old(inodes)[inum].addrs, disk1, inodes[inum].addrs, disk, fbn);
        }
      }
    }

    /**
      Where the slot of the double-indirect block was empty, the code goes on with block 0 in place of the new block.
    */
    method BmapDouble(inum: nat, fbn: nat) returns (ok: bool, bn: nat)
      requires Valid() && inum in inodes && |inodes[inum].addrs| == NDIRECT + 2 && NDIRECT + WORDS <= fbn < MAXFILE
      modifies this`disk, this`inodes, this`own
      ensures Spends(old(disk), disk, start, size, ok, Needed(old(disk), old(inodes)[inum].addrs, fbn))
      ensures ok ==> Valid() && SameButSlots(old(inodes), inodes, inum) && Grown(old(own), own)
      ensures ok ==> Extends(old(disk), old(inodes)[inum].addrs, disk, inodes[inum].addrs)
      ensures Find(old(disk), old(inodes)[inum].addrs, fbn) != 0 ==>
                ok && bn == Find(old(disk), old(inodes)[inum].addrs, fbn) && disk == old(disk) && inodes == old(inodes)
                    && own == old(own)
      ensures ok && Find(old(disk), old(inodes)[inum].addrs, fbn) == 0 ==>
                bn == 0 || Find(disk, inodes[inum].addrs, fbn) == 0
      ensures ok ==> inodes[inum].addrs[NDIRECT + 1] != 0
      ensures ok ==> forall j: nat :: j < NDIRECT + 1 ==> inodes[inum].addrs[j] == old(inodes)[inum].addrs[j]
    {
      var double, leaf;
      bn := 0;
      ok, double := AddrSlot(inum, NDIRECT + 1);
      if ok {
        ghost var disk1, own1 := disk, own;
        ok, leaf := FillWord(double, LeafOf(fbn));
        if ok {
          ExtendsKept(own1, disk1, disk, 0, inodes, inum);
          ExtendsTrans(old(disk), old(inodes)[inum].addrs, disk1, inodes[inum].addrs, disk, inodes[inum].addrs);
          ZeroWords(LeafOf(fbn));
          ghost var disk2, own2 := disk, own;
          if leaf != 0 {
            assert BlockOk(own, own[double], At(disk, double));
            ok, bn := FillWord(leaf, PosOf(fbn));
          } else {
            ZeroWords(PosOf(fbn));
            ok, bn := FillBlockZero(PosOf(fbn));
          }
          if ok {
            ExtendsKept(own2, disk2, disk, 0, inodes, inum);
            ExtendsTrans(old(disk), old(inodes)[inum].addrs, disk2, inodes[inum].addrs, disk, inodes[inum].addrs);
          }
        }
      }
    }

    /** `itrunc`: no `free` panics, and exactly the blocks of the direct and indirect slots are given back. */
    method ITrunc(inum: nat) returns (ok: bool)
      requires Valid() && inum in inodes && |inodes[inum].addrs| == NDIRECT + 2
      modifies this`disk, this`inodes, this`own
      ensures ok && Valid()
      ensures inodes == old(inodes)[inum := Truncated(old(inodes)[inum])]
      ensures Cleared(old(disk), disk, start, size, FileBlocks(old(disk), old(inodes)[inum].addrs))
      ensures forall b :: b in own <==> b in old(own) && !TruncUse(old(own)[b], inum)
      ensures forall b :: b in own ==> own[b] == old(own)[b]
      ensures forall b :: b in old(own) ==> At(disk, b) == At(old(disk), b)
      ensures Leaves(old(disk), old(inodes)[inum].addrs, disk, start, size)
      ensures FreeCount(disk, start, size) == FreeCount(old(disk), start, size)
                                              + |FileBlocks(old(disk), old(inodes)[inum].addrs)|
      ensures CutShort(old(disk), old(inodes)[inum].addrs, disk, inodes[inum].addrs)
    {
      ghost var d0 := disk;
      var ino;
      ok, ino := FreeFile(inum);
      TruncEnds(d0, disk, start, meta, size, own, inodes, inum);
      TruncLeaves(own, d0, disk, start, meta, size, inodes, inum);
      TruncFinds(own, d0, disk, inodes, inum);
      inodes := With(inodes, inum, ino);
      own := TruncOwn(own, inum);
    }

    /** The loops of `itrunc`, and the inode they leave. */
    method FreeFile(inum: nat) returns (ok: bool, ino: Inode)
      requires Valid() && inum in inodes && |inodes[inum].addrs| == NDIRECT + 2
      modifies this`disk
      ensures ok && ino == Truncated(inodes[inum])
      ensures Trunc(old(disk), disk, start, size, own, FileBlocks(old(disk), inodes[inum].addrs))
    {
      ghost var d0, addrs := disk, inodes[inum].addrs;
      assert InodeOk(own, inum, addrs);
      ok, ino := FreeDirect(inum);
      if ino.addrs[NDIRECT] > 0 {
        assert Points(own, addrs[NDIRECT], AddrUse(inum, NDIRECT))
               && BlockOk(own, own[addrs[NDIRECT]], At(d0, addrs[NDIRECT]));
        var freed := FreeTable(ino.addrs[NDIRECT], d0, own, inum, addrs);
        ok := ok && freed;
        ino := ino.(addrs := ino.addrs[NDIRECT := 0]);
      } else {
        assert FileBlocks(d0, addrs) == AddrSet(addrs, NDIRECT);
      }
      ino := ino.(size := 0);
      assert ino.addrs == Truncated(inodes[inum]).addrs;
    }

    /** The loop of `itrunc` over the direct slots. */
    method FreeDirect(inum: nat) returns (ok: bool, ino: Inode)
      requires Valid() && inum in inodes && InodeOk(own, inum, inodes[inum].addrs)
      modifies this`disk
      ensures ok && Trunc(old(disk), disk, start, size, own, AddrSet(inodes[inum].addrs, NDIRECT))
      ensures ino == inodes[inum].(addrs := ino.addrs) && |ino.addrs| == NDIRECT + 2
      ensures forall j: nat :: j < NDIRECT + 2 ==> ino.addrs[j] == if j < NDIRECT then 0 else inodes[inum].addrs[j]
    {
      ok, ino := true, inodes[inum];
      var i := 0;
      NothingFreed(disk, start, size, own);
      while i < NDIRECT
        invariant 0 <= i <= NDIRECT && ok && Trunc(old(disk), disk, start, size, own, AddrSet(inodes[inum].addrs, i))
        invariant ino == inodes[inum].(addrs := ino.addrs) && |ino.addrs| == NDIRECT + 2
        invariant forall j: nat :: j < NDIRECT + 2 ==> ino.addrs[j] == if j < i then 0 else inodes[inum].addrs[j]
      {
        if ino.addrs[i] > 0 {
          var freed := FreeOwned(ino.addrs[i], old(disk), own, AddrSet(inodes[inum].addrs, i), inum, inodes[inum].addrs,
                                 i);
          ok := ok && freed;
          ino := ino.(addrs := ino.addrs[i := 0]);
        }
        i := i + 1;
      }
    }

    /** Freeing the block of slot `i`, which is in use and was not freed yet. */
    method FreeOwned(b: nat, ghost d0: Disk, ghost own0: Uses, ghost gone: set<nat>, ghost inum: nat,
                     ghost addrs: seq<nat>, ghost i: nat)
      returns (ok: bool)
      requires start + size / BPB < meta && BitsOk(own0, d0, start, meta, size) && InodeOk(own0, inum, addrs)
      requires i < NDIRECT + 1 && b == addrs[i] != 0 && gone == AddrSet(addrs, i)
               && Trunc(d0, disk, start, size, own0, gone)
      modifies this`disk
      ensures ok && Trunc(d0, disk, start, size, own0, AddrSet(addrs, i + 1))
    {
      AddrNew(own0, inum, addrs, i, i);
      FreeOne(d0, disk, start, meta, size, own0, gone, b);
      ok := Free(b);
    }

    /** The loop of `itrunc` over the indirect block, and the block itself. */
    method FreeTable(table: nat, ghost d0: Disk, ghost own0: Uses, ghost inum: nat, ghost addrs: seq<nat>)
      returns (ok: bool)
      requires start + size / BPB < meta && BitsOk(own0, d0, start, meta, size) && InodeOk(own0, inum, addrs)
      requires table == addrs[NDIRECT] != 0 && BlockOk(own0, Ind(inum), At(d0, table))
               && Trunc(d0, disk, start, size, own0, AddrSet(addrs, NDIRECT))
      modifies this`disk
      ensures ok && Trunc(d0, disk, start, size, own0, FileBlocks(d0, addrs))
    {
      var buf := At(disk, table);
      assert Points(own0, addrs[NDIRECT], AddrUse(inum, NDIRECT));
      var j := 0;
      ok := true;
      assert AddrSet(addrs, NDIRECT) + WordSetOf(buf, 0) == AddrSet(addrs, NDIRECT);
      while j < WORDS
        invariant 0 <= j <= WORDS && ok
                  && Trunc(d0, disk, start, size, own0, AddrSet(addrs, NDIRECT) + WordSetOf(buf, j))
      {
        var freed := FreeWord(buf, j, d0, own0, inum, addrs);
        ok := ok && freed;
        j := j + 1;
      }
      var freed := FreeTableBlock(table, buf, d0, own0, inum, addrs);
      ok := ok && freed;
    }

    method FreeWord(buf: Block, j: nat, ghost d0: Disk, ghost own0: Uses, ghost inum: nat, ghost addrs: seq<nat>)
      returns (ok: bool)
      requires start + size / BPB < meta && BitsOk(own0, d0, start, meta, size) && InodeOk(own0, inum, addrs)
               && BlockOk(own0, Ind(inum), buf)
      requires j < WORDS && Trunc(d0, disk, start, size, own0, AddrSet(addrs, NDIRECT) + WordSetOf(buf, j))
      modifies this`disk
      ensures ok && Trunc(d0, disk, start, size, own0, AddrSet(addrs, NDIRECT) + WordSetOf(buf, j + 1))
    {
      ok := true;
      var bn := Word(buf, j);
      if bn != 0 {
        WordNew(own0, inum, addrs, buf, j, j);
        FreeOne(d0, disk, start, meta, size, own0, AddrSet(addrs, NDIRECT) + WordSetOf(buf, j), bn);
        assert AddrSet(addrs, NDIRECT) + WordSetOf(buf, j + 1) == AddrSet(addrs, NDIRECT) + WordSetOf(buf, j) + {bn};
        ok := Free(bn);
      }
    }

    method FreeTableBlock(table: nat, ghost buf: Block, ghost d0: Disk, ghost own0: Uses,
                          ghost inum: nat, ghost addrs: seq<nat>)
      returns (ok: bool)
      requires start + size / BPB < meta && BitsOk(own0, d0, start, meta, size) && InodeOk(own0, inum, addrs)
               && BlockOk(own0, Ind(inum), buf)
      requires table == addrs[NDIRECT] != 0 && buf == At(d0, table)
      requires Trunc(d0, disk, start, size, own0, AddrSet(addrs, NDIRECT) + WordSetOf(buf, WORDS))
      modifies this`disk
      ensures ok && Trunc(d0, disk, start, size, own0, FileBlocks(d0, addrs))
    {
      TableNew(own0, inum, addrs, buf, WORDS);
      AddrNew(own0, inum, addrs, NDIRECT, NDIRECT);
      FreeOne(d0, disk, start, meta, size, own0, AddrSet(addrs, NDIRECT) + WordSetOf(buf, WORDS), table);
      assert FileBlocks(d0, addrs) == AddrSet(addrs, NDIRECT) + WordSetOf(buf, WORDS) + {table};
      ok := Free(table);
    }
  }

  /** Below the double-indirect part, no block but `fbn` was mapped, and no indirect block for a direct one. */
  ghost predicate OnlyMaps(d: Disk, addrs: seq<nat>, d': Disk, addrs': seq<nat>, fbn: nat) {
    && |addrs| == |addrs'| == NDIRECT + 2
    && (fbn < NDIRECT ==> addrs'[NDIRECT] == addrs[NDIRECT])
    && forall f: nat {:trigger Find(d', addrs', f)} :: f < NDIRECT + WORDS && f != fbn && Find(d, addrs, f) == 0 ==>
          Find(d', addrs', f) == 0
  }

  lemma OneMapped(d0: Disk, a0: seq<nat>, d1: Disk, a1: seq<nat>, d2: Disk, fbn: nat)
    requires |a0| == |a1| == NDIRECT + 2 && NDIRECT <= fbn < NDIRECT + WORDS && a1[NDIRECT] != 0
    requires forall j: nat :: j < NDIRECT ==> a1[j] == a0[j]
    requires if a0[NDIRECT] == 0 then At(d1, a1[NDIRECT]) == ZeroBytes(BSIZE)
             else a1[NDIRECT] == a0[NDIRECT] && At(d1, a0[NDIRECT]) == At(d0, a0[NDIRECT])
    requires forall j: nat {:trigger Word(At(d2, a1[NDIRECT]), j)} :: j < WORDS && j != fbn - NDIRECT ==>
               Word(At(d2, a1[NDIRECT]), j) == Word(At(d1, a1[NDIRECT]), j)
    ensures OnlyMaps(d0, a0, d2, a1, fbn)
  {
    forall f: nat | f < NDIRECT + WORDS && f != fbn && Find(d0, a0, f) == 0 ensures Find(d2, a1, f) == 0 {
      if f >= NDIRECT { ZeroWords(f - NDIRECT); }
    }
  }

  lemma KeptGrown(own: Uses, own': Uses, d0: Disk, d1: Disk, d2: Disk)
    requires Kept(own, d0, d1, 0) && Grown(own, own') && Kept(own', d1, d2, 0)
    ensures Kept(own, d0, d2, 0)
  {
  }

  lemma DirectMapped(d0: Disk, a0: seq<nat>, d1: Disk, a1: seq<nat>, fbn: nat)
    requires |a0| == |a1| == NDIRECT + 2 && fbn < NDIRECT && a1[NDIRECT] == a0[NDIRECT]
    requires a0[NDIRECT] != 0 ==> At(d1, a0[NDIRECT]) == At(d0, a0[NDIRECT])
    requires forall j: nat :: j < NDIRECT && j != fbn ==> a1[j] == a0[j]
    ensures OnlyMaps(d0, a0, d1, a1, fbn)
  {
  }

  // ---- What itrunc frees ----

  /** The blocks in the first `n` slots of an inode, and of a block of slots. */
  ghost function AddrSet(addrs: seq<nat>, n: nat): set<nat>
    requires n <= |addrs|
  {
    if n == 0 then {} else AddrSet(addrs, n - 1) + if addrs[n - 1] != 0 then {addrs[n - 1]} else {}
  }

  ghost function WordSetOf(blk: Block, n: nat): set<nat>
    requires n <= WORDS
  {
    if n == 0 then {} else WordSetOf(blk, n - 1) + if Word(blk, n - 1) != 0 then {Word(blk, n - 1)} else {}
  }

  /** The blocks that `itrunc` goes through: it never looks at the double-indirect slot. */
  ghost function FileBlocks(d: Disk, addrs: seq<nat>): set<nat>
    requires |addrs| == NDIRECT + 2
  {
    AddrSet(addrs, NDIRECT + 1) + if addrs[NDIRECT] != 0 then WordSetOf(At(d, addrs[NDIRECT]), WORDS) else {}
  }

  function Truncated(ino: Inode): Inode
    requires |ino.addrs| == NDIRECT + 2
  {
    ino.(size := 0, addrs := seq(NDIRECT + 1, _ => 0) + [ino.addrs[NDIRECT + 1]])
  }

  /** Of `own`, what belongs to the direct and indirect blocks of `inum`. */
  predicate TruncUse(u: Use, inum: nat) {
    u.inum == inum && (u.Ind? || (u.Data? && u.fbn < NDIRECT + WORDS))
  }

  ghost function TruncOwn(own: Uses, inum: nat): Uses {
    map b | b in own && !TruncUse(own[b], inum) :: own[b]
  }

  /** The bits of the blocks in `gone` are cleared, and no others. */
  ghost predicate Cleared(d0: Disk, d: Disk, start: nat, size: nat, gone: set<nat>) {
    forall x: nat {:trigger Used(d, start, x)} :: x < size ==> (Used(d, start, x) <==> Used(d0, start, x) && x !in gone)
  }

  ghost predicate Trunc(d0: Disk, d: Disk, start: nat, size: nat, own0: Uses, gone: set<nat>) {
    Cleared(d0, d, start, size, gone) && forall x :: x in own0 ==> At(d, x) == At(d0, x)
  }

  lemma NothingFreed(d: Disk, start: nat, size: nat, own: Uses)
    ensures Trunc(d, d, start, size, own, {})
  {
  }

  lemma FreeOne(d0: Disk, d: Disk, start: nat, meta: nat, size: nat, own0: Uses, gone: set<nat>, b: nat)
    requires Trunc(d0, d, start, size, own0, gone) && BitsOk(own0, d0, start, meta, size) && start + size / BPB < meta
    requires b in own0 && b !in gone
    ensures b < size && Used(d, start, b) && Trunc(d0, Mark(d, start, b, false), start, size, own0, gone + {b})
  {
    assert BlockUsed(d0, start, meta, size, b);
    BitmapBelow(start, meta, size, b);
    var d' := Mark(d, start, b, false);
    forall x: nat | x < size ensures Used(d', start, x) <==> Used(d0, start, x) && x !in gone + {b} {
      MarkBits(d, start, b, false, x);
      assert Used(d, start, x) <==> Used(d0, start, x) && x !in gone;
    }
    forall x | x in own0 ensures At(d', x) == At(d0, x) { assert BlockUsed(d0, start, meta, size, x); }
  }

  lemma {:induction false} AddrNew(own: Uses, inum: nat, addrs: seq<nat>, i: nat, n: nat)
    requires InodeOk(own, inum, addrs) && n <= i < NDIRECT + 1 && addrs[i] != 0
    ensures addrs[i] in own && addrs[i] !in AddrSet(addrs, n)
  {
    assert Points(own, addrs[i], AddrUse(inum, i));
    if n > 0 {
      AddrNew(own, inum, addrs, i, n - 1);
      assert Points(own, addrs[n - 1], AddrUse(inum, n - 1));
    }
  }

  lemma {:induction false} InAddrSet(own: Uses, inum: nat, addrs: seq<nat>, n: nat, x: nat)
    requires InodeOk(own, inum, addrs) && n <= NDIRECT && x in AddrSet(addrs, n)
    ensures x in own && own[x].Data? && own[x].fbn < NDIRECT && own[x].inum == inum
  {
    assert Points(own, addrs[n - 1], AddrUse(inum, n - 1));
    if x in AddrSet(addrs, n - 1) { InAddrSet(own, inum, addrs, n - 1, x); }
  }

  lemma {:induction false} WordNew(own: Uses, inum: nat, addrs: seq<nat>, blk: Block, j: nat, n: nat)
    requires InodeOk(own, inum, addrs) && BlockOk(own, Ind(inum), blk) && n <= j < WORDS && Word(blk, j) != 0
    ensures Word(blk, j) in own && Word(blk, j) !in AddrSet(addrs, NDIRECT) + WordSetOf(blk, n)
  {
    assert Points(own, Word(blk, j), SlotUse(Ind(inum), j));
    if n > 0 {
      WordNew(own, inum, addrs, blk, j, n - 1);
      assert Points(own, Word(blk, n - 1), SlotUse(Ind(inum), n - 1));
    } else if Word(blk, j) in AddrSet(addrs, NDIRECT) {
      InAddrSet(own, inum, addrs, NDIRECT, Word(blk, j));
    }
  }

  lemma {:induction false} TableNew(own: Uses, inum: nat, addrs: seq<nat>, blk: Block, n: nat)
    requires InodeOk(own, inum, addrs) && BlockOk(own, Ind(inum), blk) && n <= WORDS && addrs[NDIRECT] != 0
    ensures addrs[NDIRECT] !in WordSetOf(blk, n)
  {
    assert Points(own, addrs[NDIRECT], AddrUse(inum, NDIRECT));
    if n > 0 {
      TableNew(own, inum, addrs, blk, n - 1);
      assert Points(own, Word(blk, n - 1), SlotUse(Ind(inum), n - 1));
    }
  }

  /** Without its direct and indirect blocks, the rest of the map is in order. */
  lemma TruncEnds(d0: Disk, d: Disk, start: nat, meta: nat, size: nat, own: Uses, view: map<nat, Inode>, inum: nat)
    requires MapOk(own, d0, view) && BitsOk(own, d0, start, meta, size) && inum in view
             && |view[inum].addrs| == NDIRECT + 2
    requires start + size / BPB < meta <= size && Trunc(d0, d, start, size, own, FileBlocks(d0, view[inum].addrs))
    ensures MapOk(TruncOwn(own, inum), d, With(view, inum, Truncated(view[inum])))
    ensures BitsOk(TruncOwn(own, inum), d, start, meta, size)
  {
    var own', view' := TruncOwn(own, inum), With(view, inum, Truncated(view[inum]));
    forall n | n in view' ensures InodeOk(own', n, view'[n].addrs) {
      assert InodeOk(own, n, view[n].addrs);
    }
    forall b | b in own' ensures BlockOk(own', own'[b], At(d, b)) {
      assert BlockOk(own, own[b], At(d0, b));
    }
    forall b | b in FileBlocks(d0, view[inum].addrs) ensures meta <= b && b in own && TruncUse(own[b], inum) {
      InFileBlocks(own, d0, view, inum, b);
      assert BlockUsed(d0, start, meta, size, b);
    }
    forall b | b in own' ensures BlockUsed(d, start, meta, size, b) {
      assert BlockUsed(d0, start, meta, size, b);
    }
  }

  lemma InFileBlocks(own: Uses, d: Disk, view: map<nat, Inode>, inum: nat, x: nat)
    requires MapOk(own, d, view) && inum in view && |view[inum].addrs| == NDIRECT + 2
             && x in FileBlocks(d, view[inum].addrs)
    ensures x in own && TruncUse(own[x], inum)
  {
    var addrs := view[inum].addrs;
    assert InodeOk(own, inum, addrs);
    assert Points(own, addrs[NDIRECT], AddrUse(inum, NDIRECT));
    if x in AddrSet(addrs, NDIRECT) {
      InAddrSet(own, inum, addrs, NDIRECT, x);
    } else if addrs[NDIRECT] != 0 && x in WordSetOf(At(d, addrs[NDIRECT]), WORDS) {
      assert BlockOk(own, own[addrs[NDIRECT]], At(d, addrs[NDIRECT]));
      InWordSet(own, inum, At(d, addrs[NDIRECT]), WORDS, x);
    }
  }

  lemma {:induction false} InWordSet(own: Uses, inum: nat, blk: Block, n: nat, x: nat)
    requires BlockOk(own, Ind(inum), blk) && n <= WORDS && x in WordSetOf(blk, n)
    ensures x in own && TruncUse(own[x], inum)
  {
    assert Points(own, Word(blk, n - 1), SlotUse(Ind(inum), n - 1));
    if x in WordSetOf(blk, n - 1) { InWordSet(own, inum, blk, n - 1, x); }
  }

  // ---- What allocation keeps ----

  /** Block 0 is in no block map and holds no bits. */
  lemma BlockZero(own: Uses, d: Disk, view: map<nat, Inode>, start: nat, meta: nat, size: nat, blk: Block)
    requires MapOk(own, d, view) && BitsOk(own, d, start, meta, size) && 0 < start < meta
    ensures MapOk(own, Write(d, 0, blk), view) && BitsOk(own, Write(d, 0, blk), start, meta, size)
    ensures 0 !in own && Kept(own, d, Write(d, 0, blk), 0) && SameBits(d, Write(d, 0, blk), start, size)
  {
    assert 0 in own ==> BlockUsed(d, start, meta, size, 0);
    MetaWrite(own, d, view, meta, 0, blk);
    forall x: nat ensures Used(Write(d, 0, blk), start, x) == Used(d, start, x) { }
    forall x | x in own ensures BlockUsed(Write(d, 0, blk), start, meta, size, x) {
      assert BlockUsed(d, start, meta, size, x);
    }
  }

  /** Nothing but the slots of `inum` may differ. */
  ghost predicate SameButSlots(inodes: map<nat, Inode>, inodes': map<nat, Inode>, inum: nat) {
    && inum in inodes && inodes'.Keys == inodes.Keys && |inodes'[inum].addrs| == NDIRECT + 2
    && inodes' == inodes[inum := inodes[inum].(addrs := inodes'[inum].addrs)]
  }

  lemma ExtendsSame(d: Disk, addrs: seq<nat>)
    requires |addrs| == NDIRECT + 2
    ensures Extends(d, addrs, d, addrs)
  {
  }

  lemma KeptTwice(own: Uses, d0: Disk, d1: Disk, d2: Disk, meta: nat)
    requires Kept(own, d0, d1, 0) && Kept(own, d1, d2, meta)
    ensures Kept(own, d0, d2, 0)
  {
    forall b: nat | b in own && own[b].Data? ensures At(d2, b) == At(d0, b) {
      assert At(d1, b) == At(d0, b);
    }
    forall b: nat, j: nat | b in own && !own[b].Data? && j < WORDS && Word(At(d0, b), j) != 0
      ensures Word(At(d2, b), j) == Word(At(d0, b), j) {
      assert Word(At(d1, b), j) == Word(At(d0, b), j);
    }
  }

  /** Taking a block leaves every block with a use as it is. */
  lemma AllocKept(own: Uses, d: Disk, start: nat, meta: nat, size: nat, b: nat)
    requires start + size / BPB < meta && meta <= b < size && b !in own && BitsOk(own, d, start, meta, size)
    ensures var d' := Write(Mark(d, start, b, true), b, ZeroBytes(BSIZE));
            Kept(own, d, d', 0) && At(d', b) == ZeroBytes(BSIZE) && forall x :: x in own ==> At(d', x) == At(d, x)
  {
    BitmapBelow(start, meta, size, b);
    forall x | x in own ensures meta <= x { assert BlockUsed(d, start, meta, size, x); }
  }

  lemma MoreBits(own: Uses, d: Disk, start: nat, meta: nat, size: nat, b: nat, u: Use)
    requires BitsOk(own, d, start, meta, size) && BlockUsed(d, start, meta, size, b)
    ensures BitsOk(own[b := u], d, start, meta, size)
  {
  }

  /** A write into a block of slots does not touch the bitmap. */
  lemma FillBits(own: Uses, d: Disk, start: nat, meta: nat, size: nat, table: nat, blk: Block, b: nat, u: Use)
    requires BitsOk(own, d, start, meta, size) && BlockUsed(d, start, meta, size, b)
             && start + size / BPB < meta <= table && meta <= size
    ensures BitsOk(own[b := u], Write(d, table, blk), start, meta, size)
            && SameBits(d, Write(d, table, blk), start, size)
  {
    forall x: nat | x < size ensures Used(Write(d, table, blk), start, x) == Used(d, start, x) {
      BitmapBelow(start, meta, size, x);
    }
    forall x | x in own[b := u] ensures BlockUsed(Write(d, table, blk), start, meta, size, x) {
      assert BlockUsed(d, start, meta, size, x);
    }
  }

  lemma Offset(base: nat, offset: nat)
    requires base % BPB == 0 && offset < BPB
    ensures (base + offset) / BPB == base / BPB && (base + offset) % BPB == offset
  {
  }

  lemma AllocKeeps(own: Uses, d: Disk, view: map<nat, Inode>, start: nat, meta: nat, size: nat, b: nat)
    requires MapOk(own, d, view) && BitsOk(own, d, start, meta, size) && start + size / BPB < meta && b < size
             && !Used(d, start, b)
    ensures b >= meta && b !in own
    ensures var d' := Write(Mark(d, start, b, true), b, ZeroBytes(BSIZE));
            && MapOk(own, d', view) && BitsOk(own, d', start, meta, size)
            && (forall x: nat {:trigger Used(d', start, x)} :: x < size ==>
                  Used(d', start, x) == (x == b || Used(d, start, x)))
  {
    assert !BlockUsed(d, start, meta, size, b);
    BitmapBelow(start, meta, size, b);
    var m := Mark(d, start, b, true);
    var d' := Write(m, b, ZeroBytes(BSIZE));
    forall x | x in own ensures x != start + b / BPB { assert BlockUsed(d, start, meta, size, x); }
    MetaWrite(own, d, view, meta, start + b / BPB, MarkIn(At(d, start + b / BPB), b % BPB, true));
    MetaWrite(own, m, view, meta, b, ZeroBytes(BSIZE));
    forall x: nat | x < size || x < meta ensures Used(d', start, x) == (x == b || Used(d, start, x)) {
      MarkBits(d, start, b, true, x);
      if x < size { BitmapBelow(start, meta, size, x); }
    }
    forall x | x in own ensures BlockUsed(d', start, meta, size, x) { assert BlockUsed(d, start, meta, size, x); }
  }

  // ---- What itrunc leaves ----

  /** The blocks in the slots of the leaves that the first `n` slots of `blk` lead to. */
  ghost function LeafSet(d: Disk, blk: Block, n: nat): set<nat>
    requires n <= WORDS
  {
    if n == 0 then {}
        else LeafSet(d, blk, n - 1) + if Word(blk, n - 1) != 0 then WordSetOf(At(d, Word(blk, n - 1)), WORDS) else {}
  }

  /** The double-indirect block, its leaves and their data. */
  ghost function DoubleBlocks(d: Disk, addrs: seq<nat>): set<nat>
    requires |addrs| == NDIRECT + 2
  {
    var double := addrs[NDIRECT + 1];
    if double == 0 then {} else {double} + WordSetOf(At(d, double), WORDS) + LeafSet(d, At(d, double), WORDS)
  }

  /**
    Of the blocks that the slots of the inode lead to, those of the direct and indirect part are free and all
    others stay marked.  So the whole file is given back if and only if the double-indirect slot was empty.
  */
  ghost predicate Leaves(d0: Disk, addrs: seq<nat>, d: Disk, start: nat, size: nat) {
    && |addrs| == NDIRECT + 2
    && (forall b :: b in FileBlocks(d0, addrs) ==> b < size && !Used(d, start, b))
    && (forall b :: b in DoubleBlocks(d0, addrs) ==> b < size && Used(d, start, b))
    && ((forall b :: b in FileBlocks(d0, addrs) + DoubleBlocks(d0, addrs) ==> !Used(d, start, b)) <==>
          addrs[NDIRECT + 1] == 0)
  }

  lemma TruncLeaves(own: Uses, d0: Disk, d: Disk, start: nat, meta: nat, size: nat, view: map<nat, Inode>, inum: nat)
    requires MapOk(own, d0, view) && BitsOk(own, d0, start, meta, size) && inum in view
             && |view[inum].addrs| == NDIRECT + 2
    requires Cleared(d0, d, start, size, FileBlocks(d0, view[inum].addrs))
    ensures Leaves(d0, view[inum].addrs, d, start, size)
    ensures FreeCount(d, start, size) == FreeCount(d0, start, size) + |FileBlocks(d0, view[inum].addrs)|
  {
    var addrs := view[inum].addrs;
    forall b | b in FileBlocks(d0, addrs) ensures b < size && Used(d0, start, b) {
      InFileBlocks(own, d0, view, inum, b);
      assert BlockUsed(d0, start, meta, size, b);
    }
    FreeReturned(d0, d, start, size, FileBlocks(d0, addrs));
    forall b | b in DoubleBlocks(d0, addrs) ensures b < size && Used(d0, start, b) && b !in FileBlocks(d0, addrs) {
      InDoubleBlocks(own, d0, view, inum, b);
      assert BlockUsed(d0, start, meta, size, b);
      if b in FileBlocks(d0, addrs) { InFileBlocks(own, d0, view, inum, b); }
    }
    DoubleLeft(d0, addrs, d, start, size);
  }

  lemma DoubleLeft(d0: Disk, addrs: seq<nat>, d: Disk, start: nat, size: nat)
    requires |addrs| == NDIRECT + 2 && Cleared(d0, d, start, size, FileBlocks(d0, addrs))
    requires forall b :: b in FileBlocks(d0, addrs) ==> b < size
    requires forall b :: b in DoubleBlocks(d0, addrs) ==> b < size && Used(d0, start, b) && b !in FileBlocks(d0, addrs)
    ensures Leaves(d0, addrs, d, start, size)
  {
    if addrs[NDIRECT + 1] != 0 {
      assert addrs[NDIRECT + 1] in DoubleBlocks(d0, addrs);
      assert Used(d, start, addrs[NDIRECT + 1]);
    }
  }

  /** An empty double-indirect block is in no block map of data, and still it is not given back. */
  lemma EmptyDoubleStays(d0: Disk, addrs: seq<nat>, d: Disk, start: nat, size: nat)
    requires Leaves(d0, addrs, d, start, size) && addrs[NDIRECT + 1] != 0
             && At(d0, addrs[NDIRECT + 1]) == ZeroBytes(BSIZE)
    ensures forall f: nat {:trigger Find(d0, addrs, f)} :: NDIRECT + WORDS <= f < MAXFILE ==> Find(d0, addrs, f) == 0
    ensures Used(d, start, addrs[NDIRECT + 1])
  {
    forall f: nat | NDIRECT + WORDS <= f < MAXFILE ensures Find(d0, addrs, f) == 0 { ZeroWords(LeafOf(f)); }
    assert addrs[NDIRECT + 1] in DoubleBlocks(d0, addrs);
  }

  lemma InDoubleBlocks(own: Uses, d: Disk, view: map<nat, Inode>, inum: nat, x: nat)
    requires MapOk(own, d, view) && inum in view && |view[inum].addrs| == NDIRECT + 2
             && x in DoubleBlocks(d, view[inum].addrs)
    ensures x in own && !TruncUse(own[x], inum)
  {
    var double := view[inum].addrs[NDIRECT + 1];
    assert InodeOk(own, inum, view[inum].addrs);
    assert Points(own, double, AddrUse(inum, NDIRECT + 1)) && BlockOk(own, own[double], At(d, double));
    if x in WordSetOf(At(d, double), WORDS) {
      InTableSet(own, Dind(inum), At(d, double), WORDS, x);
    } else if x in LeafSet(d, At(d, double), WORDS) {
      InLeafSet(own, d, view, inum, At(d, double), WORDS, x);
    }
  }

  lemma {:induction false} InTableSet(own: Uses, u: Use, blk: Block, n: nat, x: nat)
    requires BlockOk(own, u, blk) && (u.Dind? || u.Leaf?) && n <= WORDS && x in WordSetOf(blk, n)
    ensures x in own && !TruncUse(own[x], u.inum)
  {
    assert Points(own, Word(blk, n - 1), SlotUse(u, n - 1));
    if x in WordSetOf(blk, n - 1) { InTableSet(own, u, blk, n - 1, x); }
  }

  lemma {:induction false} InLeafSet(own: Uses, d: Disk, view: map<nat, Inode>, inum: nat, blk: Block, n: nat, x: nat)
    requires MapOk(own, d, view) && BlockOk(own, Dind(inum), blk) && n <= WORDS && x in LeafSet(d, blk, n)
    ensures x in own && !TruncUse(own[x], inum)
  {
    var leaf := Word(blk, n - 1);
    assert Points(own, leaf, SlotUse(Dind(inum), n - 1));
    if x in LeafSet(d, blk, n - 1) {
      InLeafSet(own, d, view, inum, blk, n - 1, x);
    } else {
      assert BlockOk(own, own[leaf], At(d, leaf));
      InTableSet(own, own[leaf], At(d, leaf), WORDS, x);
    }
  }

  /** The direct and indirect part of the map is empty afterwards, the rest is as it was. */
  ghost predicate CutShort(d0: Disk, addrs: seq<nat>, d: Disk, addrs': seq<nat>) {
    && |addrs| == |addrs'| == NDIRECT + 2
    && forall f: nat {:trigger Find(d, addrs', f)} :: f < MAXFILE ==>
         Find(d, addrs', f) == if f < NDIRECT + WORDS then 0 else Find(d0, addrs, f)
  }

  lemma TruncFinds(own: Uses, d0: Disk, d: Disk, view: map<nat, Inode>, inum: nat)
    requires MapOk(own, d0, view) && inum in view && |view[inum].addrs| == NDIRECT + 2
    requires forall b :: b in own ==> At(d, b) == At(d0, b)
    ensures CutShort(d0, view[inum].addrs, d, Truncated(view[inum]).addrs)
  {
    var addrs, addrs' := view[inum].addrs, Truncated(view[inum]).addrs;
    forall f: nat | f < MAXFILE ensures Find(d, addrs', f) == if f < NDIRECT + WORDS then 0 else Find(d0, addrs, f) {
      assert InodeOk(own, inum, addrs);
      if NDIRECT + WORDS <= f { TableUse(own, d0, view, addrs[NDIRECT + 1], LeafOf(f)); }
    }
  }
}
