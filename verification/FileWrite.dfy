/**
  `writei` (kernel/src/fs.rs).  Bytes for a direct block, or for a block that is mapped already, get into the
  file; bytes for an indirect block that is mapped by the call itself are lost, and the file has zeros there.
  No other file changes.
*/
module FileWrite {
  import opened Prelude
  import opened FsLayout
  import opened BlockMap
  import opened Bitmap
  import opened KernelFs

  /** `bmap` returns the block it maps for byte `x`. */
  predicate Lands(d: Disk, addrs: seq<nat>, x: nat)
    requires |addrs| == NDIRECT + 2
  {
    x / BSIZE < NDIRECT || Find(d, addrs, x / BSIZE) != 0
  }

  /** Byte `x` is not in a hole of the double-indirect part. */
  predicate Placed(d: Disk, addrs: seq<nat>, x: nat)
    requires |addrs| == NDIRECT + 2
  {
    x / BSIZE < NDIRECT + WORDS || Find(d, addrs, x / BSIZE) != 0
  }

  ghost predicate AllPlaced(d: Disk, addrs: seq<nat>, offset: nat, end: nat) {
    |addrs| == NDIRECT + 2 && forall x: nat {:trigger Placed(d, addrs, x)} :: offset <= x < end ==> Placed(d, addrs, x)
  }

  /** What a write of `src` to a file with these slots gets into the file. */
  ghost function Stored(d: Disk, addrs: seq<nat>, offset: nat, src: seq<Byte>): (r: seq<Byte>)
    requires |addrs| == NDIRECT + 2
    ensures |r| == |src|
  {
    seq(|src|, k requires 0 <= k < |src| => if Lands(d, addrs, offset + k) then src[k] else 0)
  }

  /** The file becomes what was asked for if and only if every byte that is lost is zero. */
  lemma StoredIsAsked(d: Disk, addrs: seq<nat>, file: seq<Byte>, offset: nat, src: seq<Byte>)
    requires |addrs| == NDIRECT + 2 && offset <= |file|
    ensures Over(file, offset, Stored(d, addrs, offset, src)) == Over(file, offset, src)
            <==> forall k: nat {:trigger src[k]} :: k < |src| ==> Lands(d, addrs, offset + k) || src[k] == 0
  {
    var stored := Stored(d, addrs, offset, src);
    if forall k: nat {:trigger src[k]} :: k < |src| ==> Lands(d, addrs, offset + k) || src[k] == 0 {
      assert stored == src;
    } else {
      var k: nat :| k < |src| && !Lands(d, addrs, offset + k) && src[k] != 0;
      assert Over(file, offset, stored)[offset + k] == stored[k] != src[k] == Over(file, offset, src)[offset + k];
    }
  }

  /** From `offset` to `end`, the same bytes land as before. */
  ghost predicate SameLanding(d: Disk, addrs: seq<nat>, d': Disk, addrs': seq<nat>, offset: nat, end: nat) {
    && |addrs| == |addrs'| == NDIRECT + 2
    && forall x: nat {:trigger Lands(d', addrs', x)} :: offset <= x < end ==>
          (Lands(d', addrs', x) <==> Lands(d, addrs, x))
  }

  // ---- The blocks a write needs ----

  /** The blocks from `lo` to `hi` of a file that are not mapped. */
  function Holes(d: Disk, addrs: seq<nat>, lo: nat, hi: nat): nat
    requires |addrs| == NDIRECT + 2
    decreases hi - lo
  {
    if lo >= hi then 0 else Missing(Find(d, addrs, lo)) + Holes(d, addrs, lo + 1, hi)
  }

  /**
    The blocks that a write from `offset` to `end` takes: one for each hole, and the indirect block if it is missing.
  */
  function WriteNeeds(d: Disk, addrs: seq<nat>, offset: nat, end: nat): nat
    requires |addrs| == NDIRECT + 2
  {
    if offset >= end then 0 else BlocksNeeded(d, addrs, offset / BSIZE, (end - 1) / BSIZE + 1)
  }

  function BlocksNeeded(d: Disk, addrs: seq<nat>, lo: nat, hi: nat): nat
    requires |addrs| == NDIRECT + 2
  {
    Holes(d, addrs, lo, hi) + if lo < hi && lo < NDIRECT + WORDS && NDIRECT < hi then Missing(addrs[NDIRECT]) else 0
  }

  lemma {:induction false} SameHoles(d: Disk, addrs: seq<nat>, d': Disk, addrs': seq<nat>, lo: nat, hi: nat)
    requires |addrs| == |addrs'| == NDIRECT + 2
    requires forall f: nat {:trigger Find(d', addrs', f)} :: lo <= f < hi ==>
               (Find(d', addrs', f) == 0 <==> Find(d, addrs, f) == 0)
    ensures Holes(d', addrs', lo, hi) == Holes(d, addrs, lo, hi)
    decreases hi - lo
  {
    if lo < hi { SameHoles(d, addrs, d', addrs', lo + 1, hi); }
  }

  /** Behind block `lo`, mapping it leaves the holes as they are. */
  lemma HolesLater(d0: Disk, a0: seq<nat>, d1: Disk, a1: seq<nat>, d2: Disk, lo: nat, hi: nat)
    requires Extends(d0, a0, d1, a1) && OnlyMaps(d0, a0, d1, a1, lo) && SameFinds(d1, d2, a1) && lo < hi <= MAXFILE
    requires forall f: nat {:trigger Find(d0, a0, f)} :: lo <= f < hi ==> f < NDIRECT + WORDS || Find(d0, a0, f) != 0
    ensures Holes(d2, a1, lo + 1, hi) == Holes(d0, a0, lo + 1, hi)
  {
    forall f: nat | lo + 1 <= f < hi ensures Find(d2, a1, f) == 0 <==> Find(d0, a0, f) == 0 {
      assert f < NDIRECT + WORDS || Find(d0, a0, f) != 0;
      assert Find(d2, a1, f) == Find(d1, a1, f);
    }
    SameHoles(d0, a0, d2, a1, lo + 1, hi);
  }

  /** What is needed from block `lo` on is what `bmap` takes for it and what is needed after that. */
  lemma NeedsNext(d0: Disk, a0: seq<nat>, d1: Disk, a1: seq<nat>, d2: Disk, lo: nat, hi: nat)
    requires Extends(d0, a0, d1, a1) && OnlyMaps(d0, a0, d1, a1, lo) && SameFinds(d1, d2, a1) && lo < hi <= MAXFILE
    requires NDIRECT <= lo < NDIRECT + WORDS ==> Find(d1, a1, lo) != 0
    requires forall f: nat {:trigger Find(d0, a0, f)} :: lo <= f < hi ==> f < NDIRECT + WORDS || Find(d0, a0, f) != 0
    ensures BlocksNeeded(d0, a0, lo, hi) == Needed(d0, a0, lo) + BlocksNeeded(d2, a1, lo + 1, hi)
  {
    HolesLater(d0, a0, d1, a1, d2, lo, hi);
    assert lo < NDIRECT + WORDS || Find(d0, a0, lo) != 0;
  }

  lemma NeedsFirst(d: Disk, addrs: seq<nat>, off: nat, end: nat)
    requires |addrs| == NDIRECT + 2 && off < end && off / BSIZE < MAXFILE && Placed(d, addrs, off)
    ensures Needed(d, addrs, off / BSIZE) <= WriteNeeds(d, addrs, off, end)
  {
    assert off / BSIZE <= (end - 1) / BSIZE;
  }

  lemma NeedsLeft(d0: Disk, a0: seq<nat>, d1: Disk, a1: seq<nat>, d2: Disk, off: nat, n: nat, end: nat)
    requires Extends(d0, a0, d1, a1) && OnlyMaps(d0, a0, d1, a1, off / BSIZE) && SameFinds(d1, d2, a1)
             && AllPlaced(d0, a0, off, end)
    requires NDIRECT <= off / BSIZE < NDIRECT + WORDS ==> Find(d1, a1, off / BSIZE) != 0
    requires 0 < n && off % BSIZE + n <= BSIZE && off + n <= end <= MAXFILE * BSIZE
             && (off + n == end || (off + n) % BSIZE == 0)
    ensures off / BSIZE < MAXFILE
    ensures WriteNeeds(d0, a0, off, end) == Needed(d0, a0, off / BSIZE) + WriteNeeds(d2, a1, off + n, end)
  {
    var lo, hi := off / BSIZE, (end - 1) / BSIZE + 1;
    BlockIndex(end - 1, end);
    forall f: nat | lo <= f < hi ensures f < NDIRECT + WORDS || Find(d0, a0, f) != 0 {
      assert Placed(d0, a0, if f == lo then off else f * BSIZE);
    }
    NeedsNext(d0, a0, d1, a1, d2, lo, hi);
    if off + n < end { assert (off + n) / BSIZE == lo + 1; }
  }

  /** What file `n` holds, it still holds. */
  ghost predicate FileKept(d: Disk, inodes: map<nat, Inode>, d': Disk, inodes': map<nat, Inode>, n: nat) {
    && n in inodes && n in inodes' && inodes'[n] == inodes[n]
    && forall bytes: seq<Byte> :: Holds(d, inodes[n].addrs, bytes) ==> Holds(d', inodes[n].addrs, bytes)
  }

  ghost predicate OthersKept(d: Disk, inodes: map<nat, Inode>, d': Disk, inodes': map<nat, Inode>, inum: nat) {
    && inodes'.Keys == inodes.Keys
    && forall n {:trigger FileKept(d, inodes, d', inodes', n)} :: n in inodes && n != inum ==>
          FileKept(d, inodes, d', inodes', n)
  }

  lemma OthersTrans(d0: Disk, i0: map<nat, Inode>, d1: Disk, i1: map<nat, Inode>, d2: Disk,
                    i2: map<nat, Inode>, inum: nat)
    requires OthersKept(d0, i0, d1, i1, inum) && OthersKept(d1, i1, d2, i2, inum)
    ensures OthersKept(d0, i0, d2, i2, inum)
  {
    forall n | n in i0 && n != inum ensures FileKept(d0, i0, d2, i2, n) {
      assert FileKept(d0, i0, d1, i1, n) && FileKept(d1, i1, d2, i2, n);
    }
  }

  lemma OthersMapped(own: Uses, d: Disk, inodes: map<nat, Inode>, d': Disk, inodes': map<nat, Inode>, inum: nat)
    requires MapOk(own, d, inodes) && Kept(own, d, d', 0) && SameButSlots(inodes, inodes', inum)
    ensures OthersKept(d, inodes, d', inodes', inum)
  {
    forall n | n in inodes && n != inum ensures FileKept(d, inodes, d', inodes', n) {
      forall bytes: seq<Byte> | Holds(d, inodes[n].addrs, bytes) ensures Holds(d', inodes[n].addrs, bytes) {
        HoldsKept(own, d, d', 0, inodes, n, bytes);
      }
    }
  }

  lemma OthersWritten(own: Uses, d: Disk, inodes: map<nat, Inode>, bn: nat, blk: Block, inum: nat)
    requires MapOk(own, d, inodes) && bn in own && own[bn].Data? && own[bn].inum == inum
    ensures OthersKept(d, inodes, Write(d, bn, blk), inodes, inum)
  {
    forall n | n in inodes && n != inum ensures FileKept(d, inodes, Write(d, bn, blk), inodes, n) {
      forall bytes: seq<Byte> | Holds(d, inodes[n].addrs, bytes)
        ensures Holds(Write(d, bn, blk), inodes[n].addrs, bytes) {
        WriteOthers(own, d, inodes, bn, blk, n, bytes);
      }
    }
  }

  /** Writing a data block leaves the bitmap alone. */
  lemma WriteBits(own: Uses, d: Disk, start: nat, meta: nat, size: nat, bn: nat, blk: Block)
    requires BitsOk(own, d, start, meta, size) && start + size / BPB < meta <= size && bn in own
    ensures BitsOk(own, Write(d, bn, blk), start, meta, size) && SameBits(d, Write(d, bn, blk), start, size)
  {
    assert BlockUsed(d, start, meta, size, bn);
    forall x: nat | x < size ensures Used(Write(d, bn, blk), start, x) == Used(d, start, x) {
      BitmapBelow(start, meta, size, x);
    }
    forall x | x in own ensures BlockUsed(Write(d, bn, blk), start, meta, size, x) {
      assert BlockUsed(d, start, meta, size, x);
    }
  }

  /** The free blocks that a write from `off` to `end` leaves over; negative if there are too few. */
  ghost function Spare(d: Disk, addrs: seq<nat>, off: nat, end: nat, start: nat, size: nat): int
    requires |addrs| == NDIRECT + 2
  {
    FreeCount(d, start, size) - WriteNeeds(d, addrs, off, end)
  }

  /** A chunk takes exactly the blocks that its own part of the range needs. */
  lemma SpareLeft(d0: Disk, a0: seq<nat>, d1: Disk, a1: seq<nat>, d2: Disk, off: nat, n: nat, end: nat,
                  start: nat, size: nat)
    requires Extends(d0, a0, d1, a1) && OnlyMaps(d0, a0, d1, a1, off / BSIZE) && SameFinds(d1, d2, a1)
             && AllPlaced(d0, a0, off, end)
    requires NDIRECT <= off / BSIZE < NDIRECT + WORDS ==> Find(d1, a1, off / BSIZE) != 0
    requires 0 < n && off % BSIZE + n <= BSIZE && off + n <= end <= MAXFILE * BSIZE
             && (off + n == end || (off + n) % BSIZE == 0)
    requires off / BSIZE < MAXFILE && Spends(d0, d1, start, size, true, Needed(d0, a0, off / BSIZE))
    requires FreeCount(d2, start, size) == FreeCount(d1, start, size)
    ensures Spare(d2, a1, off + n, end, start, size) == Spare(d0, a0, off, end, start, size)
  {
    NeedsLeft(d0, a0, d1, a1, d2, off, n, end);
  }

  /** The bytes go into block `bn`: the one that is mapped, or block 0. */
  method PutChunk(fs: Fs, inum: nat, off: nat, part: seq<Byte>, bn: nat, ghost bytes: seq<Byte>, ghost lands: bool)
    requires fs.Valid() && inum in fs.inodes && Holds(fs.disk, fs.inodes[inum].addrs, bytes) && off <= |bytes|
    requires off % BSIZE + |part| <= BSIZE && off + |part| <= MAXFILE * BSIZE && off / BSIZE < MAXFILE
    requires Find(fs.disk, fs.inodes[inum].addrs, off / BSIZE) != 0
    requires if lands then bn == Find(fs.disk, fs.inodes[inum].addrs, off / BSIZE)
             else bn == 0 && At(fs.disk, Find(fs.disk, fs.inodes[inum].addrs, off / BSIZE)) == ZeroBytes(BSIZE)
    modifies fs`disk
    ensures fs.Valid() && OthersKept(old(fs.disk), fs.inodes, fs.disk, fs.inodes, inum)
    ensures Holds(fs.disk, fs.inodes[inum].addrs, Over(bytes, off, if lands then part else ZeroBytes(|part|)))
    ensures SameFinds(old(fs.disk), fs.disk, fs.inodes[inum].addrs)
    ensures FreeCount(fs.disk, fs.start, fs.size) == FreeCount(old(fs.disk), fs.start, fs.size)
  {
    var buf := Splice(At(fs.disk, bn), off % BSIZE, part);
    if lands {
      Landed(fs.own, fs.disk, fs.inodes, fs.start, fs.meta, fs.size, inum, bytes, off, part);
    } else {
      Lost(fs.own, fs.disk, fs.inodes, fs.start, fs.meta, fs.size, inum, bytes, off, |part|, buf);
    }
    fs.disk := Write(fs.disk, bn, buf);
  }

  /** One round of the loop of `writei`. */
  method WriteChunk(fs: Fs, inum: nat, off: nat, part: seq<Byte>, ghost bytes: seq<Byte>, ghost end: nat)
    returns (panicked: bool)
    requires fs.Valid() && inum in fs.inodes && Holds(fs.disk, fs.inodes[inum].addrs, bytes) && off <= |bytes|
             && 0 < |part|
    requires off % BSIZE + |part| <= BSIZE && off + |part| <= end <= MAXFILE * BSIZE
             && (off + |part| == end || (off + |part|) % BSIZE == 0)
    requires AllPlaced(fs.disk, fs.inodes[inum].addrs, off, end)
    modifies fs`disk, fs`inodes, fs`own
    ensures !panicked ==> fs.Valid() && SameButSlots(old(fs.inodes), fs.inodes, inum)
    ensures var spare := Spare(old(fs.disk), old(fs.inodes)[inum].addrs, off, end, fs.start, fs.size);
            if panicked then spare < 0
                else Spare(fs.disk, fs.inodes[inum].addrs, off + |part|, end, fs.start, fs.size) == spare
    ensures !panicked ==>
              var landed := if Lands(old(fs.disk), old(fs.inodes)[inum].addrs, off) then part else ZeroBytes(|part|);
              Holds(fs.disk, fs.inodes[inum].addrs, Over(bytes, off, landed))
    ensures !panicked ==> OthersKept(old(fs.disk), old(fs.inodes), fs.disk, fs.inodes, inum)
    ensures !panicked ==> AllPlaced(fs.disk, fs.inodes[inum].addrs, off + |part|, end)
    ensures !panicked ==>
              SameLanding(old(fs.disk), old(fs.inodes)[inum].addrs, fs.disk, fs.inodes[inum].addrs, off + |part|, end)
  {
    ghost var d0, a0, n := fs.disk, fs.inodes[inum].addrs, |part|;
    assert Placed(d0, a0, off);
    BlockIndex(off, off + n);
    NeedsFirst(d0, a0, off, end);
    var ok, bn := fs.Bmap(inum, off / BSIZE);
    if !ok {
      return true;
    }
    ghost var d1, a1 := fs.disk, fs.inodes[inum].addrs;
    HoldsExtends(d0, a0, d1, a1, bytes);
    OthersMapped(old(fs.own), d0, old(fs.inodes), d1, fs.inodes, inum);
    PutChunk(fs, inum, off, part, bn, bytes, Lands(d0, a0, off));
    OthersTrans(d0, old(fs.inodes), d1, fs.inodes, fs.disk, fs.inodes, inum);
    SpareLeft(d0, a0, d1, a1, fs.disk, off, n, end, fs.start, fs.size);
    LaterPlaced(d0, a0, d1, a1, fs.disk, off, n, end);
    panicked := false;
  }

  /** The slots that count lead to the same blocks. */
  ghost predicate SameFinds(d: Disk, d': Disk, addrs: seq<nat>) {
    && |addrs| == NDIRECT + 2
    && forall f: nat {:trigger Find(d', addrs, f)} :: f < MAXFILE && (f < NDIRECT + WORDS || Find(d, addrs, f) != 0) ==>
         Find(d', addrs, f) == Find(d, addrs, f)
  }

  /** Bytes written to the mapped block. */
  lemma Landed(own: Uses, d: Disk, view: map<nat, Inode>, start: nat, meta: nat, size: nat, inum: nat, bytes: seq<Byte>,
               off: nat, part: seq<Byte>)
    requires MapOk(own, d, view) && BitsOk(own, d, start, meta, size) && start + size / BPB < meta <= size
             && inum in view
    requires Holds(d, view[inum].addrs, bytes) && off <= |bytes|
    requires off % BSIZE + |part| <= BSIZE && off + |part| <= MAXFILE * BSIZE && off / BSIZE < MAXFILE
    requires Find(d, view[inum].addrs, off / BSIZE) != 0
    ensures var bn := Find(d, view[inum].addrs, off / BSIZE);
            var d' := Write(d, bn, Splice(At(d, bn), off % BSIZE, part));
            && MapOk(own, d', view) && BitsOk(own, d', start, meta, size) && OthersKept(d, view, d', view, inum)
            && Holds(d', view[inum].addrs, Over(bytes, off, part)) && SameFinds(d, d', view[inum].addrs)
            && FreeCount(d', start, size) == FreeCount(d, start, size)
  {
    var bn := Find(d, view[inum].addrs, off / BSIZE);
    var buf := Splice(At(d, bn), off % BSIZE, part);
    FindUse(own, d, view, inum, off / BSIZE);
    WriteAt(own, d, view, inum, bytes, off, part);
    WriteKeepsMap(own, d, view, bn, buf);
    WriteBits(own, d, start, meta, size, bn, buf);
    FreeSame(d, Write(d, bn, buf), start, size);
    OthersWritten(own, d, view, bn, buf, inum);
    forall f: nat | f < MAXFILE ensures Find(Write(d, bn, buf), view[inum].addrs, f) == Find(d, view[inum].addrs, f) {
      FindSame(own, d, view, bn, buf, inum, f);
    }
  }

  /** Bytes written to block 0, while the mapped block has only zeros. */
  lemma Lost(own: Uses, d: Disk, view: map<nat, Inode>, start: nat, meta: nat, size: nat, inum: nat, bytes: seq<Byte>,
             off: nat, n: nat, buf: Block)
    requires MapOk(own, d, view) && BitsOk(own, d, start, meta, size) && 0 < start && start + size / BPB < meta <= size
             && inum in view
    requires Holds(d, view[inum].addrs, bytes) && off <= |bytes|
    requires off % BSIZE + n <= BSIZE && off + n <= MAXFILE * BSIZE && off / BSIZE < MAXFILE
    requires var bn := Find(d, view[inum].addrs, off / BSIZE); bn != 0 && At(d, bn) == ZeroBytes(BSIZE)
    ensures var d' := Write(d, 0, buf);
            && MapOk(own, d', view) && BitsOk(own, d', start, meta, size) && OthersKept(d, view, d', view, inum)
            && Holds(d', view[inum].addrs, Over(bytes, off, ZeroBytes(n))) && SameFinds(d, d', view[inum].addrs)
            && FreeCount(d', start, size) == FreeCount(d, start, size)
  {
    var d', all, addrs := Write(d, 0, buf), Over(bytes, off, ZeroBytes(n)), view[inum].addrs;
    BlockZero(own, d, view, start, meta, size, buf);
    FreeSame(d, d', start, size);
    OthersMapped(own, d, view, d', view, inum);
    forall k: nat | k < |all| ensures HoldsAt(d, addrs, k, all[k]) {
      if off <= k < off + n { Within(off, k - off); } else { assert HoldsAt(d, addrs, k, bytes[k]); }
    }
    HoldsKept(own, d, d', 0, view, inum, all);
    forall f: nat | f < MAXFILE && Find(d, addrs, f) != 0 ensures Find(d', addrs, f) == Find(d, addrs, f) {
      FindKept(own, d, d', 0, view, inum, f);
    }
  }

  lemma LaterPlaced(d0: Disk, a0: seq<nat>, d1: Disk, a1: seq<nat>, d2: Disk, off: nat, n: nat, end: nat)
    requires Extends(d0, a0, d1, a1) && OnlyMaps(d0, a0, d1, a1, off / BSIZE) && SameFinds(d1, d2, a1)
             && AllPlaced(d0, a0, off, end)
    requires 0 < n && off % BSIZE + n <= BSIZE && off + n <= end <= MAXFILE * BSIZE
             && (off + n == end || (off + n) % BSIZE == 0)
    ensures AllPlaced(d2, a1, off + n, end) && SameLanding(d0, a0, d2, a1, off + n, end)
  {
    forall x: nat | off + n <= x < end ensures Placed(d2, a1, x) && (Lands(d2, a1, x) <==> Lands(d0, a0, x)) {
      assert Placed(d0, a0, x);
      BlockIndex(x, end);
      NextBlock(off, n, x);
      assert Find(d2, a1, x / BSIZE) == Find(d1, a1, x / BSIZE);
    }
  }

  lemma NextBlock(off: nat, n: nat, x: nat)
    requires 0 < n && (off + n) % BSIZE == 0 && off + n <= x
    ensures x / BSIZE != off / BSIZE
  {
  }

  /** The bytes of one block land together. */
  lemma StoredChunk(d: Disk, addrs: seq<nat>, offset: nat, src: seq<Byte>, i: nat, n: nat)
    requires |addrs| == NDIRECT + 2 && i + n <= |src| && 0 < n && (offset + i) % BSIZE + n <= BSIZE
    ensures Stored(d, addrs, offset, src)[i..i + n] == if Lands(d, addrs, offset + i) then src[i..i + n]
            else ZeroBytes(n)
  {
    var all := Stored(d, addrs, offset, src);
    var part := if Lands(d, addrs, offset + i) then src[i..i + n] else ZeroBytes(n);
    forall k: nat | k < n ensures all[i + k] == part[k] {
      Within(offset + i, k);
      assert all[i + k] == if Lands(d, addrs, offset + (i + k)) then src[i + k] else 0;
      assert offset + (i + k) == offset + i + k;
    }
  }

  /** The first `i` bytes of `src` are written, to a disk that was `d0` with the inodes `inodes0`. */
  ghost predicate Written(d0: Disk, inodes0: map<nat, Inode>, d: Disk, inodes: map<nat, Inode>, inum: nat,
                          file: seq<Byte>, offset: nat, src: seq<Byte>, i: nat)
  {
    && inum in inodes0 && inum in inodes && |inodes0[inum].addrs| == NDIRECT + 2 && i <= |src| && offset <= |file|
    && inodes[inum] == inodes0[inum].(addrs := inodes[inum].addrs) && OthersKept(d0, inodes0, d, inodes, inum)
    && Holds(d, inodes[inum].addrs, Over(file, offset, Stored(d0, inodes0[inum].addrs, offset, src)[..i]))
    && AllPlaced(d, inodes[inum].addrs, offset + i, offset + |src|)
    && SameLanding(d0, inodes0[inum].addrs, d, inodes[inum].addrs, offset + i, offset + |src|)
  }

  /** One more chunk of `n` bytes, after others. */
  method WriteNext(fs: Fs, inum: nat, off: nat, src: seq<Byte>, i: nat, n: nat, ghost d0: Disk,
                   ghost inodes0: map<nat, Inode>, ghost file: seq<Byte>, ghost offset: nat,
                   ghost end: nat, ghost spare: int)
    returns (panicked: bool)
    requires fs.Valid() && Written(d0, inodes0, fs.disk, fs.inodes, inum, file, offset, src, i)
    requires off == offset + i && end == offset + |src| <= MAXFILE * BSIZE
    requires 0 < n && off % BSIZE + n <= BSIZE && off + n <= end && (off + n == end || (off + n) % BSIZE == 0)
    requires Spare(fs.disk, fs.inodes[inum].addrs, off, end, fs.start, fs.size) == spare
    modifies fs`disk, fs`inodes, fs`own
    ensures !panicked ==> fs.Valid() && Written(d0, inodes0, fs.disk, fs.inodes, inum, file, offset, src, i + n)
    ensures if panicked then spare < 0
            else Spare(fs.disk, fs.inodes[inum].addrs, off + n, end, fs.start, fs.size) == spare
  {
    ghost var a0 := inodes0[inum].addrs;
    ghost var stored := Stored(d0, a0, offset, src);
    StoredChunk(d0, a0, offset, src, i, n);
    OverTwice(file, offset, stored, i, n);
    assert Lands(fs.disk, fs.inodes[inum].addrs, off) == Lands(d0, a0, off);
    panicked := WriteChunk(fs, inum, off, src[i..i + n], Over(file, offset, stored[..i]), end);
    if !panicked {
      OthersTrans(d0, inodes0, old(fs.disk), old(fs.inodes), fs.disk, fs.inodes, inum);
      LandingTrans(d0, a0, old(fs.disk), old(fs.inodes)[inum].addrs, fs.disk, fs.inodes[inum].addrs, off, n, end);
    }
  }

  /** One round of the loop: what is left of the block at `off`, or of `src`. */
  method WriteRound(fs: Fs, inum: nat, off: nat, src: seq<Byte>, i: nat, ghost d0: Disk, ghost inodes0: map<nat, Inode>,
                    ghost file: seq<Byte>, ghost offset: nat, ghost end: nat, ghost spare: int)
    returns (panicked: bool, off': nat, i': nat)
    requires fs.Valid() && Written(d0, inodes0, fs.disk, fs.inodes, inum, file, offset, src, i)
    requires off == offset + i < end == offset + |src| <= MAXFILE * BSIZE
    requires Spare(fs.disk, fs.inodes[inum].addrs, off, end, fs.start, fs.size) == spare
    modifies fs`disk, fs`inodes, fs`own
    ensures i < i' <= |src| && off' == offset + i'
    ensures !panicked ==> fs.Valid() && Written(d0, inodes0, fs.disk, fs.inodes, inum, file, offset, src, i')
    ensures if panicked then spare < 0
            else Spare(fs.disk, fs.inodes[inum].addrs, off', end, fs.start, fs.size) == spare
  {
    var n := Min(|src| - i, BSIZE - off % BSIZE);
    ChunkEnd(off, n, end);
    panicked := WriteNext(fs, inum, off, src, i, n, d0, inodes0, file, offset, end, spare);
    off', i' := off + n, i + n;
  }

  /** The loop of `writei`. */
  method WriteLoop(fs: Fs, inum: nat, offset: nat, src: seq<Byte>, ghost file: seq<Byte>) returns (panicked: bool)
    requires fs.Valid() && inum in fs.inodes && Holds(fs.disk, fs.inodes[inum].addrs, file) && offset <= |file|
    requires AllPlaced(fs.disk, fs.inodes[inum].addrs, offset, offset + |src|) && offset + |src| <= MAXFILE * BSIZE
    modifies fs`disk, fs`inodes, fs`own
    ensures !panicked ==>
              fs.Valid() && Written(old(fs.disk), old(fs.inodes), fs.disk, fs.inodes, inum, file, offset, src, |src|)
    ensures var spare := Spare(old(fs.disk), old(fs.inodes)[inum].addrs, offset, offset + |src|, fs.start, fs.size);
            if panicked then spare < 0 else FreeCount(fs.disk, fs.start, fs.size) == spare
  {
    var off, i := offset, 0;
    ghost var d0, inodes0, end := fs.disk, fs.inodes, offset + |src|;
    ghost var spare := Spare(d0, inodes0[inum].addrs, offset, end, fs.start, fs.size);
    NothingWritten(d0, inodes0, inum, file, offset, src);
    while i < |src|
      invariant i <= |src| && off == offset + i && fs.Valid()
      invariant Written(d0, inodes0, fs.disk, fs.inodes, inum, file, offset, src, i)
      invariant Spare(fs.disk, fs.inodes[inum].addrs, off, end, fs.start, fs.size) == spare
    {
      panicked, off, i := WriteRound(fs, inum, off, src, i, d0, inodes0, file, offset, end, spare);
      if panicked {
        return true;
      }
    }
    panicked := false;
  }

  lemma NothingWritten(d: Disk, inodes: map<nat, Inode>, inum: nat, file: seq<Byte>, offset: nat, src: seq<Byte>)
    requires inum in inodes && Holds(d, inodes[inum].addrs, file) && offset <= |file|
    requires AllPlaced(d, inodes[inum].addrs, offset, offset + |src|)
    ensures Written(d, inodes, d, inodes, inum, file, offset, src, 0)
  {
    NoOthers(d, inodes, inum);
    assert Over(file, offset, Stored(d, inodes[inum].addrs, offset, src)[..0]) == file;
  }

  lemma AllWritten(d0: Disk, inodes0: map<nat, Inode>, d: Disk, inodes: map<nat, Inode>, inum: nat, file: seq<Byte>,
                   offset: nat, src: seq<Byte>)
    requires Written(d0, inodes0, d, inodes, inum, file, offset, src, |src|)
    ensures Holds(d, inodes[inum].addrs, Over(file, offset, Stored(d0, inodes0[inum].addrs, offset, src)))
  {
    var stored := Stored(d0, inodes0[inum].addrs, offset, src);
    assert stored[..|src|] == stored;
  }

  lemma ChunkEnd(off: nat, n: nat, end: nat)
    requires off < end && n == Min(end - off, BSIZE - off % BSIZE)
    ensures 0 < n && off % BSIZE + n <= BSIZE && off + n <= end && (off + n == end || (off + n) % BSIZE == 0)
  {
  }

  lemma LandingTrans(d0: Disk, a0: seq<nat>, d1: Disk, a1: seq<nat>, d2: Disk, a2: seq<nat>, off: nat, n: nat, end: nat)
    requires SameLanding(d0, a0, d1, a1, off, end) && SameLanding(d1, a1, d2, a2, off + n, end)
    ensures SameLanding(d0, a0, d2, a2, off + n, end)
  {
    forall x: nat | off + n <= x < end ensures Lands(d2, a2, x) <==> Lands(d0, a0, x) {
      assert Lands(d1, a1, x) == Lands(d0, a0, x);
    }
  }

  /** A range that `writei` does not refuse. */
  predicate Writable(file: seq<Byte>, offset: nat, end: nat) {
    offset <= |file| && end <= MAXFILE * BSIZE
  }

  /** A size that `writei` cannot record in 32 bits. */
  predicate TooLong(file: seq<Byte>, end: nat) {
    |file| < end && U32 <= end
  }

  /**
    `writei`.  It fails if and only if the range starts past the end of the file or ends past that of the largest one.
    It panics if and only if there are fewer free blocks than it needs, or the new size does not fit in 32 bits.
  */
  method WriteI(fs: Fs, inum: nat, offset: nat, src: seq<Byte>, ghost file: seq<Byte>)
    returns (panicked: bool, ok: bool)
    requires fs.Valid() && inum in fs.inodes && fs.inodes[inum].size == |file|
             && Holds(fs.disk, fs.inodes[inum].addrs, file)
    requires Writable(file, offset, offset + |src|) ==>
               AllPlaced(fs.disk, fs.inodes[inum].addrs, offset, offset + |src|)
    modifies fs`disk, fs`inodes, fs`own
    ensures var needs := WriteNeeds(old(fs.disk), old(fs.inodes)[inum].addrs, offset, offset + |src|);
            && (panicked <==>
                  Writable(file, offset, offset + |src|)
                      && (needs > FreeCount(old(fs.disk), fs.start, fs.size) || TooLong(file, offset + |src|)))
            && (!panicked && ok ==>
                  FreeCount(fs.disk, fs.start, fs.size) == FreeCount(old(fs.disk), fs.start, fs.size) - needs)
    ensures !panicked ==>
              fs.Valid() && (ok <==> Writable(file, offset, offset + |src|))
                  && OthersKept(old(fs.disk), old(fs.inodes), fs.disk, fs.inodes, inum)
    ensures !panicked && !ok ==> fs.disk == old(fs.disk) && fs.inodes == old(fs.inodes)
    ensures !panicked && ok ==>
              var after := Over(file, offset, Stored(old(fs.disk), old(fs.inodes)[inum].addrs, offset, src));
              inum in fs.inodes && fs.inodes[inum].size == |after| && Holds(fs.disk, fs.inodes[inum].addrs, after)
  {
    if offset > fs.inodes[inum].size || offset + |src| > MAXFILE * BSIZE {
      NoOthers(fs.disk, fs.inodes, inum);
      return false, false;
    }
    panicked := WriteLoop(fs, inum, offset, src, file);
    ok := !panicked;
    if ok { AllWritten(old(fs.disk), old(fs.inodes), fs.disk, fs.inodes, inum, file, offset, src); }
    if ok && offset + |src| > fs.inodes[inum].size {
      if offset + |src| >= U32 {
        return true, false;
      }
      ghost var inodes1 := fs.inodes;
      Resize(fs, inum, offset + |src|);
      OthersTrans(old(fs.disk), old(fs.inodes), fs.disk, inodes1, fs.disk, fs.inodes, inum);
    }
  }

  /** A range that starts in the file and has no hole in the double-indirect part is within the largest file. */
  lemma PlacedBound(d: Disk, addrs: seq<nat>, file: seq<Byte>, offset: nat, end: nat)
    requires Holds(d, addrs, file) && AllPlaced(d, addrs, offset, end)
    ensures offset <= |file| ==> end <= MAXFILE * BSIZE
  {
    assert !Placed(d, addrs, MAXFILE * BSIZE);
  }

  /** The end of `writei` for a file that has grown. */
  method Resize(fs: Fs, inum: nat, size: nat)
    requires fs.Valid() && inum in fs.inodes
    modifies fs`inodes
    ensures fs.Valid() && fs.inodes == old(fs.inodes)[inum := old(fs.inodes)[inum].(size := size)]
    ensures OthersKept(fs.disk, old(fs.inodes), fs.disk, fs.inodes, inum)
  {
    var ino := fs.inodes[inum].(size := size);
    SizeKeepsMap(fs.own, fs.disk, fs.inodes, inum, size);
    fs.inodes := With(fs.inodes, inum, ino);
  }

  lemma SizeKeepsMap(own: Uses, d: Disk, view: map<nat, Inode>, inum: nat, size: nat)
    requires MapOk(own, d, view) && inum in view
    ensures MapOk(own, d, With(view, inum, view[inum].(size := size)))
  {
    var view' := With(view, inum, view[inum].(size := size));
    forall n | n in view' ensures InodeOk(own, n, view'[n].addrs) {
      assert InodeOk(own, n, view[n].addrs);
    }
  }

  lemma NoOthers(d: Disk, inodes: map<nat, Inode>, inum: nat)
    ensures OthersKept(d, inodes, d, inodes, inum)
  {
  }

  lemma OverTwice(file: seq<Byte>, offset: nat, src: seq<Byte>, i: nat, n: nat)
    requires offset <= |file| && i + n <= |src|
    ensures offset + i <= |Over(file, offset, src[..i])|
    ensures Over(Over(file, offset, src[..i]), offset + i, src[i..i + n]) == Over(file, offset, src[..i + n])
  {
  }
}
