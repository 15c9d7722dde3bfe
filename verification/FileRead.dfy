/**
  `readi` (kernel/src/fs.rs).  A mapped block is read; a direct block that is missing is mapped and reads as zeros, and
  for a missing indirect block, which is mapped too, the bytes of block 0 are read.
*/
module FileRead {
  import opened Prelude
  import opened FsLayout
  import opened BlockMap
  import opened Bitmap
  import opened KernelFs
  import opened FileWrite

  /** What `readi` returns for byte `x` of the file with these slots. */
  function Seen(d: Disk, addrs: seq<nat>, x: nat): Byte
    requires |addrs| == NDIRECT + 2
  {
    var bn := Find(d, addrs, x / BSIZE);
    if bn == 0 && x / BSIZE < NDIRECT then 0 else At(d, bn)[x % BSIZE]
  }

  ghost predicate Sees(d: Disk, addrs: seq<nat>, offset: nat, bytes: seq<Byte>) {
    |addrs| == NDIRECT + 2 && forall k: nat {:trigger bytes[k]} :: k < |bytes| ==>
          bytes[k] == Seen(d, addrs, offset + k)
  }

  ghost predicate SameSeen(d: Disk, addrs: seq<nat>, d': Disk, addrs': seq<nat>, offset: nat, end: nat) {
    && |addrs| == |addrs'| == NDIRECT + 2
    && forall x: nat {:trigger Seen(d', addrs', x)} :: offset <= x < end ==> Seen(d', addrs', x) == Seen(d, addrs, x)
  }

  /** Reading block `fbn` changes nothing in what is seen of later ones. */
  lemma LaterSeen(d0: Disk, a0: seq<nat>, d1: Disk, a1: seq<nat>, off: nat, n: nat, end: nat)
    requires Extends(d0, a0, d1, a1) && OnlyMaps(d0, a0, d1, a1, off / BSIZE) && AllPlaced(d0, a0, off, end)
             && At(d1, 0) == At(d0, 0)
    requires 0 < n && off % BSIZE + n <= BSIZE && off + n <= end <= MAXFILE * BSIZE
             && (off + n == end || (off + n) % BSIZE == 0)
    ensures SameSeen(d0, a0, d1, a1, off + n, end)
  {
    forall x: nat | off + n <= x < end ensures Seen(d1, a1, x) == Seen(d0, a0, x) {
      assert Placed(d0, a0, x);
      BlockIndex(x, end);
      NextBlock(off, n, x);
      assert Find(d1, a1, x / BSIZE) == Find(d0, a0, x / BSIZE);
    }
  }

  /** The bytes of one block. */
  lemma ChunkSeen(d: Disk, addrs: seq<nat>, off: nat, n: nat, blk: Block)
    requires |addrs| == NDIRECT + 2 && off % BSIZE + n <= BSIZE
    requires var bn := Find(d, addrs, off / BSIZE);
             blk == if bn == 0 && off / BSIZE < NDIRECT then ZeroBytes(BSIZE) else At(d, bn)
    ensures Sees(d, addrs, off, blk[off % BSIZE..off % BSIZE + n])
  {
    var bytes := blk[off % BSIZE..off % BSIZE + n];
    forall k: nat | k < |bytes| ensures bytes[k] == Seen(d, addrs, off + k) { Within(off, k); }
  }

  /** One round of the loop of `readi`. */
  method ReadChunk(fs: Fs, inum: nat, off: nat, n: nat, ghost end: nat) returns (panicked: bool, bytes: seq<Byte>)
    requires fs.Valid() && inum in fs.inodes && AllPlaced(fs.disk, fs.inodes[inum].addrs, off, end)
    requires 0 < n && off % BSIZE + n <= BSIZE && off + n <= end <= MAXFILE * BSIZE
             && (off + n == end || (off + n) % BSIZE == 0)
    modifies fs`disk, fs`inodes, fs`own
    ensures !panicked ==> fs.Valid() && SameButSlots(old(fs.inodes), fs.inodes, inum)
    ensures !panicked ==> Extends(old(fs.disk), old(fs.inodes)[inum].addrs, fs.disk, fs.inodes[inum].addrs)
    ensures !panicked ==> |bytes| == n && Sees(old(fs.disk), old(fs.inodes)[inum].addrs, off, bytes)
    ensures !panicked ==> OthersKept(old(fs.disk), old(fs.inodes), fs.disk, fs.inodes, inum)
    ensures !panicked ==> AllPlaced(fs.disk, fs.inodes[inum].addrs, off + n, end)
    ensures !panicked ==>
              SameSeen(old(fs.disk), old(fs.inodes)[inum].addrs, fs.disk, fs.inodes[inum].addrs, off + n, end)
    ensures var spare := Spare(old(fs.disk), old(fs.inodes)[inum].addrs, off, end, fs.start, fs.size);
            if panicked then spare < 0
                else Spare(fs.disk, fs.inodes[inum].addrs, off + n, end, fs.start, fs.size) == spare
    ensures !panicked && WriteNeeds(old(fs.disk), old(fs.inodes)[inum].addrs, off, end) == 0 ==>
              fs.disk == old(fs.disk) && fs.inodes == old(fs.inodes) && fs.own == old(fs.own)
  {
    ghost var d0, a0 := fs.disk, fs.inodes[inum].addrs;
    assert Placed(d0, a0, off);
    BlockIndex(off, off + n);
    NeedsFirst(d0, a0, off, end);
    var ok, bn := fs.Bmap(inum, off / BSIZE);
    if !ok {
      return true, [];
    }
    ghost var a1 := fs.inodes[inum].addrs;
    ChunkSeen(d0, a0, off, n, At(fs.disk, bn));
    bytes := At(fs.disk, bn)[off % BSIZE..off % BSIZE + n];
    OthersMapped(old(fs.own), d0, old(fs.inodes), fs.disk, fs.inodes, inum);
    NeedsLeft(d0, a0, fs.disk, a1, fs.disk, off, n, end);
    LaterPlaced(d0, a0, fs.disk, a1, fs.disk, off, n, end);
    LaterSeen(d0, a0, fs.disk, a1, off, n, end);
    panicked := false;
  }

  /** `bytes` is what was read from `offset` on, of a disk that was `d0` with the inodes `inodes0`. */
  ghost predicate Read(d0: Disk, inodes0: map<nat, Inode>, d: Disk, inodes: map<nat, Inode>, inum: nat, offset: nat,
                       end: nat, bytes: seq<Byte>) {
    && inum in inodes0 && SameButSlots(inodes0, inodes, inum) && OthersKept(d0, inodes0, d, inodes, inum)
    && Extends(d0, inodes0[inum].addrs, d, inodes[inum].addrs) && Sees(d0, inodes0[inum].addrs, offset, bytes)
    && AllPlaced(d, inodes[inum].addrs, offset + |bytes|, end)
    && SameSeen(d0, inodes0[inum].addrs, d, inodes[inum].addrs, offset + |bytes|, end)
  }

  lemma NothingRead(d: Disk, inodes: map<nat, Inode>, inum: nat, offset: nat, end: nat)
    requires inum in inodes && AllPlaced(d, inodes[inum].addrs, offset, end)
    ensures Read(d, inodes, d, inodes, inum, offset, end, [])
  {
    NoOthers(d, inodes, inum);
    ExtendsSame(d, inodes[inum].addrs);
    SameView(inodes, inum, inodes[inum]);
  }

  lemma ReadMore(d0: Disk, inodes0: map<nat, Inode>, d1: Disk, inodes1: map<nat, Inode>, d2: Disk,
                 inodes2: map<nat, Inode>, inum: nat, offset: nat, end: nat, bytes: seq<Byte>, more: seq<Byte>,
                 off: nat, n: nat)
    requires Read(d0, inodes0, d1, inodes1, inum, offset, end, bytes) && off == offset + |bytes| && |more| == n
             && off + n <= end
    requires SameButSlots(inodes1, inodes2, inum) && OthersKept(d1, inodes1, d2, inodes2, inum)
    requires Extends(d1, inodes1[inum].addrs, d2, inodes2[inum].addrs) && Sees(d1, inodes1[inum].addrs, off, more)
    requires AllPlaced(d2, inodes2[inum].addrs, off + n, end)
             && SameSeen(d1, inodes1[inum].addrs, d2, inodes2[inum].addrs, off + n, end)
    ensures Read(d0, inodes0, d2, inodes2, inum, offset, end, bytes + more)
  {
    OthersTrans(d0, inodes0, d1, inodes1, d2, inodes2, inum);
    ExtendsTrans(d0, inodes0[inum].addrs, d1, inodes1[inum].addrs, d2, inodes2[inum].addrs);
    SeesMore(d0, inodes0[inum].addrs, d1, inodes1[inum].addrs, offset, end, bytes, more);
    SeenTrans(d0, inodes0[inum].addrs, d1, inodes1[inum].addrs, d2, inodes2[inum].addrs, off, n, end);
    SlotsTwice(inodes0, inodes1, inodes2, inum);
  }

  lemma SlotsTwice(inodes0: map<nat, Inode>, inodes1: map<nat, Inode>, inodes2: map<nat, Inode>, inum: nat)
    requires SameButSlots(inodes0, inodes1, inum) && SameButSlots(inodes1, inodes2, inum)
    ensures SameButSlots(inodes0, inodes2, inum)
  {
  }

  lemma SeesMore(d0: Disk, a0: seq<nat>, d1: Disk, a1: seq<nat>, offset: nat, end: nat,
                 bytes: seq<Byte>, more: seq<Byte>)
    requires Sees(d0, a0, offset, bytes) && Sees(d1, a1, offset + |bytes|, more) && offset + |bytes| + |more| <= end
    requires SameSeen(d0, a0, d1, a1, offset + |bytes|, end)
    ensures Sees(d0, a0, offset, bytes + more)
  {
    var all := bytes + more;
    forall k: nat | k < |all| ensures all[k] == Seen(d0, a0, offset + k) {
      if k < |bytes| {
        assert bytes[k] == Seen(d0, a0, offset + k);
      } else {
        assert more[k - |bytes|] == Seen(d1, a1, offset + |bytes| + (k - |bytes|));
        assert Seen(d1, a1, offset + k) == Seen(d0, a0, offset + k);
      }
    }
  }

  lemma SeenTrans(d0: Disk, a0: seq<nat>, d1: Disk, a1: seq<nat>, d2: Disk, a2: seq<nat>, off: nat, n: nat, end: nat)
    requires SameSeen(d0, a0, d1, a1, off, end) && SameSeen(d1, a1, d2, a2, off + n, end)
    ensures SameSeen(d0, a0, d2, a2, off + n, end)
  {
    forall x: nat | off + n <= x < end ensures Seen(d2, a2, x) == Seen(d0, a0, x) {
      assert Seen(d1, a1, x) == Seen(d0, a0, x);
    }
  }

  /** One more chunk of `n` bytes, after others. */
  method ReadNext(fs: Fs, inum: nat, off: nat, n: nat, bytes: seq<Byte>, ghost d0: Disk, ghost inodes0: map<nat, Inode>,
                  ghost offset: nat, ghost end: nat, ghost spare: int) returns (panicked: bool, all: seq<Byte>)
    requires fs.Valid() && Read(d0, inodes0, fs.disk, fs.inodes, inum, offset, end, bytes)
    requires 0 < n && off == offset + |bytes| && off + n <= end <= MAXFILE * BSIZE
    requires off % BSIZE + n <= BSIZE && (off + n == end || (off + n) % BSIZE == 0)
    requires Spare(fs.disk, fs.inodes[inum].addrs, off, end, fs.start, fs.size) == spare
    modifies fs`disk, fs`inodes, fs`own
    ensures !panicked ==> |all| == |bytes| + n
    ensures !panicked ==> fs.Valid() && Read(d0, inodes0, fs.disk, fs.inodes, inum, offset, end, all)
    ensures if panicked then spare < 0
            else Spare(fs.disk, fs.inodes[inum].addrs, off + n, end, fs.start, fs.size) == spare
    ensures !panicked && WriteNeeds(old(fs.disk), old(fs.inodes)[inum].addrs, off, end) == 0 ==>
              fs.disk == old(fs.disk) && fs.inodes == old(fs.inodes) && fs.own == old(fs.own)
  {
    var more;
    panicked, more := ReadChunk(fs, inum, off, n, end);
    if panicked {
      return true, [];
    }
    ReadMore(d0, inodes0, old(fs.disk), old(fs.inodes), fs.disk, fs.inodes, inum, offset, end, bytes, more, off, n);
    all := bytes + more;
  }

  /** One round of the loop: what is left of the block, or of the range. */
  method ReadRound(fs: Fs, inum: nat, off: nat, left: nat, bytes: seq<Byte>, ghost d0: Disk,
                   ghost inodes0: map<nat, Inode>, ghost offset: nat, ghost end: nat, ghost spare: int)
    returns (panicked: bool, off': nat, left': nat, all: seq<Byte>)
    requires fs.Valid() && Read(d0, inodes0, fs.disk, fs.inodes, inum, offset, end, bytes)
    requires off == offset + |bytes| < end == off + left && end <= MAXFILE * BSIZE
    requires Spare(fs.disk, fs.inodes[inum].addrs, off, end, fs.start, fs.size) == spare
    modifies fs`disk, fs`inodes, fs`own
    ensures left' < left && off' + left' == end
    ensures !panicked ==> off' == offset + |all|
    ensures !panicked ==> fs.Valid() && Read(d0, inodes0, fs.disk, fs.inodes, inum, offset, end, all)
    ensures if panicked then spare < 0
            else Spare(fs.disk, fs.inodes[inum].addrs, off', end, fs.start, fs.size) == spare
    ensures !panicked && WriteNeeds(old(fs.disk), old(fs.inodes)[inum].addrs, off, end) == 0 ==>
              fs.disk == old(fs.disk) && fs.inodes == old(fs.inodes) && fs.own == old(fs.own)
  {
    var n := Min(BSIZE - off % BSIZE, left);
    ChunkEnd(off, n, end);
    panicked, all := ReadNext(fs, inum, off, n, bytes, d0, inodes0, offset, end, spare);
    off', left' := off + n, left - n;
  }

  /** The loop of `readi`. */
  method ReadLoop(fs: Fs, inum: nat, offset: nat, n: nat) returns (panicked: bool, bytes: seq<Byte>)
    requires fs.Valid() && inum in fs.inodes && AllPlaced(fs.disk, fs.inodes[inum].addrs, offset, offset + n)
    requires n == 0 || offset + n <= MAXFILE * BSIZE
    modifies fs`disk, fs`inodes, fs`own
    ensures !panicked ==>
              |bytes| == n && fs.Valid()
                  && Read(old(fs.disk), old(fs.inodes), fs.disk, fs.inodes, inum, offset, offset + n, bytes)
    ensures var spare := Spare(old(fs.disk), old(fs.inodes)[inum].addrs, offset, offset + n, fs.start, fs.size);
            if panicked then spare < 0 else FreeCount(fs.disk, fs.start, fs.size) == spare
    ensures !panicked && WriteNeeds(old(fs.disk), old(fs.inodes)[inum].addrs, offset, offset + n) == 0 ==>
              fs.disk == old(fs.disk) && fs.inodes == old(fs.inodes) && fs.own == old(fs.own)
  {
    var off, left := offset, n;
    ghost var d0, inodes0, end := fs.disk, fs.inodes, offset + n;
    ghost var spare := Spare(d0, inodes0[inum].addrs, offset, end, fs.start, fs.size);
    ghost var whole := WriteNeeds(d0, inodes0[inum].addrs, offset, end) == 0;
    bytes := [];
    NothingRead(d0, inodes0, inum, offset, end);
    while left > 0
      invariant off + left == end && off == offset + |bytes| && fs.Valid()
      invariant Read(d0, inodes0, fs.disk, fs.inodes, inum, offset, end, bytes)
      invariant Spare(fs.disk, fs.inodes[inum].addrs, off, end, fs.start, fs.size) == spare
      invariant whole ==> fs.disk == d0 && fs.inodes == inodes0 && fs.own == old(fs.own)
    {
      panicked, off, left, bytes := ReadRound(fs, inum, off, left, bytes, d0, inodes0, offset, end, spare);
      if panicked {
        return true, [];
      }
    }
    panicked := false;
  }

  /** The loop of `readi` on a count that reaches past the largest file: it ends in a panic of `bmap`. */
  method ReadPast(fs: Fs, inum: nat, offset: nat, n: nat) returns (panicked: bool)
    requires fs.Valid() && inum in fs.inodes && 0 < n && offset + n > MAXFILE * BSIZE
    modifies fs`disk, fs`inodes, fs`own
    ensures panicked
  {
    var off, left := offset, n;
    panicked := false;
    while !panicked
      invariant !panicked ==> fs.Valid() && inum in fs.inodes && off + left == offset + n
      invariant !panicked ==> 0 < left && (off == offset || off <= MAXFILE * BSIZE)
      decreases !panicked, left
    {
      assert InodeOk(fs.own, inum, fs.inodes[inum].addrs);
      var ok, bn := fs.Bmap(inum, off / BSIZE);
      var count := Min(BSIZE - off % BSIZE, left);
      panicked, off, left := !ok, off + count, left - count;
    }
  }

  /**
    `readi` of the bytes from `offset` on, up to the end of the file.  It fails if and only if `offset + n` does not fit
    in 64 bits.  It panics if and only if the range starts past the end of the file, where the count wraps around, or
    fewer blocks are free than it has holes to fill; without holes nothing changes.
  */
  method ReadI(fs: Fs, inum: nat, offset: nat, n: nat) returns (panicked: bool, ok: bool, bytes: seq<Byte>)
    requires fs.Valid() && inum in fs.inodes
    requires AllPlaced(fs.disk, fs.inodes[inum].addrs, offset, Min(offset + n, fs.inodes[inum].size))
    modifies fs`disk, fs`inodes, fs`own
    ensures var end := Min(offset + n, old(fs.inodes)[inum].size);
            var lacking :=
                  end >= offset && Spare(old(fs.disk), old(fs.inodes)[inum].addrs, offset, end, fs.start, fs.size) < 0;
            panicked <==> offset + n < USIZE && (offset > old(fs.inodes)[inum].size || lacking)
    ensures !panicked ==> fs.Valid() && (ok <==> offset + n < USIZE) && SameButSlots(old(fs.inodes), fs.inodes, inum)
    ensures !panicked ==> OthersKept(old(fs.disk), old(fs.inodes), fs.disk, fs.inodes, inum)
    ensures !panicked ==> Extends(old(fs.disk), old(fs.inodes)[inum].addrs, fs.disk, fs.inodes[inum].addrs)
    ensures !panicked && ok ==> |bytes| == Min(n, old(fs.inodes)[inum].size - offset)
    ensures !panicked && ok ==> Sees(old(fs.disk), old(fs.inodes)[inum].addrs, offset, bytes)
    ensures !panicked
            && (!ok || WriteNeeds(old(fs.disk), old(fs.inodes)[inum].addrs, offset, offset + |bytes|) == 0) ==>
              fs.disk == old(fs.disk) && fs.inodes == old(fs.inodes) && fs.own == old(fs.own)
  {
    bytes := [];
    if offset + n >= USIZE {
      NothingRead(fs.disk, fs.inodes, inum, offset, offset);
      return false, false, [];
    }
    if offset > fs.inodes[inum].size {
      panicked := ReadPast(fs, inum, offset, (fs.inodes[inum].size + USIZE - offset) % USIZE);
      return panicked, false, [];
    }
    var count := if offset + n > fs.inodes[inum].size then fs.inodes[inum].size - offset else n;
    PlacedEnd(fs.disk, fs.inodes[inum].addrs, offset, offset + count);
    panicked, bytes := ReadLoop(fs, inum, offset, count);
    ok := !panicked;
  }

  lemma PlacedEnd(d: Disk, addrs: seq<nat>, offset: nat, end: nat)
    requires AllPlaced(d, addrs, offset, end)
    ensures offset < end ==> end <= MAXFILE * BSIZE
  {
    if offset < end {
      assert Placed(d, addrs, end - 1);
    }
  }

  // ---- Files ----

  /** What the kernel sees is what is in the file. */
  lemma HoldsSeen(d: Disk, addrs: seq<nat>, file: seq<Byte>, offset: nat, bytes: seq<Byte>)
    requires Holds(d, addrs, file) && Sees(d, addrs, offset, bytes) && offset + |bytes| <= |file|
    ensures bytes == file[offset..offset + |bytes|]
  {
    forall k: nat | k < |bytes| ensures bytes[k] == file[offset + k] {
      assert HoldsAt(d, addrs, offset + k, file[offset + k]);
    }
  }

  /** A file has no holes. */
  lemma HoldsMapped(d: Disk, addrs: seq<nat>, file: seq<Byte>, offset: nat, end: nat)
    requires Holds(d, addrs, file) && offset <= end <= |file|
    ensures AllPlaced(d, addrs, offset, end) && WriteNeeds(d, addrs, offset, end) == 0
  {
    forall x: nat | offset <= x < end ensures Placed(d, addrs, x) && Find(d, addrs, x / BSIZE) != 0 {
      assert HoldsAt(d, addrs, x, file[x]);
    }
    if offset < end {
      var lo, hi := offset / BSIZE, (end - 1) / BSIZE + 1;
      forall f: nat | lo <= f < hi ensures Find(d, addrs, f) != 0 {
        var x := if f == lo then offset else f * BSIZE;
        assert offset <= x < end && x / BSIZE == f;
        assert Find(d, addrs, x / BSIZE) != 0;
      }
      NoHoles(d, addrs, lo, hi);
      BlockIndex(end - 1, |file|);
      var f := if lo < NDIRECT then NDIRECT else lo;
      assert NDIRECT <= f < NDIRECT + WORDS && f < hi ==> Find(d, addrs, f) != 0;
    }
  }

  lemma {:induction false} NoHoles(d: Disk, addrs: seq<nat>, lo: nat, hi: nat)
    requires |addrs| == NDIRECT + 2 && forall f: nat {:trigger Find(d, addrs, f)} :: lo <= f < hi ==>
               Find(d, addrs, f) != 0
    ensures Holes(d, addrs, lo, hi) == 0
    decreases hi - lo
  {
    if lo < hi { NoHoles(d, addrs, lo + 1, hi); }
  }
}
