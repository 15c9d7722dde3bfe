/** How many blocks a file takes in the image that mkfs builds: those its bytes lie in, and the tables above them. */
module FileTree {
  import opened Prelude
  import opened FsLayout
  import opened BlockMap

  type Files = map<nat, seq<Byte>>

  /** How many blocks `n` bytes lie in. */
  function BlockCount(n: nat): nat {
    (n + BSIZE - 1) / BSIZE
  }

  /** The bytes of a file, and zeros up to the end of its last block. */
  function Padded(bytes: seq<Byte>): (r: seq<Byte>)
    ensures |r| == BlockCount(|bytes|) * BSIZE && bytes <= r
  {
    bytes + ZeroBytes(BlockCount(|bytes|) * BSIZE - |bytes|)
  }

  // ---- What has a use is needed ----

  /** The first block of the file that a block with use `u` is needed for. */
  function FirstBlock(u: Use): nat {
    match u
    case Data(_, fbn) => fbn
    case Ind(_) => NDIRECT
    case Dind(_) => NDIRECT + WORDS
    case Leaf(_, j) => NDIRECT + WORDS + WORDS * j
  }

  predicate UseFits(u: Use, files: Files) {
    u.inum in files && FirstBlock(u) < BlockCount(|files[u.inum]|)
  }

  /** No block is used for what is at or behind the end of a file. */
  ghost predicate UsesFit(own: Uses, files: Files) {
    forall b {:trigger UseFits(own[b], files)} :: b in own ==> UseFits(own[b], files)
  }

  /** Only blocks for block `fbn` of file `inum` have been given a use. */
  ghost predicate Added(own: Uses, own': Uses, inum: nat, fbn: nat) {
    forall b {:trigger own'[b]} :: b in own' ==>
      (b in own && own'[b] == own[b]) || (own'[b].inum == inum && FirstBlock(own'[b]) <= fbn)
  }

  lemma PastEnd(own: Uses, d: Disk, view: map<nat, Inode>, files: Files, inum: nat, fbn: nat)
    requires MapOk(own, d, view) && UsesFit(own, files) && inum in view && inum in files
    requires BlockCount(|files[inum]|) <= fbn
    ensures |view[inum].addrs| == NDIRECT + 2 && Find(d, view[inum].addrs, fbn) == 0
  {
    assert InodeOk(own, inum, view[inum].addrs);
    if fbn < MAXFILE {
      FindUse(own, d, view, inum, fbn);
      var b := Find(d, view[inum].addrs, fbn);
      assert b in own ==> UseFits(own[b], files);
    }
  }

  lemma BeforeEnd(d: Disk, addrs: seq<nat>, bytes: seq<Byte>, fbn: nat)
    requires Holds(d, addrs, Padded(bytes)) && fbn < BlockCount(|bytes|)
    ensures Find(d, addrs, fbn) != 0
  {
    var k := fbn * BSIZE;
    assert k < |Padded(bytes)| && k / BSIZE == fbn;
    assert HoldsAt(d, addrs, k, Padded(bytes)[k]);
  }

  lemma UsesGrow(own: Uses, own': Uses, files: Files, inum: nat, fbn: nat, bytes: seq<Byte>)
    requires UsesFit(own, files) && Added(own, own', inum, fbn) && inum in files
    requires |files[inum]| <= |bytes| && fbn < BlockCount(|bytes|)
    ensures UsesFit(own', files[inum := bytes])
  {
    MoreBytes(|files[inum]|, |bytes|);
    forall b | b in own' ensures UseFits(own'[b], files[inum := bytes]) {
      if b in own { assert UseFits(own[b], files); }
    }
  }

  lemma MoreBytes(m: nat, n: nat)
    requires m <= n
    ensures BlockCount(m) <= BlockCount(n)
  {
  }

  // ---- Counting blocks ----

  /** The blocks that come with block `fbn` of a file: itself, and the tables it is the first to need. */
  function NewBlocks(fbn: nat): nat {
    1 + (if fbn == NDIRECT then 1 else 0) + (if fbn == NDIRECT + WORDS then 1 else 0)
    + (if NDIRECT + WORDS <= fbn && (fbn - NDIRECT - WORDS) % WORDS == 0 then 1 else 0)
  }

  /** The blocks of a file with `n` blocks of bytes. */
  function TreeBlocks(n: nat): nat {
    if n == 0 then 0 else TreeBlocks(n - 1) + NewBlocks(n - 1)
  }

  /** The blocks of the files with numbers below `n`. */
  function AllBlocks(files: Files, n: nat): nat {
    if n == 0 then 0
    else AllBlocks(files, n - 1) + if n - 1 in files then TreeBlocks(BlockCount(|files[n - 1]|)) else 0
  }

  /** The blocks that `iappend` takes for block `fbn` of a file. */
  function Taken(d: Disk, addrs: seq<nat>, fbn: nat): nat
    requires |addrs| == NDIRECT + 2 && fbn < MAXFILE
  {
    Missing(Find(d, addrs, fbn)) +
    if fbn < NDIRECT then 0
    else if fbn < NDIRECT + WORDS then Missing(addrs[NDIRECT])
    else Missing(addrs[NDIRECT + 1]) + Missing(InTable(d, addrs[NDIRECT + 1], LeafOf(fbn)))
  }

  lemma {:induction false} TreeGrows(m: nat, n: nat)
    requires m <= n
    ensures TreeBlocks(m) <= TreeBlocks(n)
    decreases n
  {
    if m < n { TreeGrows(m, n - 1); }
  }

  /** At the end of a file `iappend` takes exactly what one more block takes. */
  lemma TakenIs(own: Uses, d: Disk, view: map<nat, Inode>, files: Files, inum: nat, fbn: nat)
    requires MapOk(own, d, view) && UsesFit(own, files) && inum in view && inum in files && fbn < MAXFILE
    requires Holds(d, view[inum].addrs, Padded(files[inum])) && fbn == |files[inum]| / BSIZE
    ensures Taken(d, view[inum].addrs, fbn) == TreeBlocks(fbn + 1) - TreeBlocks(BlockCount(|files[inum]|))
  {
    var addrs, nb := view[inum].addrs, BlockCount(|files[inum]|);
    assert nb == fbn || nb == fbn + 1;
    if nb == fbn {
      PastEnd(own, d, view, files, inum, fbn);
      if NDIRECT <= fbn < NDIRECT + WORDS {
        IndirectSet(own, d, view, files, inum);
      } else if NDIRECT + WORDS <= fbn {
        DoubleSet(own, d, view, files, inum, fbn);
      }
    } else {
      BeforeEnd(d, addrs, files[inum], fbn);
    }
  }

  lemma IndirectSet(own: Uses, d: Disk, view: map<nat, Inode>, files: Files, inum: nat)
    requires MapOk(own, d, view) && UsesFit(own, files) && inum in view && inum in files
    requires Holds(d, view[inum].addrs, Padded(files[inum]))
    ensures view[inum].addrs[NDIRECT] != 0 <==> NDIRECT < BlockCount(|files[inum]|)
  {
    var addrs := view[inum].addrs;
    assert InodeOk(own, inum, addrs);
    if addrs[NDIRECT] != 0 {
      assert Points(own, addrs[NDIRECT], AddrUse(inum, NDIRECT)) && UseFits(own[addrs[NDIRECT]], files);
    }
    if NDIRECT < BlockCount(|files[inum]|) { BeforeEnd(d, addrs, files[inum], NDIRECT); }
  }

  lemma DoubleSet(own: Uses, d: Disk, view: map<nat, Inode>, files: Files, inum: nat, fbn: nat)
    requires MapOk(own, d, view) && UsesFit(own, files) && inum in view && inum in files
    requires Holds(d, view[inum].addrs, Padded(files[inum])) && NDIRECT + WORDS <= fbn < MAXFILE
    ensures view[inum].addrs[NDIRECT + 1] != 0 <==> NDIRECT + WORDS < BlockCount(|files[inum]|)
    ensures InTable(d, view[inum].addrs[NDIRECT + 1], LeafOf(fbn)) != 0 <==>
              NDIRECT + WORDS + WORDS * LeafOf(fbn) < BlockCount(|files[inum]|)
  {
    var addrs, nb, first := view[inum].addrs, BlockCount(|files[inum]|), NDIRECT + WORDS + WORDS * LeafOf(fbn);
    assert InodeOk(own, inum, addrs);
    if addrs[NDIRECT + 1] != 0 {
      assert Points(own, addrs[NDIRECT + 1], AddrUse(inum, NDIRECT + 1)) && UseFits(own[addrs[NDIRECT + 1]], files);
      TableUse(own, d, view, addrs[NDIRECT + 1], LeafOf(fbn));
      var leaf := InTable(d, addrs[NDIRECT + 1], LeafOf(fbn));
      if leaf != 0 { assert UseFits(own[leaf], files); }
    }
    if NDIRECT + WORDS < nb { BeforeEnd(d, addrs, files[inum], NDIRECT + WORDS); }
    if first < nb {
      BeforeEnd(d, addrs, files[inum], first);
      assert first < MAXFILE && LeafOf(first) == LeafOf(fbn);
    }
  }

  lemma {:induction false} BlocksAfter(files: Files, inum: nat, bytes: seq<Byte>, n: nat)
    requires inum in files
    ensures AllBlocks(files[inum := bytes], n) ==
            if inum < n then
              AllBlocks(files, n) - TreeBlocks(BlockCount(|files[inum]|)) + TreeBlocks(BlockCount(|bytes|))
            else AllBlocks(files, n)
  {
    if n > 0 { BlocksAfter(files, inum, bytes, n - 1); }
  }

  lemma {:induction false} BlocksOfNone(files: Files, inum: nat, n: nat)
    requires inum !in files
    ensures AllBlocks(files[inum := []], n) == AllBlocks(files, n)
  {
    if n > 0 { BlocksOfNone(files, inum, n - 1); }
  }

  // ---- Contents ----

  /** The file up to the end of the block that its end is in, when that block is mapped. */
  function WholeBlocks(bytes: seq<Byte>): (r: seq<Byte>)
    ensures |r| == (|bytes| / BSIZE + 1) * BSIZE && bytes <= r
  {
    bytes + ZeroBytes((|bytes| / BSIZE + 1) * BSIZE - |bytes|)
  }

  lemma WithRoom(d: Disk, addrs: seq<nat>, bytes: seq<Byte>)
    requires Holds(d, addrs, Padded(bytes)) && |bytes| / BSIZE < MAXFILE && Find(d, addrs, |bytes| / BSIZE) != 0
    requires |bytes| % BSIZE == 0 ==> At(d, Find(d, addrs, |bytes| / BSIZE)) == ZeroBytes(BSIZE)
    ensures Holds(d, addrs, WholeBlocks(bytes))
  {
    forall k: nat | k < |WholeBlocks(bytes)| ensures HoldsAt(d, addrs, k, WholeBlocks(bytes)[k]) {
      if k < |Padded(bytes)| {
        assert HoldsAt(d, addrs, k, Padded(bytes)[k]);
      } else {
        assert k / BSIZE == |bytes| / BSIZE;
      }
    }
  }

  lemma RoomFilled(bytes: seq<Byte>, part: seq<Byte>)
    requires 0 < |part| && |bytes| % BSIZE + |part| <= BSIZE
    ensures BlockCount(|bytes + part|) == |bytes| / BSIZE + 1
    ensures Over(WholeBlocks(bytes), |bytes|, part) == Padded(bytes + part)
  {
    assert BlockCount(|bytes + part|) == |bytes| / BSIZE + 1;
  }
}
