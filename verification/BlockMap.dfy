/** The block map of inodes: following it, what each block is for, and what changes leave it alone. */
module BlockMap {
  import opened Prelude
  import opened FsLayout

  // ---- Following the map ----

  /** The block that holds block `fbn` of a file, 0 if a slot on the way is empty. */
  function Find(d: Disk, addrs: seq<nat>, fbn: nat): nat
    requires |addrs| == NDIRECT + 2
  {
    if fbn < NDIRECT then addrs[fbn]
    else if fbn < NDIRECT + WORDS then InTable(d, addrs[NDIRECT], fbn - NDIRECT)
    else if fbn < MAXFILE then InTable(d, InTable(d, addrs[NDIRECT + 1], LeafOf(fbn)), PosOf(fbn))
    else 0
  }

  function InTable(d: Disk, table: nat, pos: nat): nat
    requires pos < WORDS
  {
    if table == 0 then 0 else Word(At(d, table), pos)
  }

  /** The blocks that an empty slot asks for. */
  function Missing(slot: nat): nat {
    if slot == 0 then 1 else 0
  }

  /** Which indirect block of the double-indirect tree, and which slot of it. */
  function LeafOf(fbn: nat): (j: nat)
    requires NDIRECT + WORDS <= fbn < MAXFILE
    ensures j < WORDS
  {
    (fbn - NDIRECT - WORDS) / WORDS
  }

  function PosOf(fbn: nat): (k: nat)
    requires NDIRECT + WORDS <= fbn < MAXFILE
    ensures k < WORDS
  {
    (fbn - NDIRECT - WORDS) % WORDS
  }

  // ---- What a block is for ----

  datatype Use = Data(inum: nat, fbn: nat) | Ind(inum: nat) | Dind(inum: nat) | Leaf(inum: nat, j: nat)

  type Uses = map<nat, Use>

  function AddrUse(inum: nat, i: nat): Use {
    if i < NDIRECT then Data(inum, i) else if i == NDIRECT then Ind(inum) else Dind(inum)
  }

  /** What slot `j` of a block with use `u` leads to. */
  function SlotUse(u: Use, j: nat): Use {
    match u
    case Data(_, _) => u
    case Ind(inum) => Data(inum, NDIRECT + j)
    case Dind(inum) => Leaf(inum, j)
    case Leaf(inum, i) => Data(inum, NDIRECT + WORDS + WORDS * i + j)
  }

  predicate Points(own: Uses, b: nat, u: Use) {
    b != 0 ==> b in own && own[b] == u
  }

  ghost predicate InodeOk(own: Uses, inum: nat, addrs: seq<nat>) {
    |addrs| == NDIRECT + 2 && forall i: nat {:trigger addrs[i]} :: i < NDIRECT + 2 ==>
          Points(own, addrs[i], AddrUse(inum, i))
  }

  ghost predicate BlockOk(own: Uses, u: Use, blk: Block) {
    !u.Data? ==> forall j: nat {:trigger Word(blk, j)} :: j < WORDS ==> Points(own, Word(blk, j), SlotUse(u, j))
  }

  /** Every slot leads to a block with the use that the slot stands for, so no block is in two slots. */
  ghost predicate MapOk(own: Uses, d: Disk, inodes: map<nat, Inode>) {
    && (forall n {:trigger InodeOk(own, n, inodes[n].addrs)} :: n in inodes ==> InodeOk(own, n, inodes[n].addrs))
    && (forall b {:trigger BlockOk(own, own[b], At(d, b))} :: b in own ==> BlockOk(own, own[b], At(d, b)))
  }

  lemma FindUse(own: Uses, d: Disk, inodes: map<nat, Inode>, inum: nat, fbn: nat)
    requires MapOk(own, d, inodes) && inum in inodes && fbn < MAXFILE
    ensures |inodes[inum].addrs| == NDIRECT + 2
    ensures Points(own, Find(d, inodes[inum].addrs, fbn), Data(inum, fbn))
  {
    var addrs := inodes[inum].addrs;
    assert InodeOk(own, inum, addrs);
    if NDIRECT <= fbn < NDIRECT + WORDS {
      TableUse(own, d, inodes, addrs[NDIRECT], fbn - NDIRECT);
    } else if NDIRECT + WORDS <= fbn {
      TableUse(own, d, inodes, addrs[NDIRECT + 1], LeafOf(fbn));
      TableUse(own, d, inodes, InTable(d, addrs[NDIRECT + 1], LeafOf(fbn)), PosOf(fbn));
    }
  }

  lemma TableUse(own: Uses, d: Disk, inodes: map<nat, Inode>, table: nat, pos: nat)
    requires MapOk(own, d, inodes) && pos < WORDS && (table != 0 ==> table in own && !own[table].Data?)
    ensures table != 0 ==> Points(own, InTable(d, table, pos), SlotUse(own[table], pos))
  {
    if table != 0 { assert BlockOk(own, own[table], At(d, table)); }
  }

  // ---- Changes that keep what is mapped ----

  /** Data blocks and the blocks below `meta` are untouched, and no slot in use changes. */
  ghost predicate Kept(own: Uses, d: Disk, d': Disk, meta: nat) {
    && (forall b: nat {:trigger At(d', b)} :: b < meta || (b in own && own[b].Data?) ==> At(d', b) == At(d, b))
    && (forall b: nat, j: nat {:trigger Word(At(d', b), j)} ::
          b in own && !own[b].Data? && j < WORDS && Word(At(d, b), j) != 0 ==>
          Word(At(d', b), j) == Word(At(d, b), j))
  }

  lemma FindKept(own: Uses, d: Disk, d': Disk, meta: nat, inodes: map<nat, Inode>, inum: nat, fbn: nat)
    requires MapOk(own, d, inodes) && Kept(own, d, d', meta) && inum in inodes && |inodes[inum].addrs| == NDIRECT + 2
    requires fbn < MAXFILE && Find(d, inodes[inum].addrs, fbn) != 0
    ensures Find(d', inodes[inum].addrs, fbn) == Find(d, inodes[inum].addrs, fbn)
    ensures At(d', Find(d, inodes[inum].addrs, fbn)) == At(d, Find(d, inodes[inum].addrs, fbn))
  {
    var addrs := inodes[inum].addrs;
    assert InodeOk(own, inum, addrs);
    FindUse(own, d, inodes, inum, fbn);
    if NDIRECT <= fbn < NDIRECT + WORDS {
      assert Word(At(d', addrs[NDIRECT]), fbn - NDIRECT) == Word(At(d, addrs[NDIRECT]), fbn - NDIRECT);
    } else if NDIRECT + WORDS <= fbn {
      var j, k := LeafOf(fbn), PosOf(fbn);
      var leaf := InTable(d, addrs[NDIRECT + 1], j);
      TableUse(own, d, inodes, addrs[NDIRECT + 1], j);
      assert Word(At(d', addrs[NDIRECT + 1]), j) == leaf;
      assert Word(At(d', leaf), k) == Word(At(d, leaf), k);
    }
  }

  // ---- Contents ----

  /** The file with these slots is `bytes`. */
  ghost predicate Holds(d: Disk, addrs: seq<nat>, bytes: seq<Byte>) {
    && |addrs| == NDIRECT + 2 && |bytes| <= MAXFILE * BSIZE
    && forall k: nat {:trigger bytes[k]} :: k < |bytes| ==> HoldsAt(d, addrs, k, bytes[k])
  }

  predicate HoldsAt(d: Disk, addrs: seq<nat>, k: nat, x: Byte)
    requires |addrs| == NDIRECT + 2
  {
    Find(d, addrs, k / BSIZE) != 0 && At(d, Find(d, addrs, k / BSIZE))[k % BSIZE] == x
  }

  lemma HoldsKept(own: Uses, d: Disk, d': Disk, meta: nat, inodes: map<nat, Inode>, inum: nat, bytes: seq<Byte>)
    requires MapOk(own, d, inodes) && Kept(own, d, d', meta) && inum in inodes && Holds(d, inodes[inum].addrs, bytes)
    ensures Holds(d', inodes[inum].addrs, bytes)
  {
    var addrs := inodes[inum].addrs;
    forall k: nat | k < |bytes| ensures HoldsAt(d', addrs, k, bytes[k]) {
      assert HoldsAt(d, addrs, k, bytes[k]);
      BlockIndex(k, |bytes|);
      FindKept(own, d, d', meta, inodes, inum, k / BSIZE);
    }
  }

  lemma BlockIndex(k: nat, n: nat)
    requires k < n <= MAXFILE * BSIZE
    ensures k / BSIZE < MAXFILE
  {
  }

  /** What is in a data block moves nothing. */
  lemma FindSame(own: Uses, d: Disk, view: map<nat, Inode>, bn: nat, blk: Block, inum: nat, fbn: nat)
    requires MapOk(own, d, view) && bn in own && own[bn].Data? && inum in view && |view[inum].addrs| == NDIRECT + 2
             && fbn < MAXFILE
    ensures Find(Write(d, bn, blk), view[inum].addrs, fbn) == Find(d, view[inum].addrs, fbn)
  {
    var addrs := view[inum].addrs;
    assert InodeOk(own, inum, addrs);
    if NDIRECT + WORDS <= fbn {
      TableUse(own, d, view, addrs[NDIRECT + 1], LeafOf(fbn));
    }
  }

  // ---- Filling empty slots ----

  function With(view: map<nat, Inode>, inum: nat, ino: Inode): map<nat, Inode> {
    view[inum := ino]
  }

  lemma ZeroBlockOk(own: Uses, u: Use)
    ensures BlockOk(own, u, ZeroBytes(BSIZE))
  {
    forall j: nat | j < WORDS ensures Word(ZeroBytes(BSIZE), j) == 0 { ZeroWords(j); }
  }

  /** A new use changes nothing for the blocks that have one. */
  lemma MoreUses(own: Uses, d: Disk, view: map<nat, Inode>, b: nat, u: Use)
    requires MapOk(own, d, view) && b !in own && At(d, b) == ZeroBytes(BSIZE)
    ensures MapOk(own[b := u], d, view)
  {
    var own' := own[b := u];
    forall n | n in view ensures InodeOk(own', n, view[n].addrs) {
      assert InodeOk(own, n, view[n].addrs);
    }
    forall x | x in own' ensures BlockOk(own', own'[x], At(d, x)) {
      if x == b { ZeroBlockOk(own', u); } else { assert BlockOk(own, own[x], At(d, x)); }
    }
  }

  lemma FillSlot(own: Uses, d: Disk, view: map<nat, Inode>, meta: nat, table: nat, pos: nat, b: nat)
    requires MapOk(own, d, view) && b !in own && At(d, b) == ZeroBytes(BSIZE) && b < U32 && pos < WORDS
    requires table in own && !own[table].Data? && Word(At(d, table), pos) == 0 && meta <= table
    ensures var own', d' := own[b := SlotUse(own[table], pos)], Write(d, table, SetWord(At(d, table), pos, b));
            MapOk(own', d', view) && Kept(own, d, d', meta) && Word(At(d', table), pos) == b
  {
    var own', d' := own[b := SlotUse(own[table], pos)], Write(d, table, SetWord(At(d, table), pos, b));
    MoreUses(own, d, view, b, SlotUse(own[table], pos));
    WordSet(At(d, table), pos, b);
    forall x | x in own' ensures BlockOk(own', own'[x], At(d', x)) {
      assert BlockOk(own', own'[x], At(d, x));
    }
  }

  lemma FillAddr(own: Uses, d: Disk, view: map<nat, Inode>, inum: nat, i: nat, b: nat)
    requires MapOk(own, d, view) && b !in own && At(d, b) == ZeroBytes(BSIZE) && inum in view && i < NDIRECT + 2
    ensures |view[inum].addrs| == NDIRECT + 2
    ensures var own', ino := own[b := AddrUse(inum, i)], view[inum].(addrs := view[inum].addrs[i := b]);
            MapOk(own', d, With(view, inum, ino))
  {
    assert InodeOk(own, inum, view[inum].addrs);
    MoreUses(own, d, view, b, AddrUse(inum, i));
    var own', ino := own[b := AddrUse(inum, i)], view[inum].(addrs := view[inum].addrs[i := b]);
    var view' := With(view, inum, ino);
    forall n | n in view' ensures InodeOk(own', n, view'[n].addrs) {
      assert InodeOk(own', n, view[n].addrs);
    }
  }

  /** Uses are added, none is changed. */
  ghost predicate Grown(own: Uses, own': Uses) {
    forall b {:trigger b in own} :: b in own ==> b in own' && own'[b] == own[b]
  }

  lemma SameView(view: map<nat, Inode>, inum: nat, ino: Inode)
    requires inum in view && view[inum] == ino
    ensures With(view, inum, ino) == view
  {
  }

  lemma WithTwice(view: map<nat, Inode>, inum: nat, ino: Inode, ino': Inode)
    ensures With(With(view, inum, ino), inum, ino') == With(view, inum, ino')
  {
  }

  // ---- What a longer map keeps ----

  /** Every block found before is found again, with the same bytes. */
  ghost predicate Extends(d: Disk, addrs: seq<nat>, d': Disk, addrs': seq<nat>) {
    && |addrs| == |addrs'| == NDIRECT + 2
    && forall f: nat {:trigger Find(d', addrs', f)} :: f < MAXFILE && Find(d, addrs, f) != 0 ==>
         Find(d', addrs', f) == Find(d, addrs, f) && At(d', Find(d, addrs, f)) == At(d, Find(d, addrs, f))
  }

  lemma ExtendsKept(own: Uses, d: Disk, d': Disk, meta: nat, view: map<nat, Inode>, inum: nat)
    requires MapOk(own, d, view) && Kept(own, d, d', meta) && inum in view && |view[inum].addrs| == NDIRECT + 2
    ensures Extends(d, view[inum].addrs, d', view[inum].addrs)
  {
    forall f: nat | f < MAXFILE && Find(d, view[inum].addrs, f) != 0
      ensures Find(d', view[inum].addrs, f) == Find(d, view[inum].addrs, f)
              && At(d', Find(d, view[inum].addrs, f)) == At(d, Find(d, view[inum].addrs, f))
    {
      FindKept(own, d, d', meta, view, inum, f);
    }
  }

  lemma ExtendsAddr(d: Disk, addrs: seq<nat>, i: nat, b: nat)
    requires |addrs| == NDIRECT + 2 && i < NDIRECT + 2 && addrs[i] == 0
    ensures Extends(d, addrs, d, addrs[i := b])
  {
  }

  lemma ExtendsTrans(d0: Disk, a0: seq<nat>, d1: Disk, a1: seq<nat>, d2: Disk, a2: seq<nat>)
    requires Extends(d0, a0, d1, a1) && Extends(d1, a1, d2, a2)
    ensures Extends(d0, a0, d2, a2)
  {
    forall f: nat | f < MAXFILE && Find(d0, a0, f) != 0
      ensures Find(d2, a2, f) == Find(d0, a0, f) && At(d2, Find(d0, a0, f)) == At(d0, Find(d0, a0, f))
    {
      assert Find(d1, a1, f) == Find(d0, a0, f);
    }
  }

  lemma HoldsExtends(d: Disk, addrs: seq<nat>, d': Disk, addrs': seq<nat>, bytes: seq<Byte>)
    requires Holds(d, addrs, bytes) && Extends(d, addrs, d', addrs')
    ensures Holds(d', addrs', bytes)
  {
    forall k: nat | k < |bytes| ensures HoldsAt(d', addrs', k, bytes[k]) {
      assert HoldsAt(d, addrs, k, bytes[k]);
      BlockIndex(k, |bytes|);
    }
  }

  lemma Within(off: nat, k: nat)
    requires off % BSIZE + k < BSIZE
    ensures (off + k) / BSIZE == off / BSIZE && (off + k) % BSIZE == off % BSIZE + k
  {
  }

  // ---- Writing into a file ----

  /** `bytes` with `part` written over it from `off` on, longer if `part` reaches past the end. */
  function Over(bytes: seq<Byte>, off: nat, part: seq<Byte>): (r: seq<Byte>)
    requires off <= |bytes|
    ensures |r| == if off + |part| <= |bytes| then |bytes| else off + |part|
    ensures forall k: nat {:trigger r[k]} :: k < |r| ==>
              r[k] == if off <= k < off + |part| then part[k - off] else bytes[k]
  {
    bytes[..off] + part + if off + |part| <= |bytes| then bytes[off + |part|..] else []
  }

  /** Writing `part` into the block at `off` of a file is writing it into the file. */
  lemma WriteAt(own: Uses, d: Disk, view: map<nat, Inode>, inum: nat, bytes: seq<Byte>, off: nat, part: seq<Byte>)
    requires MapOk(own, d, view) && inum in view && Holds(d, view[inum].addrs, bytes) && off <= |bytes|
    requires off % BSIZE + |part| <= BSIZE && off + |part| <= MAXFILE * BSIZE && off / BSIZE < MAXFILE
    requires Find(d, view[inum].addrs, off / BSIZE) != 0
    ensures var bn := Find(d, view[inum].addrs, off / BSIZE);
            Holds(Write(d, bn, Splice(At(d, bn), off % BSIZE, part)), view[inum].addrs, Over(bytes, off, part))
  {
    var addrs, fbn, all := view[inum].addrs, off / BSIZE, Over(bytes, off, part);
    var bn := Find(d, addrs, fbn);
    var d' := Write(d, bn, Splice(At(d, bn), off % BSIZE, part));
    FindUse(own, d, view, inum, fbn);
    forall k: nat | k < |all| ensures HoldsAt(d', addrs, k, all[k]) {
      BlockIndex(k, |all|);
      if off <= k < off + |part| {
        Within(off, k - off);
        FindSame(own, d, view, bn, At(d', bn), inum, fbn);
      } else {
        assert HoldsAt(d, addrs, k, bytes[k]);
        FindUse(own, d, view, inum, k / BSIZE);
        FindSame(own, d, view, bn, At(d', bn), inum, k / BSIZE);
        if k / BSIZE == fbn { Beside(k, off, |part|); }
      }
    }
  }

  lemma Beside(k: nat, off: nat, n: nat)
    requires k / BSIZE == off / BSIZE && !(off <= k < off + n)
    ensures !(off % BSIZE <= k % BSIZE < off % BSIZE + n)
  {
  }

  lemma WriteOthers(own: Uses, d: Disk, view: map<nat, Inode>, bn: nat, blk: Block, inum: nat, bytes: seq<Byte>)
    requires MapOk(own, d, view) && bn in own && own[bn].Data? && own[bn].inum != inum && inum in view
             && Holds(d, view[inum].addrs, bytes)
    ensures Holds(Write(d, bn, blk), view[inum].addrs, bytes)
  {
    var addrs := view[inum].addrs;
    forall k: nat | k < |bytes| ensures HoldsAt(Write(d, bn, blk), addrs, k, bytes[k]) {
      assert HoldsAt(d, addrs, k, bytes[k]);
      BlockIndex(k, |bytes|);
      FindUse(own, d, view, inum, k / BSIZE);
      FindSame(own, d, view, bn, blk, inum, k / BSIZE);
    }
  }

  lemma WriteKeepsMap(own: Uses, d: Disk, view: map<nat, Inode>, bn: nat, blk: Block)
    requires MapOk(own, d, view) && bn in own && own[bn].Data?
    ensures MapOk(own, Write(d, bn, blk), view)
  {
    forall x | x in own ensures BlockOk(own, own[x], At(Write(d, bn, blk), x)) {
      assert BlockOk(own, own[x], At(d, x));
    }
  }
}
