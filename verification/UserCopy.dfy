/**
  Copies between kernel and user memory (`walk_addr`, `copy_in`, `copy_out` in kernel/src/page_table.rs),
  and what they show of a fork: parent and child start equal and are then apart for good.
*/
module UserCopy {
  import opened Prelude
  import opened PageWalk
  import opened PageTable
  import opened UserSpace
  import opened AddressSpace

  /** The byte a user of `root` has at `va`, if it may be reached. */
  ghost function ByteAt(flat: Flat, frames: Frames, root: nat, va: nat): Option<nat> {
    var p := PageIn(va);
    if root in flat && p in flat[root]
        && IsUser(flat[root][p]) then FrameByte(frames, PhysAddr(flat[root][p]), va % PAGESIZE)
    else None
  }

  ghost function FrameByte(frames: Frames, f: nat, k: nat): Option<nat> {
    if f in frames && k < |frames[f]| then Some(frames[f][k]) else None
  }

  /** `walk_addr` of the page of `va`. */
  method WalkAddr(mem: PhysMem, root: nat, va: nat) returns (pa: Option<nat>)
    requires Users(mem) && root in mem.flat
    ensures pa.Some? <==> PageIn(va) in mem.flat[root] && IsUser(mem.flat[root][PageIn(va)])
    ensures pa.Some? ==>
              pa.value == PhysAddr(mem.flat[root][PageIn(va)]) && pa.value in mem.frames
                  && |mem.frames[pa.value]| == PAGESIZE
    ensures pa.Some? <==> ByteAt(mem.flat, mem.frames, root, va).Some?
  {
    var t := mem.Walk(root, va);
    if t.None? {
      return None;
    }
    var w := mem.tables[t.value][GetIndex(va, 0)];
    if !IsValid(w) || !IsUser(w) {
      return None;
    }
    assert HeldAt(mem.flat[root][PageIn(va)], root, PageIn(va), mem.frames, mem.holder, mem.ext);
    return Some(PhysAddr(w));
  }

  // ---- copy_in ----

  /** `bytes` is what the user has from `va` on. */
  ghost predicate Reads(flat: Flat, frames: Frames, root: nat, va: nat, bytes: seq<nat>) {
    forall k: nat :: k < |bytes| ==> ByteAt(flat, frames, root, va + k) == Some(bytes[k])
  }

  lemma ReadsMore(flat: Flat, frames: Frames, root: nat, va: nat, bytes: seq<nat>, n: nat)
    requires Reads(flat, frames, root, va, bytes)
    requires var at := va + |bytes|; at % PAGESIZE + n <= PAGESIZE
    requires root in flat && PageIn(va + |bytes|) in flat[root] && IsUser(flat[root][PageIn(va + |bytes|)])
    requires var f := PhysAddr(flat[root][PageIn(va + |bytes|)]); f in frames && |frames[f]| == PAGESIZE
    ensures var f, d := PhysAddr(flat[root][PageIn(va + |bytes|)]), (va + |bytes|) % PAGESIZE;
            Reads(flat, frames, root, va, bytes + frames[f][d..d + n])
  {
    var at := va + |bytes|;
    var f, d := PhysAddr(flat[root][PageIn(at)]), at % PAGESIZE;
    var all := bytes + frames[f][d..d + n];
    forall k: nat | k < |all| ensures ByteAt(flat, frames, root, va + k) == Some(all[k]) {
      if k >= |bytes| {
        SamePage(at, k - |bytes|);
      }
    }
  }

  lemma SamePage(va: nat, k: nat)
    requires va % PAGESIZE + k < PAGESIZE
    ensures PageIn(va + k) == PageIn(va) && (va + k) % PAGESIZE == va % PAGESIZE + k
  {
  }

  lemma Chunk(va: nat, left: nat)
    requires left > 0
    ensures var base := PageDown(va);
            && PageIn(base) == PageIn(va) && va - base == va % PAGESIZE
            && var n := Min(PAGESIZE - (va - base), left);
                0 < n <= left && va % PAGESIZE + n <= PAGESIZE && (n < left ==> va + n == base + PAGESIZE)
  {
  }

  lemma PagesApart(a: nat, m: nat)
    ensures (a + PAGESIZE * m) / PAGESIZE == a / PAGESIZE + m && (a + PAGESIZE * m) % PAGESIZE == a % PAGESIZE
  {
  }

  lemma SpacesApart(p: nat, m: nat)
    ensures (p + PAGES * m) % PAGES == p % PAGES
  {
  }

  /** An address that wraps around at 2^64 is in the same place. */
  lemma Wraps(a: nat)
    ensures PageIn(a % USIZE) == PageIn(a) && a % USIZE % PAGESIZE == a % PAGESIZE
  {
    var q, r := a / USIZE, a % USIZE;
    PagesApart(r, q * 0x10_0000_0000_0000);
    SpacesApart(r / PAGESIZE, q * 0x200_0000);
    assert a == r + USIZE * q;
  }

  lemma NextWraps(at: nat, va: nat, n: nat)
    requires va == at % USIZE
    ensures (va + n) % USIZE == (at + n) % USIZE
  {
    assert at == va + at / USIZE * USIZE;
  }

  /** `copy_in`: the bytes up to the first that may not be reached, or all of them. */
  method CopyIn(mem: PhysMem, root: nat, src: nat, count: nat) returns (ok: bool, bytes: seq<nat>)
    requires Users(mem) && root in mem.flat && src < USIZE
    ensures |bytes| <= count && (ok <==> |bytes| == count)
    ensures Reads(mem.flat, mem.frames, root, src, bytes)
    ensures !ok ==> ByteAt(mem.flat, mem.frames, root, src + |bytes|) == None
  {
    var va, left := src, count;
    bytes := [];
    while left > 0
      invariant left >= 0 && |bytes| + left == count && (left > 0 ==> va == (src + |bytes|) % USIZE)
      invariant Reads(mem.flat, mem.frames, root, src, bytes)
    {
      Chunk(va, left);
      Wraps(src + |bytes|);
      var base := PageDown(va);
      var pa := WalkAddr(mem, root, base);
      if pa.None? {
        return false, bytes;
      }
      var distance := va - base;
      var n := Min(PAGESIZE - distance, left);
      ReadsMore(mem.flat, mem.frames, root, src, bytes, n);
      NextWraps(src + |bytes|, va, n);
      bytes := bytes + mem.frames[pa.value][distance..distance + n];
      left := left - n;
      va := (base + PAGESIZE) % USIZE;
    }
    ok := true;
  }

  // ---- copy_out ----

  /** How far `v` lies behind `va`: addresses a multiple of 2^39 apart are the same place. */
  function Behind(va: nat, v: nat): (d: nat)
    ensures d < SPACE
  {
    (v - va) % SPACE
  }

  /** `root` has `bytes` from `va` on, and no other byte of any address space differs. */
  ghost predicate Wrote(flat: Flat, frames: Frames, frames': Frames, root: nat, va: nat, bytes: seq<nat>) {
    forall r: nat, v: nat :: ByteAt(flat, frames', r, v) ==
      if r == root && Behind(va, v) < |bytes| then Some(bytes[Behind(va, v)]) else ByteAt(flat, frames, r, v)
  }

  lemma WroteChunk(flat: Flat, frames: Frames, holder: map<nat, Slot>, ext: set<nat>, root: nat,
                   va: nat, bytes: seq<nat>)
    requires Held(flat, frames, holder, ext) && root in flat && PageIn(va) in flat[root]
             && IsUser(flat[root][PageIn(va)])
    requires var f := PhysAddr(flat[root][PageIn(va)]); f in frames && |frames[f]| == PAGESIZE
    requires va % PAGESIZE + |bytes| <= PAGESIZE
    ensures var f := PhysAddr(flat[root][PageIn(va)]);
            Wrote(flat, frames, frames[f := Splice(frames[f], va % PAGESIZE, bytes)], root, va, bytes)
  {
    var p := PageIn(va);
    var f := PhysAddr(flat[root][p]);
    var frames' := frames[f := Splice(frames[f], va % PAGESIZE, bytes)];
    assert HeldAt(flat[root][p], root, p, frames, holder, ext);
    forall r: nat, v: nat
      ensures ByteAt(flat, frames', r, v) == if r == root && Behind(va, v) < |bytes| then Some(bytes[Behind(va, v)])
              else ByteAt(flat, frames, r, v)
    {
      var q := PageIn(v);
      BehindInPage(va, v, |bytes|);
      if r == root && Behind(va, v) < |bytes| {
      } else if r in flat && q in flat[r] {
        assert HeldAt(flat[r][q], r, q, frames, holder, ext);
      }
    }
  }

  /** A short way behind `va` in its page is the same page, and nothing else of the page is. */
  lemma BehindInPage(va: nat, v: nat, n: nat)
    requires va % PAGESIZE + n <= PAGESIZE
    ensures Behind(va, v) < n <==> PageIn(v) == PageIn(va) && va % PAGESIZE <= v % PAGESIZE < va % PAGESIZE + n
    ensures Behind(va, v) < n ==> v % PAGESIZE == va % PAGESIZE + Behind(va, v)
  {
  }

  lemma WroteMore(flat: Flat, frames0: Frames, frames1: Frames, frames2: Frames, root: nat, va: nat, bytes: seq<nat>,
                  done: nat, n: nat)
    requires done + n <= |bytes| <= SPACE && Wrote(flat, frames0, frames1, root, va, bytes[..done])
    requires Wrote(flat, frames1, frames2, root, va + done, bytes[done..done + n])
    ensures Wrote(flat, frames0, frames2, root, va, bytes[..done + n])
  {
  }

  lemma WroteWraps(flat: Flat, frames: Frames, frames': Frames, root: nat, va: nat, at: nat, bytes: seq<nat>)
    requires Wrote(flat, frames, frames', root, va, bytes) && va == at % USIZE
    ensures Wrote(flat, frames, frames', root, at, bytes)
  {
    forall v: nat ensures Behind(at, v) == Behind(va, v) { SameBehind(at, va, v); }
  }

  lemma SameBehind(at: nat, va: nat, v: nat)
    requires va == at % USIZE
    ensures Behind(at, v) == Behind(va, v)
  {
    var q := at / USIZE;
    assert v - at == v - va - SPACE * (q * 0x200_0000);
  }

  lemma HeldFrames(flat: Flat, frames: Frames, frames': Frames, holder: map<nat, Slot>, ext: set<nat>)
    requires Held(flat, frames, holder, ext) && frames'.Keys == frames.Keys
    ensures Held(flat, frames', holder, ext)
  {
    forall r, p | r in flat && p in flat[r] ensures HeldAt(flat[r][p], r, p, frames', holder, ext) {
      assert HeldAt(flat[r][p], r, p, frames, holder, ext);
    }
    forall f | f in frames' ensures InUse(flat, holder, ext, f) {
      assert f in frames;
    }
  }

  /** The store into one page. */
  method WriteChunk(mem: PhysMem, root: nat, va: nat, bytes: seq<nat>, f: nat)
    requires Users(mem) && root in mem.flat && PageIn(va) in mem.flat[root] && IsUser(mem.flat[root][PageIn(va)])
    requires f == PhysAddr(mem.flat[root][PageIn(va)]) && f in mem.frames && |mem.frames[f]| == PAGESIZE
    requires va % PAGESIZE + |bytes| <= PAGESIZE
    modifies mem`frames
    ensures Users(mem) && Wrote(mem.flat, old(mem.frames), mem.frames, root, va, bytes)
  {
    WroteChunk(mem.flat, mem.frames, mem.holder, mem.ext, root, va, bytes);
    mem.frames := mem.frames[f := Splice(mem.frames[f], va % PAGESIZE, bytes)];
    HeldFrames(mem.flat, old(mem.frames), mem.frames, mem.holder, mem.ext);
    StillConserved(mem.tables, old(mem.frames), mem.pool, mem.tables, mem.frames, mem.pool, mem.pages);
  }

  /** `copy_out`: the bytes up to the first that may not be reached are written, and nothing else. */
  method CopyOut(mem: PhysMem, root: nat, dst: nat, src: seq<nat>) returns (ok: bool, ghost done: nat)
    requires Users(mem) && root in mem.flat && dst < USIZE && |src| <= SPACE
    modifies mem`frames
    ensures Users(mem) && done <= |src| && (ok <==> done == |src|)
    ensures Wrote(mem.flat, old(mem.frames), mem.frames, root, dst, src[..done])
    ensures !ok ==> ByteAt(mem.flat, old(mem.frames), root, dst + done) == None
  {
    var va, i := dst, 0;
    while i < |src|
      invariant i <= |src| && (i < |src| ==> va == (dst + i) % USIZE)
      invariant Users(mem) && Wrote(mem.flat, old(mem.frames), mem.frames, root, dst, src[..i])
    {
      Chunk(va, |src| - i);
      Wraps(dst + i);
      var base := PageDown(va);
      var pa := WalkAddr(mem, root, base);
      if pa.None? {
        return false, i;
      }
      var distance := va - base;
      var n := Min(PAGESIZE - distance, |src| - i);
      ghost var before := mem.frames;
      WriteChunk(mem, root, va, src[i..i + n], pa.value);
      WroteWraps(mem.flat, before, mem.frames, root, va, dst + i, src[i..i + n]);
      NextWraps(dst + i, va, n);
      WroteMore(mem.flat, old(mem.frames), before, mem.frames, root, dst, src, i, n);
      i := i + n;
      va := (base + PAGESIZE) % USIZE;
    }
    return true, i;
  }

  // ---- Fork ----

  /** After `uvm_copy` every byte below the size is the same in parent and child, and so are the flags of its page. */
  lemma ForkIsExact(flat0: Flat, frames0: Frames, flat: Flat, frames: Frames, parent: nat, child: nat, sz: nat, va: nat)
    requires Present(flat0, frames0, parent, PageCount(sz)) && parent != child && va < sz <= SPACE
    requires Extended(flat0, frames0, flat, frames, child, 0, PageCount(sz))
    requires Copied(flat0, frames0, flat, frames, parent, child, PageCount(sz))
    requires forall q: nat :: q in flat0[parent] ==> IsValid(flat0[parent][q])
    ensures var p := va / PAGESIZE;
            && p in flat[child] && p in flat[parent] && flat[parent] == flat0[parent]
            && GetFlag(flat[child][p]) == GetFlag(flat[parent][p])
                && PhysAddr(flat[child][p]) != PhysAddr(flat[parent][p])
    ensures ByteAt(flat, frames, child, va) == ByteAt(flat, frames, parent, va) == ByteAt(flat0, frames0, parent, va)
  {
    var p := va / PAGESIZE;
    CopyEnds(sz, p);
    assert ExtendedAt(flat0[child], frames0, flat[child], frames, 0, PageCount(sz), p)
           && FrameKept(frames0, frames, PhysAddr(flat0[parent][p]));
    assert PageShows(flat, frames, child, p, GetFlag(flat0[parent][p]), frames0[PhysAddr(flat0[parent][p])]);
    var w, w' := flat0[parent][p], flat[child][p];
    SplitFlags(w / 256, w % 256);
    SplitFlags(w' / 256, w' % 256);
  }

  datatype Store = Store(root: nat, va: nat, bytes: seq<nat>)

  /** `run` is what the frames were before, between and after the stores. */
  ghost predicate Stores(flat: Flat, run: seq<Frames>, stores: seq<Store>) {
    && |run| == |stores| + 1
    && forall i: nat :: i < |stores| ==> Wrote(flat, run[i], run[i + 1], stores[i].root, stores[i].va, stores[i].bytes)
  }

  /** The last store to a byte, or what was there at first. */
  function LastStore(stores: seq<Store>, root: nat, va: nat, first: Option<nat>): Option<nat> {
    if stores == [] then first
    else
      var s := stores[|stores| - 1];
      if s.root == root && Behind(s.va, va) < |s.bytes| then Some(s.bytes[Behind(s.va, va)])
      else LastStore(stores[..|stores| - 1], root, va, first)
  }

  /** Over any run of `copy_out`s into any address spaces, each space is a memory of its own. */
  lemma {:induction false} SpacesAreApart(flat: Flat, run: seq<Frames>, stores: seq<Store>, root: nat, va: nat)
    requires Stores(flat, run, stores)
    ensures ByteAt(flat, run[|stores|], root, va) == LastStore(stores, root, va, ByteAt(flat, run[0], root, va))
  {
    if stores != [] {
      var n := |stores| - 1;
      assert Stores(flat, run[..|run| - 1], stores[..n]);
      SpacesAreApart(flat, run[..|run| - 1], stores[..n], root, va);
      assert Wrote(flat, run[n], run[n + 1], stores[n].root, stores[n].va, stores[n].bytes);
    }
  }

  /** However the rest of the system writes after a fork, the child keeps the bytes the parent had then. */
  lemma ForkIsolation(flat0: Flat, frames0: Frames, flat: Flat, run: seq<Frames>, stores: seq<Store>, parent: nat,
                      child: nat, sz: nat, va: nat)
    requires Stores(flat, run, stores) && forall s :: s in stores ==> s.root != child
    requires Present(flat0, frames0, parent, PageCount(sz)) && parent != child && va < sz <= SPACE
    requires Extended(flat0, frames0, flat, run[0], child, 0, PageCount(sz))
    requires Copied(flat0, frames0, flat, run[0], parent, child, PageCount(sz))
    requires forall q: nat :: q in flat0[parent] ==> IsValid(flat0[parent][q])
    ensures ByteAt(flat, run[|stores|], child, va) == ByteAt(flat0, frames0, parent, va)
  {
    ForkIsExact(flat0, frames0, flat, run[0], parent, child, sz, va);
    SpacesAreApart(flat, run, stores, child, va);
    NotStored(stores, child, va, ByteAt(flat, run[0], child, va));
  }

  lemma {:induction false} NotStored(stores: seq<Store>, root: nat, va: nat, first: Option<nat>)
    requires forall s :: s in stores ==> s.root != root
    ensures LastStore(stores, root, va, first) == first
  {
    if stores != [] {
      assert stores[|stores| - 1] in stores;
      NotStored(stores[..|stores| - 1], root, va, first);
    }
  }
}
