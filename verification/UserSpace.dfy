/**
  User address spaces on top of the page tables (kernel/src/page_table.rs): growing and shrinking,
  the copy made by fork, copies between kernel and user memory, and the end of an address space.
*/
module UserSpace {
  import opened Prelude
  import opened PageWalk
  import opened TableCost
  import opened PageTable

  const TRAMPOLINE_PAGE: nat := 0x3ff_ffff // MAXVA is 2^38
  const TRAPFRAME_PAGE: nat := 0x3ff_fffe
  const USERPERM: nat := 30 // READ, WRITE, EXEC and USER

  /** The number of pages that `sz` bytes from address 0 on take. */
  function PageCount(sz: nat): nat {
    PageUp(sz) / PAGESIZE
  }

  // ---- Every frame is mapped once ----

  /** A mapped page has a data frame of its own, or one from outside that no user access reaches. */
  ghost predicate HeldAt(w: nat, r: nat, p: nat, frames: Frames, holder: map<nat, Slot>, ext: set<nat>) {
    && IsLeaf(w)
    && var f := PhysAddr(w);
       if f in ext then !IsUser(w) else f in frames && f in holder && holder[f] == Slot(r, p)
  }

  /** The slot that holds frame `f` is mapped to it. */
  ghost predicate InUse(flat: Flat, holder: map<nat, Slot>, ext: set<nat>, f: nat) {
    && f !in ext && f in holder
    && var s := holder[f];
       s.root in flat && s.page in flat[s.root] && PhysAddr(flat[s.root][s.page]) == f
  }

  ghost predicate Held(flat: Flat, frames: Frames, holder: map<nat, Slot>, ext: set<nat>) {
    && (forall r, p {:trigger HeldAt(flat[r][p], r, p, frames, holder, ext)} ::
          r in flat && p in flat[r] ==> HeldAt(flat[r][p], r, p, frames, holder, ext))
    && (forall f {:trigger InUse(flat, holder, ext, f)} :: f in frames ==> InUse(flat, holder, ext, f))
  }

  ghost predicate Users(mem: PhysMem)
    reads mem
  {
    mem.Valid() && Held(mem.flat, mem.frames, mem.holder, mem.ext) && mem.ext !! mem.pages
  }

  lemma HoldMore(flat: Flat, frames: Frames, holder: map<nat, Slot>, ext: set<nat>, root: nat, p: nat, f: nat,
                 perm: nat, data: seq<nat>)
    requires Held(flat, frames, holder, ext) && root in flat && p !in flat[root] && f !in frames && f !in ext
    requires f % PAGESIZE == 0 && perm < 256 && perm / 2 % 8 != 0
    ensures Held(Put(flat, root, p, Entry(f, perm)), frames[f := data], holder[f := Slot(root, p)], ext)
  {
    EntryRoundTrip(f, perm);
    var flat', holder' := Put(flat, root, p, Entry(f, perm)), holder[f := Slot(root, p)];
    forall r, q | r in flat' && q in flat'[r] ensures HeldAt(flat'[r][q], r, q, frames[f := data], holder', ext) {
      if !(r == root && q == p) { assert HeldAt(flat[r][q], r, q, frames, holder, ext); }
    }
    forall g | g in frames[f := data] ensures InUse(flat', holder', ext, g) {
      if g != f { assert InUse(flat, holder, ext, g); }
    }
  }

  lemma TakeBack(frames: Frames, f: nat, data: seq<nat>)
    requires f !in frames
    ensures frames[f := data] - {f} == frames
  {
  }

  /** A new page holding `data`, mapped at page `p`: the steps `uvm_alloc` and `uvm_copy` have in common. */
  method NewPage(mem: PhysMem, root: nat, va: nat, perm: nat, data: seq<nat>, ghost p: nat)
    returns (ok: bool, ghost f: nat)
    requires Users(mem) && root in mem.flat && va == p * PAGESIZE && p < PAGES
    requires perm < 256 && perm / 2 % 8 != 0 && |data| == PAGESIZE
    modifies mem
    ensures Users(mem)
    ensures ok <==> p !in old(mem.flat)[root] && 1 + Lacking(old(mem.tables), root, p) <= |old(mem.pool)|
    ensures ok ==>
              Supplied(old(mem.tables), mem.tables, root, p)
                  && |mem.pool| == |old(mem.pool)| - 1 - Lacking(old(mem.tables), root, p)
    ensures ok ==> f !in old(mem.frames) && f % PAGESIZE == 0
    ensures ok ==> mem.flat == Put(old(mem.flat), root, p, Entry(f, perm)) && mem.frames == old(mem.frames)[f := data]
    ensures !ok ==> mem.flat == old(mem.flat) && mem.frames == old(mem.frames)
  {
    var page := mem.TakeFrame(data);
    if page.None? {
      return false, 0;
    }
    f := page.value;
    ok := mem.MapOne(root, va, page.value, perm, p);
    if ok {
      HoldMore(old(mem.flat), old(mem.frames), old(mem.holder), mem.ext, root, p, page.value, perm, data);
      mem.holder := mem.holder[page.value := Slot(root, p)];
    } else {
      TakeBack(old(mem.frames), page.value, data);
      mem.FreeFrame(page.value);
    }
  }

  // ---- Growing ----

  /** The pages from `p` to `x` were added to `root`, on frames that are new; nothing else changed. */
  ghost predicate Extended(flat: Flat, frames: Frames, flat': Flat, frames': Frames, root: nat, p: nat, x: nat) {
    && root in flat && root in flat' && flat' == flat[root := flat'[root]]
    && (forall q: nat {:trigger ExtendedAt(flat[root], frames, flat'[root], frames', p, x, q)} ::
          ExtendedAt(flat[root], frames, flat'[root], frames', p, x, q))
    && (forall f {:trigger FrameKept(frames, frames', f)} :: f in frames ==> FrameKept(frames, frames', f))
  }

  predicate ExtendedAt(m: map<nat, nat>, frames: Frames, m': map<nat, nat>, frames': Frames, p: nat, x: nat, q: nat) {
    && (q in m' <==> q in m || p <= q < x) && (q in m ==> m'[q] == m[q] && !(p <= q < x))
    && (p <= q < x ==> PhysAddr(m'[q]) in frames' && PhysAddr(m'[q]) !in frames)
  }

  predicate FrameKept(frames: Frames, frames': Frames, f: nat) {
    f in frames && f in frames' && frames'[f] == frames[f]
  }

  lemma ExtendedNext(flat: Flat, frames: Frames, flat1: Flat, frames1: Frames, root: nat, p: nat, x: nat, f: nat,
                     perm: nat, data: seq<nat>)
    requires Extended(flat, frames, flat1, frames1, root, p, x) && p <= x && x !in flat1[root] && f !in frames1
    requires f % PAGESIZE == 0 && perm < 256
    ensures var flat2, frames2 := Put(flat1, root, x, Entry(f, perm)), frames1[f := data];
            && Extended(flat, frames, flat2, frames2, root, p, x + 1)
            && PageShows(flat2, frames2, root, x, perm, data)
            && Showing(flat1, frames1, flat2, frames2, root, x)
  {
    EntryRoundTrip(f, perm);
    assert f in frames ==> FrameKept(frames, frames1, f);
    var flat2, frames2, y := Put(flat1, root, x, Entry(f, perm)), frames1[f := data], x + 1;
    forall q: nat ensures ExtendedAt(flat[root], frames, flat2[root], frames2, p, y, q) {
      assert ExtendedAt(flat[root], frames, flat1[root], frames1, p, x, q);
    }
    forall g | g in frames ensures FrameKept(frames, frames2, g) { assert FrameKept(frames, frames1, g); }
  }

  /** Page `q` is mapped with flags `perm`, and its frame holds `data`. */
  ghost predicate PageShows(flat: Flat, frames: Frames, root: nat, q: nat, perm: nat, data: seq<nat>) {
    && root in flat && q in flat[root] && PhysAddr(flat[root][q]) in frames
    && GetFlag(flat[root][q]) == (if perm % 2 == 1 then perm else perm + 1)
    && frames[PhysAddr(flat[root][q])] == data
  }

  /** What `uvm_alloc` adds: zeroed pages for the user to read, write and execute. */
  ghost predicate Zeroed(flat: Flat, frames: Frames, root: nat, p: nat, x: nat) {
    forall q: nat :: p <= q < x ==> PageShows(flat, frames, root, q, USERPERM, Zeros(PAGESIZE))
  }

  lemma NothingExtended(flat: Flat, frames: Frames, root: nat, p: nat)
    requires root in flat
    ensures Extended(flat, frames, flat, frames, root, p, p)
  {
  }

  /** One more page, page `x`, on top of those added since `flat` and `frames`. */
  method NextPage(mem: PhysMem, root: nat, va: nat, perm: nat, data: seq<nat>, ghost flat: Flat, ghost frames: Frames,
                  ghost p: nat, ghost x: nat)
    returns (ok: bool)
    requires Users(mem) && va == x * PAGESIZE && p <= x < PAGES
    requires perm < 256 && perm / 2 % 8 != 0 && |data| == PAGESIZE
    requires Extended(flat, frames, mem.flat, mem.frames, root, p, x)
    modifies mem
    ensures Users(mem)
    ensures if ok then Extended(flat, frames, mem.flat, mem.frames, root, p, x + 1)
            else Extended(flat, frames, mem.flat, mem.frames, root, p, x)
    ensures ok <==> x !in flat[root] && 1 + Lacking(old(mem.tables), root, x) <= |old(mem.pool)|
    ensures ok ==>
              Supplied(old(mem.tables), mem.tables, root, x)
                  && |mem.pool| == |old(mem.pool)| - 1 - Lacking(old(mem.tables), root, x)
    ensures ok ==> PageShows(mem.flat, mem.frames, root, x, perm, data)
    ensures Showing(old(mem.flat), old(mem.frames), mem.flat, mem.frames, root, x)
  {
    ghost var f;
    assert ExtendedAt(flat[root], frames, mem.flat[root], mem.frames, p, x, x);
    ok, f := NewPage(mem, root, va, perm, data, x);
    if ok {
      ExtendedNext(flat, frames, old(mem.flat), old(mem.frames), root, p, x, f, perm, data);
    }
  }

  /** There is no way to map page `x` to a new frame. */
  predicate Stuck(m: map<nat, nat>, tables: Tables, root: nat, stock: nat, x: nat) {
    x in m || stock < 1 + Lacking(tables, root, x)
  }

  /** The free pages that are left over when the pages from `x` to `hi` are given a frame and the tables they lack. */
  function Left(tables: Tables, root: nat, stock: nat, x: nat, hi: nat): int {
    stock - (hi - x) - Cost(tables, root, x, hi)
  }

  /** No page from `p` to `hi` is mapped, and there is memory for all of them. */
  ghost predicate Room(m: map<nat, nat>, tables: Tables, root: nat, stock: nat, p: nat, hi: nat) {
    Clear(m, p, hi) && 0 <= Left(tables, root, stock, p, hi)
  }

  lemma LeftNext(t0: Tables, t1: Tables, root: nat, stock: nat, stock': nat, x: nat, hi: nat)
    requires x < hi <= PAGES
    ensures stock < 1 + Lacking(t0, root, x) ==> Left(t0, root, stock, x, hi) < 0
    ensures Supplied(t0, t1, root, x) && stock' == stock - 1 - Lacking(t0, root, x) ==>
              Left(t1, root, stock', x + 1, hi) == Left(t0, root, stock, x, hi)
  {
    CostAtLeast(t0, root, x, hi);
    if Supplied(t0, t1, root, x) { CostNext(t0, t1, root, x, hi); }
  }

  /** What the pages below `p` show, they still show. */
  ghost predicate Showing(flat: Flat, frames: Frames, flat': Flat, frames': Frames, root: nat, p: nat) {
    forall q: nat, perm: nat, data: seq<nat> {:trigger PageShows(flat', frames', root, q, perm, data)} ::
      q < p && PageShows(flat, frames, root, q, perm, data) ==> PageShows(flat', frames', root, q, perm, data)
  }

  lemma ZeroedNext(flat: Flat, frames: Frames, flat': Flat, frames': Frames, root: nat, p: nat, x: nat)
    requires Zeroed(flat, frames, root, p, x) && Showing(flat, frames, flat', frames', root, x)
    ensures Zeroed(flat', frames', root, p, x)
    ensures PageShows(flat', frames', root, x, USERPERM, Zeros(PAGESIZE)) ==> Zeroed(flat', frames', root, p, x + 1)
  {
  }

  /** One round of the loop of `uvm_alloc`. */
  method GrowStep(mem: PhysMem, root: nat, va: nat, ghost flat: Flat, ghost frames: Frames, ghost p: nat, ghost x: nat,
                  ghost hi: nat, ghost left: int)
    returns (ok: bool)
    requires Users(mem) && va == x * PAGESIZE && p <= x < hi <= PAGES
             && Left(mem.tables, root, |mem.pool|, x, hi) == left
    requires Extended(flat, frames, mem.flat, mem.frames, root, p, x) && Zeroed(mem.flat, mem.frames, root, p, x)
    modifies mem
    ensures Users(mem)
    ensures if ok then Extended(flat, frames, mem.flat, mem.frames, root, p, x + 1)
            else Extended(flat, frames, mem.flat, mem.frames, root, p, x)
    ensures if ok then Zeroed(mem.flat, mem.frames, root, p, x + 1) else Zeroed(mem.flat, mem.frames, root, p, x)
    ensures ok <==> !Stuck(flat[root], old(mem.tables), root, |old(mem.pool)|, x)
    ensures if ok then Left(mem.tables, root, |mem.pool|, x + 1, hi) == left else left < 0 || x in flat[root]
  {
    ok := NextPage(mem, root, va, USERPERM, Zeros(PAGESIZE), flat, frames, p, x);
    LeftNext(old(mem.tables), mem.tables, root, |old(mem.pool)|, |mem.pool|, x, hi);
    ZeroedNext(old(mem.flat), old(mem.frames), mem.flat, mem.frames, root, p, x);
  }

  /** The loop of `uvm_alloc`, over the pages from `p` to `hi`: it came as far as page `x`. */
  method GrowLoop(mem: PhysMem, root: nat, start: nat, end: nat, ghost p: nat, ghost hi: nat)
    returns (ok: bool, ghost x: nat)
    requires Users(mem) && root in mem.flat && start == p * PAGESIZE && p <= hi <= PAGES
    requires (hi == p || (hi - 1) * PAGESIZE < end) && end <= hi * PAGESIZE
    modifies mem
    ensures Users(mem) && p <= x <= hi && (ok <==> x == hi)
    ensures Extended(old(mem.flat), old(mem.frames), mem.flat, mem.frames, root, p, x)
    ensures Zeroed(mem.flat, mem.frames, root, p, x)
    ensures ok ==> |mem.pool| == Left(old(mem.tables), root, |old(mem.pool)|, p, hi)
    ensures !ok ==> Left(old(mem.tables), root, |old(mem.pool)|, p, hi) < 0 || x in old(mem.flat)[root]
    ensures p < hi ==> (x == p <==> Stuck(old(mem.flat)[root], old(mem.tables), root, |old(mem.pool)|, p))
  {
    var va := start;
    x := p;
    NothingExtended(mem.flat, mem.frames, root, p);
    ghost var left := Left(mem.tables, root, |mem.pool|, p, hi);
    ghost var stuck := Stuck(mem.flat[root], mem.tables, root, |mem.pool|, p);
    while va < end
      invariant Users(mem) && p <= x <= hi && va == x * PAGESIZE
      invariant Extended(old(mem.flat), old(mem.frames), mem.flat, mem.frames, root, p, x)
      invariant Zeroed(mem.flat, mem.frames, root, p, x)
      invariant Left(mem.tables, root, |mem.pool|, x, hi) == left
      invariant stuck == (x == p && Stuck(old(mem.flat)[root], mem.tables, root, |mem.pool|, x))
    {
      ok := GrowStep(mem, root, va, old(mem.flat), old(mem.frames), p, x, hi, left);
      if !ok {
        return false, x;
      }
      va, x := va + PAGESIZE, x + 1;
    }
    ok := true;
  }

  /**
    `uvm_alloc`.  It succeeds if and only if no page of the range is mapped and there is memory for the pages and the
    tables they lack.  On failure the pages before page `x` stay: the roll-back is a call of `uvm_dealloc` with
    the larger size second, which returns at once.
  */
  method UvmAlloc(mem: PhysMem, root: nat, oldsz: nat, newsz: nat) returns (ok: bool, size: nat, ghost x: nat)
    requires Users(mem) && root in mem.flat && newsz <= PAGES * PAGESIZE
    modifies mem
    ensures Users(mem)
    ensures newsz <= oldsz ==> ok && size == oldsz && x == PageCount(oldsz)
    ensures newsz > oldsz && ok ==> size == newsz && x == PageCount(newsz)
    ensures !ok ==> PageCount(oldsz) <= x < PageCount(newsz)
    ensures newsz > oldsz ==>
              var p, hi := PageCount(oldsz), PageCount(newsz);
              && (ok <==> Room(old(mem.flat)[root], old(mem.tables), root, |old(mem.pool)|, p, hi))
              && (ok ==> |mem.pool| == Left(old(mem.tables), root, |old(mem.pool)|, p, hi))
              && (!ok ==> (x == p <==> Stuck(old(mem.flat)[root], old(mem.tables), root, |old(mem.pool)|, p)))
    ensures Extended(old(mem.flat), old(mem.frames), mem.flat, mem.frames, root, PageCount(oldsz), x)
    ensures Zeroed(mem.flat, mem.frames, root, PageCount(oldsz), x)
  {
    ghost var p := PageCount(oldsz);
    if newsz <= oldsz {
      NothingExtended(mem.flat, mem.frames, root, p);
      return true, oldsz, p;
    }
    Growth(oldsz, newsz);
    ok, x := GrowLoop(mem, root, PageUp(oldsz), newsz, p, PageCount(newsz));
    WasClear(old(mem.flat), old(mem.frames), mem.flat, mem.frames, root, p, x);
    size := newsz;
  }

  lemma WasClear(flat: Flat, frames: Frames, flat': Flat, frames': Frames, root: nat, p: nat, x: nat)
    requires Extended(flat, frames, flat', frames', root, p, x)
    ensures Clear(flat[root], p, x) && (Vacant(flat[root], x) <==> x !in flat[root])
  {
    forall q: nat | p <= q < x ensures Vacant(flat[root], q) {
      assert ExtendedAt(flat[root], frames, flat'[root], frames', p, x, q);
    }
  }

  lemma Growth(oldsz: nat, newsz: nat)
    requires oldsz < newsz <= PAGES * PAGESIZE
    ensures var p, q := PageCount(oldsz), PageCount(newsz);
      && PageUp(oldsz) == p * PAGESIZE && p <= q <= PAGES
      && newsz <= q * PAGESIZE && (p < q ==> (q - 1) * PAGESIZE < newsz)
  {
  }

  // ---- The copy made by fork ----

  /** The pages below `n`: mapped, on data frames. */
  ghost predicate Present(flat: Flat, frames: Frames, root: nat, n: nat) {
    root in flat && forall q: nat :: q < n ==> q in flat[root] && PhysAddr(flat[root][q]) in frames
  }

  /** The first `n` pages of `child` show what those of `parent` showed in `flat0` and `frames0`. */
  ghost predicate Copied(flat0: Flat, frames0: Frames, flat: Flat, frames: Frames, parent: nat, child: nat, n: nat)
    requires Present(flat0, frames0, parent, n)
  {
    forall q: nat :: q < n ==>
      PageShows(flat, frames, child, q, GetFlag(flat0[parent][q]), frames0[PhysAddr(flat0[parent][q])])
  }

  lemma FlagsOfLeaf(w: nat)
    requires IsLeaf(w) && IsValid(w)
    ensures GetFlag(w) < 256 && GetFlag(w) / 2 % 8 != 0 && GetFlag(w) % 2 == 1
  {
    SplitFlags(w / 256, w % 256);
  }

  lemma SplitFlags(q: nat, f: nat)
    requires f < 256
    ensures var w := q * 256 + f; w % 2 == f % 2 && w / 2 % 8 == f / 2 % 8 && w / 16 % 2 == f / 16 % 2
  {
    var w := q * 256 + f;
    assert w / 2 == q * 128 + f / 2;
    assert w / 16 == q * 16 + f / 16;
  }

  lemma CopiedNext(flat0: Flat, frames0: Frames, flat: Flat, frames: Frames, flat': Flat, frames': Frames, parent: nat,
                   child: nat, n: nat)
    requires Present(flat0, frames0, parent, n + 1) && Copied(flat0, frames0, flat, frames, parent, child, n)
    requires Showing(flat, frames, flat', frames', child, n)
    ensures Copied(flat0, frames0, flat', frames', parent, child, n)
    ensures PageShows(flat', frames', child, n, GetFlag(flat0[parent][n]), frames0[PhysAddr(flat0[parent][n])]) ==>
              Copied(flat0, frames0, flat', frames', parent, child, n + 1)
  {
  }

  /** The entry of a page that `uvm_copy` finds in the parent. */
  method SourcePage(mem: PhysMem, root: nat, va: nat, ghost p: nat) returns (w: nat)
    requires Users(mem) && root in mem.flat && va == p * PAGESIZE && p < PAGES && p in mem.flat[root]
    ensures w == mem.flat[root][p] && IsLeaf(w) && IsValid(w)
  {
    PageOf(va, p);
    var t := mem.Walk(root, va);
    w := mem.tables[t.value][GetIndex(va, 0)];
    assert HeldAt(mem.flat[root][p], root, p, mem.frames, mem.holder, mem.ext);
  }

  /** One page of `uvm_copy`: a new frame with the parent's bytes, mapped with the parent's flags. */
  method CopyPage(mem: PhysMem, parent: nat, child: nat, va: nat, ghost flat: Flat, ghost frames: Frames, ghost n: nat)
    returns (ok: bool)
    requires Users(mem) && parent != child && va == n * PAGESIZE && n < PAGES
    requires Present(flat, frames, parent, n + 1)
    requires Extended(flat, frames, mem.flat, mem.frames, child, 0, n)
    modifies mem
    ensures Users(mem)
    ensures if ok then Extended(flat, frames, mem.flat, mem.frames, child, 0, n + 1)
            else Extended(flat, frames, mem.flat, mem.frames, child, 0, n)
    ensures ok <==> n !in flat[child] && 1 + Lacking(old(mem.tables), child, n) <= |old(mem.pool)|
    ensures ok ==>
              Supplied(old(mem.tables), mem.tables, child, n)
                  && |mem.pool| == |old(mem.pool)| - 1 - Lacking(old(mem.tables), child, n)
    ensures ok ==>
              PageShows(mem.flat, mem.frames, child, n, GetFlag(flat[parent][n]), frames[PhysAddr(flat[parent][n])])
    ensures Showing(old(mem.flat), old(mem.frames), mem.flat, mem.frames, child, n)
  {
    assert FrameKept(frames, mem.frames, PhysAddr(flat[parent][n]));
    var w := SourcePage(mem, parent, va, n);
    FlagsOfLeaf(w);
    ok := NextPage(mem, child, va, GetFlag(w), mem.frames[PhysAddr(w)], flat, frames, 0, n);
  }

  /** One round of the loop of `uvm_copy`. */
  method CopyStep(mem: PhysMem, parent: nat, child: nat, va: nat, ghost flat: Flat, ghost frames: Frames, ghost n: nat,
                  ghost hi: nat, ghost left: int)
    returns (ok: bool)
    requires Users(mem) && parent != child && va == n * PAGESIZE && n < hi <= PAGES
             && Left(mem.tables, child, |mem.pool|, n, hi) == left
    requires Present(flat, frames, parent, hi) && Extended(flat, frames, mem.flat, mem.frames, child, 0, n)
    requires Copied(flat, frames, mem.flat, mem.frames, parent, child, n)
    modifies mem
    ensures Users(mem)
    ensures if ok then Extended(flat, frames, mem.flat, mem.frames, child, 0, n + 1)
            else Extended(flat, frames, mem.flat, mem.frames, child, 0, n)
    ensures if ok then Copied(flat, frames, mem.flat, mem.frames, parent, child, n + 1)
            else Copied(flat, frames, mem.flat, mem.frames, parent, child, n)
    ensures if ok then Left(mem.tables, child, |mem.pool|, n + 1, hi) == left else left < 0 || n in flat[child]
  {
    ok := CopyPage(mem, parent, child, va, flat, frames, n);
    LeftNext(old(mem.tables), mem.tables, child, |old(mem.pool)|, |mem.pool|, n, hi);
    CopiedNext(flat, frames, old(mem.flat), old(mem.frames), mem.flat, mem.frames, parent, child, n);
  }

  /**
    `uvm_copy`.  It succeeds if and only if none of the pages is mapped in the child and there is memory for the pages
    and the tables they lack.  On failure the `done` pages copied so far stay.
  */
  method UvmCopy(mem: PhysMem, parent: nat, child: nat, sz: nat) returns (ok: bool, ghost done: nat)
    requires Users(mem) && parent != child && child in mem.flat && sz <= PAGES * PAGESIZE
    requires Present(mem.flat, mem.frames, parent, PageCount(sz))
    modifies mem
    ensures Users(mem) && done <= PageCount(sz) && (ok <==> done == PageCount(sz))
    ensures ok <==> Room(old(mem.flat)[child], old(mem.tables), child, |old(mem.pool)|, 0, PageCount(sz))
    ensures Extended(old(mem.flat), old(mem.frames), mem.flat, mem.frames, child, 0, done)
    ensures Copied(old(mem.flat), old(mem.frames), mem.flat, mem.frames, parent, child, done)
  {
    var va := 0;
    done := 0;
    ghost var n := PageCount(sz);
    ghost var left := Left(mem.tables, child, |mem.pool|, 0, n);
    NothingExtended(mem.flat, mem.frames, child, 0);
    while va < sz
      invariant Users(mem) && done <= n && va == done * PAGESIZE
      invariant Extended(old(mem.flat), old(mem.frames), mem.flat, mem.frames, child, 0, done)
      invariant Copied(old(mem.flat), old(mem.frames), mem.flat, mem.frames, parent, child, done)
      invariant Left(mem.tables, child, |mem.pool|, done, n) == left
    {
      CopyEnds(sz, done);
      ok := CopyStep(mem, parent, child, va, old(mem.flat), old(mem.frames), done, n, left);
      if !ok {
        WasClear(old(mem.flat), old(mem.frames), mem.flat, mem.frames, child, 0, done);
        return false, done;
      }
      va, done := va + PAGESIZE, done + 1;
    }
    CopyEnds(sz, done);
    WasClear(old(mem.flat), old(mem.frames), mem.flat, mem.frames, child, 0, done);
    ok := true;
  }

  lemma CopyEnds(sz: nat, done: nat)
    ensures PageCount(sz) <= done <==> sz <= done * PAGESIZE
    ensures sz <= PAGES * PAGESIZE ==> PageCount(sz) <= PAGES
  {
  }

  // ---- Shrinking ----

  /** The mapped pages of the range are on data frames. */
  ghost predicate OnData(flat: Flat, root: nat, p: nat, n: nat, ext: set<nat>) {
    root in flat && forall q: nat :: p <= q < p + n && q in flat[root] ==> PhysAddr(flat[root][q]) !in ext
  }

  lemma {:induction false} FramesHeld(flat: Flat, frames: Frames, holder: map<nat, Slot>, ext: set<nat>, root: nat,
                                      p: nat, n: nat, f: nat)
    requires Held(flat, frames, holder, ext) && OnData(flat, root, p, n, ext)
    ensures f in FramesOf(flat[root], p, n) <==>
              f in frames && InUse(flat, holder, ext, f) && holder[f].root == root && p <= holder[f].page < p + n
  {
    if n == 0 {
    } else {
      FramesHeld(flat, frames, holder, ext, root, p, n - 1, f);
      var q := p + n - 1;
      if q in flat[root] { assert HeldAt(flat[root][q], root, q, frames, holder, ext); }
      if f in frames { assert InUse(flat, holder, ext, f); }
    }
  }

  lemma HeldOwnFrames(flat: Flat, frames: Frames, holder: map<nat, Slot>, ext: set<nat>, root: nat, p: nat, n: nat)
    requires Held(flat, frames, holder, ext) && OnData(flat, root, p, n, ext)
    ensures OwnFrames(flat[root], frames, p, n)
  {
    forall q: nat | p <= q < p + n && q in flat[root]
      ensures PhysAddr(flat[root][q]) in frames && PhysAddr(flat[root][q]) in holder
              && holder[PhysAddr(flat[root][q])] == Slot(root, q) {
      assert HeldAt(flat[root][q], root, q, frames, holder, ext);
    }
  }

  lemma HoldLess(flat: Flat, frames: Frames, flat': Flat, frames': Frames, holder: map<nat, Slot>, ext: set<nat>,
                 root: nat, p: nat, n: nat)
    requires Held(flat, frames, holder, ext) && OnData(flat, root, p, n, ext)
    requires Unmapped(flat, frames, flat', frames', root, p, n, true)
    ensures Held(flat', frames', holder, ext)
  {
    RangeIs(p, n);
    forall r, q | r in flat' && q in flat'[r] ensures HeldAt(flat'[r][q], r, q, frames', holder, ext) {
      assert HeldAt(flat[r][q], r, q, frames, holder, ext);
      FramesHeld(flat, frames, holder, ext, root, p, n, PhysAddr(flat[r][q]));
    }
    forall f | f in frames' ensures InUse(flat', holder, ext, f) {
      assert InUse(flat, holder, ext, f);
      FramesHeld(flat, frames, holder, ext, root, p, n, f);
    }
  }

  /** `unmap_pages` with `freeing`, where the pages are on data frames: each frame goes back once. */
  method FreePages(mem: PhysMem, root: nat, va: nat, n: nat, ghost p: nat) returns (ok: bool, ghost done: nat)
    requires Users(mem) && va == p * PAGESIZE && p + n <= PAGES && OnData(mem.flat, root, p, n, mem.ext)
    modifies mem
    ensures Users(mem) && mem.holder == old(mem.holder) && done <= n && (ok <==> done == n)
    ensures Unmapped(old(mem.flat), old(mem.frames), mem.flat, mem.frames, root, p, done, true)
    ensures ok <==> forall q: nat :: p <= q < p + n ==> q in old(mem.flat)[root]
  {
    HeldOwnFrames(mem.flat, mem.frames, mem.holder, mem.ext, root, p, n);
    AllLeaves(mem.flat, mem.frames, mem.holder, mem.ext, root);
    ok, done := mem.UnmapPages(root, va, n, true, p);
    HoldLess(old(mem.flat), old(mem.frames), mem.flat, mem.frames, mem.holder, mem.ext, root, p, done);
  }

  lemma AllLeaves(flat: Flat, frames: Frames, holder: map<nat, Slot>, ext: set<nat>, root: nat)
    requires Held(flat, frames, holder, ext) && root in flat
    ensures forall q: nat :: q in flat[root] ==> IsLeaf(flat[root][q])
    ensures forall q: nat :: Mapping(flat, root, q) <==> q in flat[root]
  {
    forall q: nat | q in flat[root] ensures IsLeaf(flat[root][q]) {
      assert HeldAt(flat[root][q], root, q, frames, holder, ext);
    }
  }

  /** `uvm_dealloc`: the size it returns is rounded up to whole pages. */
  method UvmDealloc(mem: PhysMem, root: nat, oldsz: nat, newsz: nat) returns (ok: bool, size: nat, ghost done: nat)
    requires Users(mem) && root in mem.flat && oldsz <= PAGES * PAGESIZE
    requires newsz < oldsz ==> OnData(mem.flat, root, PageCount(newsz), PageCount(oldsz) - PageCount(newsz), mem.ext)
    modifies mem
    ensures Users(mem)
    ensures newsz >= oldsz ==> ok && size == oldsz && mem.flat == old(mem.flat) && mem.frames == old(mem.frames)
    ensures newsz < oldsz ==>
              (ok <==> forall q: nat :: PageCount(newsz) <= q < PageCount(oldsz) ==> q in old(mem.flat)[root])
    ensures newsz < oldsz && ok ==> size == PageUp(newsz) && PageCount(newsz) + done == PageCount(oldsz)
    ensures newsz < oldsz ==>
              Unmapped(old(mem.flat), old(mem.frames), mem.flat, mem.frames, root, PageCount(newsz), done, true)
  {
    if newsz >= oldsz {
      return true, oldsz, 0;
    }
    Growth(newsz, oldsz);
    var from, to := PageUp(newsz), PageUp(oldsz);
    if from < to {
      ok, done := FreePages(mem, root, from, (to - from) / PAGESIZE, PageCount(newsz));
      if !ok {
        return false, 0, done;
      }
    } else {
      NothingUnmapped(mem.flat, mem.frames, root, PageCount(newsz), true);
      done := 0;
    }
    return true, from, done;
  }
}
