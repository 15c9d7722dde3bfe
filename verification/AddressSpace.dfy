/**
  The life of a user address space (kernel/src/page_table.rs, `sys_sbrk` in kernel/src/proc/syscall.rs):
  made with two pages for entering the kernel, grown and shrunk, and freed to the last page.
*/
module AddressSpace {
  import opened Prelude
  import opened PageWalk
  import opened TableCost
  import opened PageTable
  import opened UserSpace

  const READEXEC: nat := 10
  const READWRITE: nat := 6

  /** The mapped pages are those below `sz`, on data frames, and the two kernel entry pages. */
  ghost predicate Space(flat: Flat, frames: Frames, ext: set<nat>, root: nat, sz: nat) {
    && root in flat && PageCount(sz) <= TRAPFRAME_PAGE
    && (forall q: nat :: q in flat[root] <==> q < PageCount(sz) || q == TRAPFRAME_PAGE || q == TRAMPOLINE_PAGE)
    && (forall q: nat :: q < PageCount(sz) ==> PhysAddr(flat[root][q]) in frames)
    && PhysAddr(flat[root][TRAPFRAME_PAGE]) in ext && PhysAddr(flat[root][TRAMPOLINE_PAGE]) in ext
  }

  /** Only the pages of `root` may have changed. */
  ghost predicate SpacesKept(flat: Flat, flat': Flat, root: nat) {
    flat'.Keys == flat.Keys && forall r :: r in flat && r != root ==> flat'[r] == flat[r]
  }

  // ---- Making one ----

  lemma HoldOutside(flat: Flat, frames: Frames, holder: map<nat, Slot>, ext: set<nat>, root: nat, p: nat,
                    f: nat, perm: nat)
    requires Held(flat, frames, holder, ext) && root in flat && p !in flat[root] && f in ext
    requires f % PAGESIZE == 0 && perm < 16 && perm / 2 % 8 != 0
    ensures Held(Put(flat, root, p, Entry(f, perm)), frames, holder, ext)
  {
    EntryRoundTrip(f, perm);
    var flat' := Put(flat, root, p, Entry(f, perm));
    forall r, q | r in flat' && q in flat'[r] ensures HeldAt(flat'[r][q], r, q, frames, holder, ext) {
      if !(r == root && q == p) { assert HeldAt(flat[r][q], r, q, frames, holder, ext); }
    }
    forall g | g in frames ensures InUse(flat', holder, ext, g) {
      assert InUse(flat, holder, ext, g);
    }
  }

  lemma HoldRoot(flat: Flat, frames: Frames, holder: map<nat, Slot>, ext: set<nat>, root: nat)
    requires Held(flat, frames, holder, ext) && root !in flat
    ensures Held(flat[root := map[]], frames, holder, ext)
  {
    var flat' := flat[root := map[]];
    forall r, q | r in flat' && q in flat'[r] ensures HeldAt(flat'[r][q], r, q, frames, holder, ext) {
      assert HeldAt(flat[r][q], r, q, frames, holder, ext);
    }
    forall g | g in frames ensures InUse(flat', holder, ext, g) {
      assert InUse(flat, holder, ext, g);
    }
  }

  lemma HoldDropped(flat: Flat, frames: Frames, holder: map<nat, Slot>, ext: set<nat>, root: nat)
    requires Held(flat, frames, holder, ext) && root in flat && flat[root] == map[]
    ensures Held(flat - {root}, frames, holder, ext)
  {
    var flat' := flat - {root};
    forall r, q | r in flat' && q in flat'[r] ensures HeldAt(flat'[r][q], r, q, frames, holder, ext) {
      assert HeldAt(flat[r][q], r, q, frames, holder, ext);
    }
    forall g | g in frames ensures InUse(flat', holder, ext, g) {
      assert InUse(flat, holder, ext, g);
    }
  }

  /** `map_pages` of a page from outside. */
  method MapOutside(mem: PhysMem, root: nat, va: nat, f: nat, perm: nat, ghost p: nat) returns (ok: bool)
    requires Users(mem) && root in mem.flat && va == p * PAGESIZE && p < PAGES
    requires f in mem.ext && f % PAGESIZE == 0 && perm < 16 && perm / 2 % 8 != 0
    modifies mem
    ensures Users(mem) && mem.frames == old(mem.frames)
    ensures mem.flat == if ok then Put(old(mem.flat), root, p, Entry(f, perm)) else old(mem.flat)
    ensures ok <==> p !in old(mem.flat)[root] && Lacking(old(mem.tables), root, p) <= |old(mem.pool)|
    ensures ok ==>
              Supplied(old(mem.tables), mem.tables, root, p)
                  && |mem.pool| == |old(mem.pool)| - Lacking(old(mem.tables), root, p)
  {
    ok := mem.MapOne(root, va, f, perm, p);
    if ok {
      HoldOutside(old(mem.flat), mem.frames, mem.holder, mem.ext, root, p, f, perm);
    }
  }

  /** The only tables of a space are those on the way to the kernel entry pages. */
  ghost predicate EntryTables(tables: Tables, root: nat) {
    forall q: nat {:trigger EntryTablesAt(tables, root, q)} :: q < PAGES ==> EntryTablesAt(tables, root, q)
  }

  predicate EntryTablesAt(tables: Tables, root: nat, q: nat) {
    && (HasMid(tables, root, q) <==> q / SPAN == TRAMPOLINE_PAGE / SPAN)
    && (HasBottom(tables, root, q) <==> q / ENTRIES == TRAMPOLINE_PAGE / ENTRIES)
  }

  /** They share their tables: where the first is mapped the second needs no memory. */
  lemma EntryCost(t0: Tables, t1: Tables, root: nat)
    requires NoLinks(t0, root)
    ensures Lacking(t0, root, TRAMPOLINE_PAGE) == 2
    ensures Supplied(t0, t1, root, TRAMPOLINE_PAGE) ==> Lacking(t1, root, TRAPFRAME_PAGE) == 0
  {
    if Supplied(t0, t1, root, TRAMPOLINE_PAGE) { assert SuppliedAt(t0, t1, root, TRAMPOLINE_PAGE, TRAPFRAME_PAGE); }
  }

  lemma EntryTablesMade(t0: Tables, t1: Tables, t2: Tables, root: nat)
    requires NoLinks(t0, root) && Supplied(t0, t1, root, TRAMPOLINE_PAGE) && Supplied(t1, t2, root, TRAPFRAME_PAGE)
    ensures EntryTables(t2, root)
  {
    forall q: nat | q < PAGES ensures EntryTablesAt(t2, root, q) {
      assert SuppliedAt(t0, t1, root, TRAMPOLINE_PAGE, q) && SuppliedAt(t1, t2, root, TRAPFRAME_PAGE, q);
      MidOfBottom(t0, root, q);
    }
  }

  /**
    The two kernel entry pages of a new page table.  They take two tables between them, so a failure leaves nothing
    mapped.
  */
  method MapEntryPages(mem: PhysMem, root: nat, trampoline: nat, trapframe: nat) returns (ok: bool)
    requires Users(mem) && root in mem.flat && mem.flat[root] == map[] && NoLinks(mem.tables, root)
    requires trampoline in mem.ext && trapframe in mem.ext && trampoline % PAGESIZE == 0 && trapframe % PAGESIZE == 0
    modifies mem
    ensures Users(mem) && mem.frames == old(mem.frames) && (ok <==> |old(mem.pool)| >= 2)
    ensures if ok then SpacesKept(old(mem.flat), mem.flat, root) && Space(mem.flat, mem.frames, mem.ext, root, 0)
            else mem.flat == old(mem.flat)
    ensures ok ==> |mem.pool| == |old(mem.pool)| - 2 && EntryTables(mem.tables, root)
  {
    EntryPages(mem.flat, mem.frames, mem.ext, root, trampoline, trapframe);
    ok := MapOutside(mem, root, TRAMPOLINE_PAGE * PAGESIZE, trampoline, READEXEC, TRAMPOLINE_PAGE);
    EntryCost(old(mem.tables), mem.tables, root);
    if ok {
      ghost var tables := mem.tables;
      ok := MapOutside(mem, root, TRAPFRAME_PAGE * PAGESIZE, trapframe, READWRITE, TRAPFRAME_PAGE);
      EntryTablesMade(old(mem.tables), tables, mem.tables, root);
    }
  }

  lemma EntryPages(flat: Flat, frames: Frames, ext: set<nat>, root: nat, trampoline: nat, trapframe: nat)
    requires root in flat && flat[root] == map[]
    requires trampoline in ext && trapframe in ext && trampoline % PAGESIZE == 0 && trapframe % PAGESIZE == 0
    ensures var flat1 := Put(flat, root, TRAMPOLINE_PAGE, Entry(trampoline, READEXEC));
            var flat2 := Put(flat1, root, TRAPFRAME_PAGE, Entry(trapframe, READWRITE));
            SpacesKept(flat, flat1, root) && SpacesKept(flat, flat2, root) && Space(flat2, frames, ext, root, 0)
  {
    EntryRoundTrip(trampoline, READEXEC);
    EntryRoundTrip(trapframe, READWRITE);
  }

  /** A page table in which nothing is mapped. */
  method NewSpace(mem: PhysMem) returns (r: Option<nat>)
    requires Users(mem)
    modifies mem
    ensures Users(mem) && mem.frames == old(mem.frames) && (r.None? <==> old(mem.pool) == [])
    ensures r.None? ==> mem.flat == old(mem.flat)
    ensures r.Some? ==> r.value !in old(mem.flat) && mem.flat == old(mem.flat)[r.value := map[]]
    ensures r.Some? ==> |mem.pool| == |old(mem.pool)| - 1 && NoLinks(mem.tables, r.value)
  {
    r := mem.NewRoot();
    if r.Some? { HoldRoot(old(mem.flat), mem.frames, mem.holder, mem.ext, r.value); }
  }

  /** `drop` of a page table in which nothing is mapped. */
  method Abandon(mem: PhysMem, root: nat) returns (ok: bool)
    requires Users(mem) && root in mem.flat && mem.flat[root] == map[]
    modifies mem
    ensures ok && mem.frames == old(mem.frames) && Users(mem) && mem.flat == old(mem.flat) - {root}
  {
    ok := mem.DropRoot(root);
    HoldDropped(old(mem.flat), mem.frames, mem.holder, mem.ext, root);
  }

  /**
    `alloc_user_page_table`: a new space of size 0, on three pages.  It fails if and only if there are fewer, and then
    all is as before; the drop of a half-built table never panics.
  */
  method AllocUserPageTable(mem: PhysMem, trampoline: nat, trapframe: nat) returns (r: Option<nat>, panicked: bool)
    requires Users(mem) && trampoline in mem.ext && trapframe in mem.ext && trampoline % PAGESIZE == 0
             && trapframe % PAGESIZE == 0
    modifies mem
    ensures !panicked && Users(mem) && mem.frames == old(mem.frames)
    ensures r.Some? <==> |old(mem.pool)| >= 3
    ensures r.Some? ==> |mem.pool| == |old(mem.pool)| - 3 && EntryTables(mem.tables, r.value)
    ensures r.None? ==> mem.flat == old(mem.flat)
    ensures r.Some? ==> r.value !in old(mem.flat) && Space(mem.flat, mem.frames, mem.ext, r.value, 0)
    ensures r.Some? ==>
              mem.flat.Keys == old(mem.flat).Keys + {r.value} && forall s :: s in old(mem.flat) ==>
                    mem.flat[s] == old(mem.flat)[s]
  {
    r := NewSpace(mem);
    if r.None? {
      return r, false;
    }
    var ok := MapEntryPages(mem, r.value, trampoline, trapframe);
    if ok {
      return r, false;
    }
    RootGone(old(mem.flat), r.value);
    ok := Abandon(mem, r.value);
    r, panicked := None, !ok;
  }

  lemma RootGone(flat: Flat, root: nat)
    requires root !in flat
    ensures flat[root := map[]] - {root} == flat
  {
  }

  // ---- Growing and shrinking ----

  lemma SpaceGrown(flat: Flat, frames: Frames, flat': Flat, frames': Frames, ext: set<nat>, root: nat, sz: nat,
                   newsz: nat, x: nat)
    requires Space(flat, frames, ext, root, sz) && sz < newsz <= PAGES * PAGESIZE && PageCount(sz) <= x
    requires Extended(flat, frames, flat', frames', root, PageCount(sz), x)
    ensures x == PageCount(newsz) ==> Space(flat', frames', ext, root, newsz)
    ensures Space(flat', frames', ext, root, x * PAGESIZE) && PageCount(x * PAGESIZE) == x
    ensures Space(flat', frames', ext, root, sz) <==> x == PageCount(sz)
    ensures SpacesKept(flat, flat', root) && (x > PageCount(sz) ==> PageCount(sz) in flat'[root])
  {
    var m, m', p := flat[root], flat'[root], PageCount(sz);
    forall q: nat ensures (q in m' <==> q in m || p <= q < x) && (q in m ==> m'[q] == m[q]) {
      assert ExtendedAt(m, frames, m', frames', p, x, q);
    }
    forall q: nat | q < x ensures PhysAddr(m'[q]) in frames' {
      assert ExtendedAt(m, frames, m', frames', p, x, q);
      if q < p { assert FrameKept(frames, frames', PhysAddr(m[q])); }
    }
    assert TRAPFRAME_PAGE in m && ExtendedAt(m, frames, m', frames', p, x, TRAPFRAME_PAGE);
    assert x > p ==> p in m';
  }

  /** In a space, the way to a larger size is clear up to the kernel entry pages. */
  lemma SpaceRoom(flat: Flat, frames: Frames, ext: set<nat>, tables: Tables, root: nat, stock: nat, sz: nat, newsz: nat)
    requires Space(flat, frames, ext, root, sz)
    ensures Room(flat[root], tables, root, stock, PageCount(sz), PageCount(newsz)) <==>
              Fits(tables, root, stock, sz, newsz)
    ensures Stuck(flat[root], tables, root, stock, PageCount(sz)) <==> Full(tables, root, stock, sz)
  {
    assert TRAPFRAME_PAGE in flat[root] && !Vacant(flat[root], TRAPFRAME_PAGE);
  }

  lemma SpaceShrunk(flat: Flat, frames: Frames, flat': Flat, frames': Frames, holder: map<nat, Slot>, ext: set<nat>,
                    root: nat, sz: nat, newsz: nat, done: nat)
    requires Held(flat, frames, holder, ext) && Space(flat, frames, ext, root, sz) && newsz < sz
             && PageCount(newsz) + done == PageCount(sz)
    requires Unmapped(flat, frames, flat', frames', root, PageCount(newsz), done, true)
             && OnData(flat, root, PageCount(newsz), done, ext)
    ensures Space(flat', frames', ext, root, PageUp(newsz))
  {
    var p := PageCount(newsz);
    RangeIs(p, done);
    assert PageCount(PageUp(newsz)) == p;
    forall q: nat | q < p ensures PhysAddr(flat[root][q]) in frames' {
      assert HeldAt(flat[root][q], root, q, frames, holder, ext) && InUse(flat, holder, ext, PhysAddr(flat[root][q]));
      FramesHeld(flat, frames, holder, ext, root, p, done, PhysAddr(flat[root][q]));
    }
  }

  lemma SpaceOnData(flat: Flat, frames: Frames, holder: map<nat, Slot>, ext: set<nat>, root: nat, sz: nat,
                    p: nat, n: nat)
    requires Held(flat, frames, holder, ext) && Space(flat, frames, ext, root, sz) && p + n <= PageCount(sz)
    ensures OnData(flat, root, p, n, ext)
    ensures forall q: nat :: p <= q < p + n ==> q in flat[root]
  {
    forall q: nat | p <= q < p + n ensures PhysAddr(flat[root][q]) !in ext {
      assert InUse(flat, holder, ext, PhysAddr(flat[root][q]));
    }
  }

  /**
    `sys_sbrk` with argument `n`.  The new size is `old_sz + n` in 64-bit arithmetic, so shrinking by more
    than there is asks for a huge size, which `uvm_dealloc` ignores.  Growing succeeds if and only if the new
    pages end below the kernel entry pages and there is memory for them and the tables they lack.  A failed growth
    leaves pages behind that the recorded size does not cover, unless already the first one could not be mapped.  Then
    the space is one of size `top`.
  */
  method Sbrk(mem: PhysMem, root: nat, sz: nat, n: int) returns (ok: bool, newsz: nat, ghost top: nat)
    requires Users(mem) && Space(mem.flat, mem.frames, mem.ext, root, sz) && -0x8000_0000 <= n < 0x8000_0000
    modifies mem
    ensures Users(mem)
    ensures ok <==> n <= 0 || Fits(old(mem.tables), root, |old(mem.pool)|, sz, sz + n)
    ensures ok ==> Space(mem.flat, mem.frames, mem.ext, root, newsz)
    ensures ok ==> newsz == if n >= 0 then sz + n else if sz + n < 0 then sz else PageUp(sz + n)
    ensures !ok ==> newsz == sz
    ensures !ok ==>
              (Space(mem.flat, mem.frames, mem.ext, root, sz) <==> Full(old(mem.tables), root, |old(mem.pool)|, sz))
    ensures !ok && !Full(old(mem.tables), root, |old(mem.pool)|, sz) ==>
              root in mem.flat && PageCount(sz) in mem.flat[root]
    ensures Space(mem.flat, mem.frames, mem.ext, root, top) && PageCount(newsz) <= PageCount(top)
    ensures PageCount(top) == PageCount(newsz) <==> ok || Full(old(mem.tables), root, |old(mem.pool)|, sz)
    ensures SpacesKept(old(mem.flat), mem.flat, root)
  {
    newsz, top := sz, sz;
    if n > 0 {
      ok, newsz, top := Grow(mem, root, sz, n);
    } else if n < 0 {
      ok, newsz := Shrink(mem, root, sz, -n);
      top := newsz;
    } else {
      ok := true;
    }
  }

  /** Room below the kernel entry pages, and memory for the new pages and the tables they lack. */
  ghost predicate Fits(tables: Tables, root: nat, stock: nat, sz: nat, newsz: nat) {
    PageCount(newsz) <= TRAPFRAME_PAGE && 0 <= Left(tables, root, stock, PageCount(sz), PageCount(newsz))
  }

  /** Not even one new page can be mapped. */
  ghost predicate Full(tables: Tables, root: nat, stock: nat, sz: nat) {
    PageCount(sz) == TRAPFRAME_PAGE || stock < 1 + Lacking(tables, root, PageCount(sz))
  }

  /** `sys_sbrk` with a positive argument. */
  method Grow(mem: PhysMem, root: nat, sz: nat, n: nat) returns (ok: bool, newsz: nat, ghost top: nat)
    requires Users(mem) && Space(mem.flat, mem.frames, mem.ext, root, sz) && 0 < n < 0x8000_0000
    modifies mem
    ensures Users(mem) && SpacesKept(old(mem.flat), mem.flat, root)
    ensures ok <==> Fits(old(mem.tables), root, |old(mem.pool)|, sz, sz + n)
    ensures ok ==> Space(mem.flat, mem.frames, mem.ext, root, newsz) && newsz == sz + n
    ensures !ok ==> newsz == sz
    ensures !ok ==>
              (Space(mem.flat, mem.frames, mem.ext, root, sz) <==> Full(old(mem.tables), root, |old(mem.pool)|, sz))
    ensures !ok && !Full(old(mem.tables), root, |old(mem.pool)|, sz) ==>
              root in mem.flat && PageCount(sz) in mem.flat[root]
    ensures Space(mem.flat, mem.frames, mem.ext, root, top) && PageCount(newsz) <= PageCount(top)
    ensures PageCount(top) == PageCount(newsz) <==> ok || Full(old(mem.tables), root, |old(mem.pool)|, sz)
  {
    SizeBound(sz);
    SpaceRoom(mem.flat, mem.frames, mem.ext, mem.tables, root, |mem.pool|, sz, sz + n);
    ghost var fits, full := Fits(mem.tables, root, |mem.pool|, sz, sz + n), Full(mem.tables, root, |mem.pool|, sz);
    ghost var x;
    ok, newsz, x := UvmAlloc(mem, root, sz, sz + n);
    assert ok == fits && (!ok ==> (x == PageCount(sz) <==> full));
    SpaceGrown(old(mem.flat), old(mem.frames), mem.flat, mem.frames, mem.ext, root, sz, sz + n, x);
    newsz, top := if ok then newsz else sz, x * PAGESIZE;
  }

  lemma SizeBound(sz: nat)
    requires PageCount(sz) <= TRAPFRAME_PAGE
    ensures sz <= TRAPFRAME_PAGE * PAGESIZE && sz + 0x8000_0000 <= PAGES * PAGESIZE
  {
  }

  method Shrink(mem: PhysMem, root: nat, sz: nat, n: nat) returns (ok: bool, newsz: nat)
    requires Users(mem) && Space(mem.flat, mem.frames, mem.ext, root, sz) && 0 < n <= 0x8000_0000
    modifies mem
    ensures Users(mem) && ok && Space(mem.flat, mem.frames, mem.ext, root, newsz)
    ensures newsz == if sz < n then sz else PageUp(sz - n)
    ensures SpacesKept(old(mem.flat), mem.flat, root)
  {
    SizeBound(sz);
    var target := (sz + USIZE - n) % USIZE;
    assert target == if sz < n then sz + USIZE - n else sz - n;
    if target < sz {
      Growth(target, sz);
      SpaceOnData(mem.flat, mem.frames, mem.holder, mem.ext, root, sz, PageCount(target),
                  PageCount(sz) - PageCount(target));
    }
    ghost var done;
    ok, newsz, done := UvmDealloc(mem, root, sz, target);
    if target < sz {
      SpaceShrunk(old(mem.flat), old(mem.frames), mem.flat, mem.frames, old(mem.holder), mem.ext, root, sz, target,
                  done);
    }
  }

  // ---- The end ----

  lemma HoldOutsideLess(flat: Flat, frames: Frames, holder: map<nat, Slot>, ext: set<nat>, root: nat, p: nat)
    requires Held(flat, frames, holder, ext) && root in flat && p in flat[root] && PhysAddr(flat[root][p]) in ext
    ensures Held(Remove(flat, root, {p}), frames, holder, ext)
  {
    var flat' := Remove(flat, root, {p});
    forall r, q | r in flat' && q in flat'[r] ensures HeldAt(flat'[r][q], r, q, frames, holder, ext) {
      assert HeldAt(flat[r][q], r, q, frames, holder, ext);
    }
    forall g | g in frames ensures InUse(flat', holder, ext, g) {
      assert InUse(flat, holder, ext, g);
    }
  }

  lemma OneUnmapped(flat: Flat, frames: Frames, flat': Flat, frames': Frames, root: nat, p: nat)
    requires Unmapped(flat, frames, flat', frames', root, p, 1, false)
    ensures flat' == Remove(flat, root, {p}) && frames' == frames
  {
    assert PageRange(p, 1) == PageRange(p, 0) + {p} == {p};
    assert frames - {} == frames;
  }

  /** `unmap_pages` of a page from outside, which is not freed. */
  method UnmapOutside(mem: PhysMem, root: nat, va: nat, ghost p: nat) returns (ok: bool)
    requires Users(mem) && root in mem.flat && va == p * PAGESIZE && p < PAGES
    requires p in mem.flat[root] && PhysAddr(mem.flat[root][p]) in mem.ext
    modifies mem
    ensures Users(mem) && ok && mem.flat == Remove(old(mem.flat), root, {p})
    ensures mem.frames == old(mem.frames) && mem.holder == old(mem.holder)
  {
    AllLeaves(mem.flat, mem.frames, mem.holder, mem.ext, root);
    HoldOutsideLess(mem.flat, mem.frames, mem.holder, mem.ext, root, p);
    ghost var done;
    ok, done := mem.UnmapPages(root, va, 1, false, p);
    assert Mapping(old(mem.flat), root, p);
    OneUnmapped(old(mem.flat), old(mem.frames), mem.flat, mem.frames, root, p);
  }

  /** What is left of a space when the kernel entry pages are gone. */
  ghost predicate UserOnly(flat: Flat, root: nat, n: nat) {
    root in flat && forall q: nat :: q in flat[root] <==> q < n
  }

  lemma EntryPagesGone(flat: Flat, frames: Frames, ext: set<nat>, root: nat, sz: nat)
    requires Space(flat, frames, ext, root, sz)
    ensures var flat' := Remove(Remove(flat, root, {TRAMPOLINE_PAGE}), root, {TRAPFRAME_PAGE});
            && UserOnly(flat', root, PageCount(sz)) && SpacesKept(flat, flat', root)
            && forall q: nat :: q < PageCount(sz) ==> PhysAddr(flat'[root][q]) in frames
  {
  }

  method UnmapEntryPages(mem: PhysMem, root: nat, ghost sz: nat) returns (ok: bool)
    requires Users(mem) && Space(mem.flat, mem.frames, mem.ext, root, sz)
    modifies mem
    ensures ok && Users(mem) && mem.frames == old(mem.frames) && mem.holder == old(mem.holder)
    ensures UserOnly(mem.flat, root, PageCount(sz)) && SpacesKept(old(mem.flat), mem.flat, root)
    ensures forall q: nat :: q < PageCount(sz) ==> PhysAddr(mem.flat[root][q]) in mem.frames
  {
    EntryPagesGone(mem.flat, mem.frames, mem.ext, root, sz);
    ok := UnmapOutside(mem, root, TRAMPOLINE_PAGE * PAGESIZE, TRAMPOLINE_PAGE);
    var both := UnmapOutside(mem, root, TRAPFRAME_PAGE * PAGESIZE, TRAPFRAME_PAGE);
    ok := ok && both;
  }

  /** Of a space of `m` pages those from `n` on are still there; if there are none, neither is any of its frames. */
  ghost predicate Remains(flat: Flat, frames: Frames, frames': Frames, holder: map<nat, Slot>, root: nat,
                          n: nat, m: nat) {
    && root in flat && (forall q: nat :: q in flat[root] <==> n <= q < m)
    && (n == m ==> flat[root] == map[] && FramesLeft(frames, frames', holder, root))
  }

  /**
    `unmap_user_page_table` of a space of size `top` whose recorded size is `sz`: no `expect` in it fails, and every
    data frame below the recorded size is freed.
  */
  method UnmapUserPageTable(mem: PhysMem, root: nat, sz: nat, ghost top: nat) returns (ok: bool)
    requires Users(mem) && Space(mem.flat, mem.frames, mem.ext, root, top) && PageCount(sz) <= PageCount(top)
    modifies mem
    ensures ok && Users(mem) && mem.holder == old(mem.holder) && SpacesKept(old(mem.flat), mem.flat, root)
    ensures Remains(mem.flat, old(mem.frames), mem.frames, mem.holder, root, PageCount(sz), PageCount(top))
  {
    ok := UnmapEntryPages(mem, root, top);
    SpaceEnds(mem.flat, mem.frames, mem.holder, mem.ext, root, PageCount(sz), PageCount(top));
    if sz > 0 {
      ghost var flat, done := mem.flat, 0;
      SizeBound(sz);
      var freed;
      freed, done := FreePages(mem, root, 0, PageUp(sz) / PAGESIZE, 0);
      ok := ok && freed;
      AllFreed(flat, old(mem.frames), mem.flat, mem.frames, mem.holder, mem.ext, root, PageCount(sz), PageCount(top));
    }
  }

  /** Exactly the frames that `root` held are gone. */
  ghost predicate FramesLeft(frames: Frames, frames': Frames, holder: map<nat, Slot>, root: nat) {
    && (forall f :: f in frames' <==> f in frames && (f in holder ==> holder[f].root != root))
    && (forall f :: f in frames' ==> f in frames && frames'[f] == frames[f])
  }

  lemma SpaceEnds(flat: Flat, frames: Frames, holder: map<nat, Slot>, ext: set<nat>, root: nat, n: nat, m: nat)
    requires Held(flat, frames, holder, ext) && UserOnly(flat, root, m) && n <= m && forall q: nat :: q < m ==>
               PhysAddr(flat[root][q]) in frames
    ensures OnData(flat, root, 0, n, ext)
    ensures n == 0 ==> Remains(flat, frames, frames, holder, root, n, m)
  {
    forall q: nat | q < n ensures PhysAddr(flat[root][q]) !in ext {
      assert InUse(flat, holder, ext, PhysAddr(flat[root][q]));
    }
    if m == 0 {
      forall f | f in frames ensures f in holder && holder[f].root != root {
        assert InUse(flat, holder, ext, f);
      }
    }
  }

  lemma AllFreed(flat: Flat, frames: Frames, flat': Flat, frames': Frames, holder: map<nat, Slot>, ext: set<nat>,
                 root: nat, n: nat, m: nat)
    requires Held(flat, frames, holder, ext) && UserOnly(flat, root, m) && n <= m && OnData(flat, root, 0, n, ext)
    requires Unmapped(flat, frames, flat', frames', root, 0, n, true)
    ensures Remains(flat', frames, frames', holder, root, n, m)
  {
    RangeIs(0, n);
    if n == m {
      forall f | f in frames ensures f in FramesOf(flat[root], 0, n) <==> f in holder && holder[f].root == root {
        FramesHeld(flat, frames, holder, ext, root, 0, n, f);
        assert InUse(flat, holder, ext, f);
      }
    }
  }

  /**
    The end of a space of size `top` whose recorded size is `sz`.  All its frames and all its page-table pages go back
    to the pool, each once, if the recorded size covers all pages; otherwise, and only then, the drop of the page table
    panics.
  */
  method FreeSpace(mem: PhysMem, root: nat, sz: nat, ghost top: nat) returns (ok: bool)
    requires Users(mem) && Space(mem.flat, mem.frames, mem.ext, root, top) && PageCount(sz) <= PageCount(top)
    modifies mem
    ensures ok <==> PageCount(sz) == PageCount(top)
    ensures ok ==> Users(mem) && mem.flat == old(mem.flat) - {root}
    ensures ok ==> FramesLeft(old(mem.frames), mem.frames, old(mem.holder), root)
    ensures ok ==> forall t :: t in mem.tables ==> t in mem.owner && mem.owner[t].root != root
  {
    ok := UnmapUserPageTable(mem, root, sz, top);
    AllLeaves(mem.flat, mem.frames, mem.holder, mem.ext, root);
    ghost var flat := mem.flat;
    assert PageCount(sz) < PageCount(top) ==> PageCount(sz) in flat[root];
    var dropped := mem.DropRoot(root);
    ok := ok && dropped;
    if ok {
      HoldDropped(flat, mem.frames, mem.holder, mem.ext, root);
      SameWithout(old(mem.flat), flat, root);
    }
  }

  /**
    A process that calls `sbrk` and then ends.  The kernel panics at its end if and only if the growth failed although
    there was room for a page.
  */
  method GrowAndEnd(mem: PhysMem, root: nat, sz: nat, n: int) returns (ok: bool)
    requires Users(mem) && Space(mem.flat, mem.frames, mem.ext, root, sz) && -0x8000_0000 <= n < 0x8000_0000
    modifies mem
    ensures ok <==> n <= 0 || Fits(old(mem.tables), root, |old(mem.pool)|, sz, sz + n)
                    || Full(old(mem.tables), root, |old(mem.pool)|, sz)
    ensures ok ==> Users(mem) && mem.flat == old(mem.flat) - {root}
  {
    ghost var top;
    var grown, newsz;
    grown, newsz, top := Sbrk(mem, root, sz, n);
    ghost var flat := mem.flat;
    ok := FreeSpace(mem, root, newsz, top);
    SameWithout(old(mem.flat), flat, root);
  }

  lemma SameWithout(flat: Flat, flat': Flat, root: nat)
    requires SpacesKept(flat, flat', root)
    ensures flat - {root} == flat' - {root}
  {
  }
}
