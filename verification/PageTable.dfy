/**
  Page tables in place (kernel/src/page_table.rs): `walk`, `walk_alloc`, `map_pages`, `unmap_pages`
  over a physical memory whose page-table pages, data pages and free pages are all explicit.
  The ghost field `flat` is what the tables stand for: for every address space a finite map from
  virtual page to entry.  `Valid` says that the tables refine it, and every method is specified by it.
*/
module PageTable {
  import opened Prelude
  import opened PageWalk
  import opened TableCost

  type Frames = map<nat, seq<nat>>

  type Flat = map<nat, map<nat, nat>>

  /** Page-table pages, data pages and free pages are different pages. */
  ghost predicate Separate(tables: Tables, frames: Frames, pool: seq<nat>) {
    && Distinct(pool)
    && (forall k :: 0 <= k < |pool| ==> pool[k] % PAGESIZE == 0 && pool[k] !in tables && pool[k] !in frames)
    && (forall f :: f in frames ==> f !in tables && f % PAGESIZE == 0 && |frames[f]| == PAGESIZE)
  }

  /** The three-level tables refine the flat maps: what a walk finds valid is exactly what is mapped. */
  ghost predicate Refines(tables: Tables, owner: Owners, flat: Flat) {
    && (forall r :: r in flat <==> IsRoot(tables, owner, r))
    && (forall r, p: nat {:trigger Find(tables, r, p)} :: r in flat && p < PAGES ==>
          FoundIs(Find(tables, r, p), flat[r], p))
    && (forall r, p :: r in flat && p in flat[r] ==> p < PAGES)
  }

  ghost predicate FoundIs(w: nat, m: map<nat, nat>, p: nat) {
    (p in m <==> IsValid(w)) && (p in m ==> m[p] == w)
  }

  /** Page `p` would be the first of its bottom table. */
  ghost predicate Alone(m: map<nat, nat>, p: nat) {
    forall q :: q in m ==> q / ENTRIES != p / ENTRIES
  }

  /** Why page `p` cannot be mapped: it is mapped, or its tables are missing and there is no memory for them. */
  ghost predicate Refused(m: map<nat, nat>, p: nat, pool: seq<nat>) {
    p in m || (pool == [] && Alone(m, p))
  }

  /** None of the pages from `p` to `hi` is mapped. */
  ghost predicate Clear(m: map<nat, nat>, p: nat, hi: nat) {
    forall q: nat {:trigger Vacant(m, q)} :: p <= q < hi ==> Vacant(m, q)
  }

  predicate Vacant(m: map<nat, nat>, q: nat) {
    q !in m
  }

  /** No page is lost and none appears. */
  ghost predicate Conserved(tables: Tables, frames: Frames, pool: seq<nat>, pages: set<nat>) {
    forall x: nat {:trigger InUseOrFree(tables, frames, pool, pages, x)} :: InUseOrFree(tables, frames, pool, pages, x)
  }

  predicate InUseOrFree(tables: Tables, frames: Frames, pool: seq<nat>, pages: set<nat>, x: nat) {
    x in pages <==> x in tables || x in frames || x in pool
  }

  /** Pages that only change their use are still all there. */
  lemma StillConserved(t0: Tables, f0: Frames, p0: seq<nat>, t1: Tables, f1: Frames, p1: seq<nat>, pages: set<nat>)
    requires Conserved(t0, f0, p0, pages)
    requires forall x: nat :: x in t0 || x in f0 || x in p0 <==> x in t1 || x in f1 || x in p1
    ensures Conserved(t1, f1, p1, pages)
  {
    forall x: nat ensures InUseOrFree(t1, f1, p1, pages, x) { assert InUseOrFree(t0, f0, p0, pages, x); }
  }

  ghost function PageRange(p: nat, n: nat): set<nat> {
    if n == 0 then {} else PageRange(p, n - 1) + {p + n - 1}
  }

  lemma {:induction false} RangeIs(p: nat, n: nat)
    ensures forall q: nat :: q in PageRange(p, n) <==> p <= q < p + n
  {
    if n > 0 { RangeIs(p, n - 1); }
  }

  ghost function Put(flat: Flat, root: nat, p: nat, w: nat): Flat
    requires root in flat
  {
    var m: map<nat, nat> := flat[root][p := w];
    flat[root := m]
  }

  ghost function Remove(flat: Flat, root: nat, gone: set<nat>): Flat
    requires root in flat
  {
    var m: map<nat, nat> := flat[root] - gone;
    flat[root := m]
  }

  /** The frames behind the `n` pages from page `p` on. */
  ghost function FramesOf(m: map<nat, nat>, p: nat, n: nat): set<nat> {
    if n == 0 then {} else FramesOf(m, p, n - 1) + (if p + n - 1 in m then {PhysAddr(m[p + n - 1])} else {})
  }

  /** `n` pages are gone, and with `freeing` the frames behind them as well; the rest is as before. */
  ghost predicate Unmapped(before: Flat, framesBefore: Frames, after: Flat, framesAfter: Frames, root: nat, p: nat,
                           n: nat, freeing: bool) {
    && root in before
    && after == Remove(before, root, PageRange(p, n))
    && framesAfter == framesBefore - (if freeing then FramesOf(before[root], p, n) else {})
  }

  /** A page that `unmap_pages` takes out: mapped, by a leaf entry. */
  ghost predicate Mapping(flat: Flat, root: nat, p: nat) {
    root in flat && p in flat[root] && IsLeaf(flat[root][p])
  }

  /** Different mapped pages of the range have different frames, and these are data pages. */
  ghost predicate OwnFrames(m: map<nat, nat>, frames: Frames, p: nat, n: nat) {
    && (forall q: nat :: p <= q < p + n && q in m ==> PhysAddr(m[q]) in frames)
    && (forall q: nat, q': nat :: p <= q < q' < p + n && q in m && q' in m ==> PhysAddr(m[q]) != PhysAddr(m[q']))
  }

  /** `after` is `before` with `n` more pages, mapped to consecutive frames; none of them was mapped before. */
  ghost predicate Mapped(before: Flat, after: Flat, root: nat, p: nat, x: nat, pa: nat, perm: nat) {
    && root in before && root in after && after == before[root := after[root]]
    && forall q: nat {:trigger MappedAt(before[root], after[root], p, x, pa, perm, q)} ::
          MappedAt(before[root], after[root], p, x, pa, perm, q)
  }

  predicate MappedAt(m: map<nat, nat>, m': map<nat, nat>, p: nat, x: nat, pa: nat, perm: nat, q: nat) {
    && (q in m' <==> q in m || p <= q < x) && !(q in m && p <= q < x)
    && (q in m' ==> m'[q] == if q in m then m[q] else Entry(pa + (q - p) * PAGESIZE, perm))
  }

  /** The bottom tables below `o` hold no valid entry. */
  ghost predicate Hollow(tables: Tables, owner: Owners, o: Owner) {
    forall u, i: nat {:trigger tables[u][i]} ::
      u in tables && u in owner && owner[u].place.Bottom? && Beneath(o, owner[u]) && i < |tables[u]| ==>
        !IsValid(tables[u][i])
  }

  ghost predicate BottomsAreLeaves(tables: Tables, owner: Owners, o: Owner) {
    forall u, i: nat {:trigger tables[u][i]} ::
      u in tables && u in owner && owner[u].place.Bottom? && Beneath(o, owner[u]) && i < |tables[u]| ==>
        (IsValid(tables[u][i]) ==> IsLeaf(tables[u][i]))
  }

  /** Of `base`, the page-table pages below the first `n` entries of the one at `o` have gone to the pool. */
  ghost predicate Freed(base: Tables, poolBefore: seq<nat>, tables: Tables, pool: seq<nat>, owner: Owners,
                        o: Owner, n: nat) {
    && (forall u :: u in tables ==> u in base && tables[u] == base[u])
    && (forall u :: u in base ==> u in owner && (u in tables <==> !BelowFirst(o, owner[u], n)))
    && MovedTo(base, poolBefore, tables, pool)
  }

  /** As above, with the page at `o` itself. */
  ghost predicate FreedAll(base: Tables, poolBefore: seq<nat>, tables: Tables, pool: seq<nat>,
                           owner: Owners, o: Owner) {
    && (forall u :: u in tables ==> u in base && tables[u] == base[u])
    && (forall u :: u in base ==> u in owner && (u in tables <==> !Beneath(o, owner[u])))
    && MovedTo(base, poolBefore, tables, pool)
  }

  ghost predicate MovedTo(base: Tables, poolBefore: seq<nat>, tables: Tables, pool: seq<nat>) {
    && Distinct(pool)
    && (forall x :: x in pool <==> x in poolBefore || (x in base && x !in tables))
  }

  /** A page of an address space. */
  datatype Slot = Slot(root: nat, page: nat)

  class PhysMem {
    var tables: Tables
    var frames: Frames
    var pool: seq<nat>
    ghost var owner: Owners
    ghost var flat: Flat
    ghost var holder: map<nat, Slot>
    ghost const pages: set<nat>
    ghost const ext: set<nat>

    ghost predicate Sound()
      reads this
    {
      Tree(tables, owner) && Reached(tables, owner) && Separate(tables, frames, pool) && Refines(tables, owner, flat)
    }

    ghost predicate Valid()
      reads this
    {
      Sound() && Conserved(tables, frames, pool, pages)
    }

    /** All memory is free. */
    constructor (free: seq<nat>, ghost outside: set<nat>)
      requires Distinct(free) && forall k :: 0 <= k < |free| ==> free[k] % PAGESIZE == 0 && free[k] !in outside
      ensures Valid() && flat == map[] && frames == map[] && tables == map[] && pool == free
      ensures holder == map[] && ext == outside && ext !! pages
    {
      tables, frames, pool, owner, flat, holder := map[], map[], free, map[], map[], map[];
      pages, ext := (set x | x in free), outside;
    }

    /** A page from the allocator, which may have none left. */
    method AllocPage() returns (r: Option<nat>)
      requires Valid()
      modifies this`pool
      ensures Sound()
      ensures r.None? <==> old(pool) == []
      ensures r.None? ==> pool == old(pool)
      ensures r.Some? ==> old(pool) == [r.value] + pool && r.value !in pool
      ensures r.Some? ==> r.value % PAGESIZE == 0 && r.value !in tables && r.value !in frames
    {
      if pool == [] {
        return None;
      }
      r := Some(pool[0]);
      pool := pool[1..];
    }

    /** `SinglePage::alloc_into_raw`, with `data` put into the page. */
    method TakeFrame(data: seq<nat>) returns (r: Option<nat>)
      requires Valid() && |data| == PAGESIZE
      modifies this`pool, this`frames
      ensures Valid()
      ensures r.None? <==> old(pool) == []
      ensures r.None? ==> frames == old(frames) && pool == old(pool)
      ensures r.Some? ==>
                |pool| == |old(pool)| - 1 && r.value !in old(frames) && r.value in pages && r.value % PAGESIZE == 0
      ensures r.Some? ==> frames == old(frames)[r.value := data]
    {
      r := AllocPage();
      if r.Some? {
        assert InUseOrFree(old(tables), old(frames), old(pool), pages, r.value);
        frames := frames[r.value := data];
        StillConserved(old(tables), old(frames), old(pool), tables, frames, pool, pages);
      }
    }

    /** `SinglePage::free_from_raw`. */
    method FreeFrame(f: nat)
      requires Valid() && f in frames
      modifies this`pool, this`frames
      ensures Valid() && frames == old(frames) - {f} && |pool| == |old(pool)| + 1
    {
      frames, pool := frames - {f}, pool + [f];
      StillConserved(old(tables), old(frames), old(pool), tables, frames, pool, pages);
    }

    /** `walk`: the bottom table, and with it the entry of the page of `va`. */
    method Walk(root: nat, va: nat) returns (r: Option<nat>)
      requires Valid() && root in flat
      ensures r == BottomOf(tables, root, va)
      ensures r.Some? ==> r.value in tables && |tables[r.value]| == ENTRIES
      ensures FoundIs(if r.Some? then tables[r.value][GetIndex(va, 0)] else 0, flat[root], PageIn(va))
    {
      var table, level := root, 2;
      while level > 0
        invariant 0 <= level <= 2 && table in tables && owner[table] == Owner(root, PlaceAt(va, level))
        invariant Reach(tables, root, va, level) == Some(table)
      {
        var i := GetIndex(va, level);
        assert Linked(tables, owner, table, i);
        if !IsValid(tables[table][i]) {
          BottomIsReached(tables, root, va);
          assert Reach(tables, root, va, level - 1) == None;
          LookupWraps(tables, root, va);
          return None;
        }
        table := PhysAddr(tables[table][i]);
        level := level - 1;
      }
      BottomIsReached(tables, root, va);
      LookupWraps(tables, root, va);
      r := Some(table);
    }

    /** Hang a new page-table page under entry `i` of `table`. */
    method NewTable(table: nat, i: nat) returns (ok: bool)
      requires Valid() && table in tables && !owner[table].place.Bottom? && i < ENTRIES && !IsValid(tables[table][i])
      modifies this`tables, this`pool, this`owner
      ensures Valid()
      ensures forall t :: t in old(tables) ==> t in tables && t in owner && owner[t] == old(owner)[t]
      ensures ok <==> old(pool) != []
      ensures !ok ==> tables == old(tables) && owner == old(owner) && pool == old(pool)
      ensures ok ==> |pool| == |old(pool)| - 1 && SameLinks(old(tables), tables, table, i)
      ensures ok ==> Down(tables, table, i).Some? && NoLinks(tables, Down(tables, table, i).value)
    {
      var page := AllocPage();
      if page.None? {
        return false;
      }
      AddTable(tables, owner, table, i, page.value, Zeros(ENTRIES));
      tables := SetEntry(tables, table, i, Entry(page.value, VALID))[page.value := Zeros(ENTRIES)];
      owner := owner[page.value := Under(owner[table], i)];
      RefinesSame(old(tables), old(owner), tables, owner, flat);
      StillConserved(old(tables), old(frames), old(pool), tables, frames, pool, pages);
      return true;
    }

    /** One level of `walk_alloc`: the table below entry `i` of `table`, a new one if there is none. */
    method Descend(table: nat, i: nat) returns (r: Option<nat>)
      requires Valid() && table in tables && !owner[table].place.Bottom? && i < ENTRIES
      modifies this`tables, this`pool, this`owner
      ensures Valid()
      ensures forall t :: t in old(tables) ==> t in tables && t in owner && owner[t] == old(owner)[t]
      ensures r.None? <==> Down(old(tables), table, i) == None && old(pool) == []
      ensures r == Down(tables, table, i) && SameLinks(old(tables), tables, table, i)
      ensures r.Some? ==> r.value in tables && owner[r.value] == Under(owner[table], i)
      ensures r.None? || Down(old(tables), table, i).Some? ==>
                tables == old(tables) && owner == old(owner) && pool == old(pool)
      ensures r.Some? && Down(old(tables), table, i) == None ==> |pool| == |old(pool)| - 1 && NoLinks(tables, r.value)
    {
      if !IsValid(tables[table][i]) {
        var ok := NewTable(table, i);
        if !ok {
          return None;
        }
      }
      assert Linked(tables, owner, table, i);
      r := Some(PhysAddr(tables[table][i]));
    }

    /**
      `walk_alloc`, level by level: it fails if and only if there are fewer free pages than tables missing on the way.
    */
    method WalkAlloc(root: nat, va: nat) returns (r: Option<nat>)
      requires Valid() && root in flat && va / PAGESIZE < PAGES
      modifies this`tables, this`pool, this`owner
      ensures Valid()
      ensures r.None? <==> |old(pool)| < Lacking(old(tables), root, va / PAGESIZE)
      ensures r.Some? ==> r == BottomOf(tables, root, va) && r.value in tables && |tables[r.value]| == ENTRIES
      ensures r.Some? ==> Supplied(old(tables), tables, root, va / PAGESIZE)
      ensures r.Some? ==> |pool| == |old(pool)| - Lacking(old(tables), root, va / PAGESIZE)
      ensures r.None? ==> pool == [] && Alone(flat[root], va / PAGESIZE)
      ensures r.Some? ==> FoundIs(tables[r.value][GetIndex(va, 0)], flat[root], va / PAGESIZE)
    {
      var table, level := root, 2;
      ghost var p := va / PAGESIZE;
      while level > 0
        invariant 0 <= level <= 2 && table in tables && Valid() && root in flat
        invariant owner[table] == Owner(root, PlaceAt(va, level))
        invariant Reach(tables, root, va, level) == Some(table)
        invariant Stocked(old(tables), |old(pool)|, tables, |pool|, root, p, level)
      {
        ghost var before, owned, stock := tables, owner, |pool|;
        var below := Descend(table, GetIndex(va, level));
        if below.None? {
          OutOfStock(old(tables), |old(pool)|, before, stock, root, va, level, table);
          NoBottom(tables, owner, flat, root, va);
          return None;
        }
        NextStock(old(tables), |old(pool)|, before, owned, stock, tables, |pool|, root, va, level, table);
        table := below.value;
        level := level - 1;
      }
      BottomIsReached(tables, root, va);
      LookupIsFind(tables, root, va);
      r := Some(table);
    }

    /** The body of the loop of `map_pages`, for page `p`. */
    method MapPage(root: nat, va: nat, pa: nat, perm: nat, ghost p: nat) returns (ok: bool)
      requires Valid() && root in flat && va / PAGESIZE == p < PAGES && perm < 256
      modifies this`tables, this`pool, this`owner, this`flat
      ensures Valid()
      ensures flat == if ok then Put(old(flat), root, p, Entry(pa, perm)) else old(flat)
      ensures ok <==> p !in old(flat)[root] && Lacking(old(tables), root, p) <= |old(pool)|
      ensures ok ==> Supplied(old(tables), tables, root, p) && |pool| == |old(pool)| - Lacking(old(tables), root, p)
      ensures !ok ==> Refused(flat[root], p, pool)
    {
      var t := WalkAlloc(root, va);
      if t.None? {
        return false;
      }
      var i := GetIndex(va, 0);
      if IsValid(tables[t.value][i]) {
        return false;
      }
      SetEntryRefines(tables, owner, flat, root, va, t.value, Entry(pa, perm));
      StillSupplied(old(tables), tables, owner, root, va, t.value, i, Entry(pa, perm));
      StillConserved(tables, frames, pool, SetEntry(tables, t.value, i, Entry(pa, perm)), frames, pool, pages);
      tables := SetEntry(tables, t.value, i, Entry(pa, perm));
      flat := Put(flat, root, p, Entry(pa, perm));
      return true;
    }

    /** One more page of a range, of which those from page `p` to page `x` have been added to what was there before. */
    method MapNext(root: nat, cur: nat, frame: nat, perm: nat, ghost before: Flat, ghost p: nat,
                   ghost pa: nat, ghost x: nat)
      returns (ok: bool)
      requires Valid() && root in flat && cur == x * PAGESIZE && p <= x < PAGES && frame == pa + (x - p) * PAGESIZE
               && perm < 256
      requires Mapped(before, flat, root, p, x, pa, perm)
      modifies this`tables, this`pool, this`owner, this`flat
      ensures Valid() && root in flat
      ensures if ok then Mapped(before, flat, root, p, x + 1, pa, perm) else Mapped(before, flat, root, p, x, pa, perm)
      ensures ok <==> x !in before[root] && Lacking(old(tables), root, x) <= |old(pool)|
      ensures ok ==> Supplied(old(tables), tables, root, x) && |pool| == |old(pool)| - Lacking(old(tables), root, x)
      ensures !ok ==> Refused(flat[root], x, pool)
    {
      PageOf(cur, x);
      MappedNext(before, flat, root, p, pa, perm, x);
      ok := MapPage(root, cur, frame, perm, x);
    }

    /** The same with what the tables of the rest of the range, up to page `hi`, will cost. */
    method MapStep(root: nat, cur: nat, frame: nat, perm: nat, ghost before: Flat, ghost t0: Tables, ghost p: nat,
                   ghost pa: nat, ghost x: nat, ghost hi: nat, ghost spare: int)
      returns (ok: bool)
      requires Valid() && root in flat && cur == x * PAGESIZE && p <= x < hi <= PAGES
               && frame == pa + (x - p) * PAGESIZE && perm < 256
      requires Mapped(before, flat, root, p, x, pa, perm) && RangeSupplied(t0, tables, root, p, x)
      requires |pool| - Cost(tables, root, x, hi) == spare
      modifies this`tables, this`pool, this`owner, this`flat
      ensures Valid() && root in flat
      ensures if ok then Mapped(before, flat, root, p, x + 1, pa, perm) else Mapped(before, flat, root, p, x, pa, perm)
      ensures if ok then RangeSupplied(t0, tables, root, p, x + 1) && |pool| - Cost(tables, root, x + 1, hi) == spare
              else spare < 0 || x in before[root]
      ensures !ok ==> Refused(flat[root], x, pool)
    {
      ok := MapNext(root, cur, frame, perm, before, p, pa, x);
      CostAtLeast(old(tables), root, x, hi);
      if ok {
        CostNext(old(tables), tables, root, x, hi);
        RangeNext(t0, old(tables), tables, root, p, x);
      }
    }

    /** The loop of `map_pages`, over the pages from `p` to `hi`: it came as far as page `x`. */
    method MapLoop(root: nat, start: nat, end: nat, pa: nat, perm: nat, ghost p: nat, ghost hi: nat, ghost spare: int)
      returns (ok: bool, ghost x: nat)
      requires Valid() && root in flat && start == p * PAGESIZE && end == hi * PAGESIZE && p <= hi <= PAGES
               && perm < 256
      requires |pool| - Cost(tables, root, p, hi) == spare
      modifies this`tables, this`pool, this`owner, this`flat
      ensures Valid() && root in flat && p <= x <= hi && (ok <==> x == hi)
      ensures Mapped(old(flat), flat, root, p, x, pa, perm)
      ensures if ok then RangeSupplied(old(tables), tables, root, p, x) && |pool| == spare
              else Refused(flat[root], x, pool) && (spare < 0 || x in old(flat)[root])
    {
      var cur, frame := start, pa;
      x := p;
      NothingMapped(flat, tables, root, p, pa, perm);
      while cur < end
        invariant p <= x <= hi && cur == x * PAGESIZE && frame == pa + (x - p) * PAGESIZE
        invariant Valid() && root in flat && RangeSupplied(old(tables), tables, root, p, x)
        invariant Mapped(old(flat), flat, root, p, x, pa, perm)
        invariant |pool| - Cost(tables, root, x, hi) == spare
      {
        ok := MapStep(root, cur, frame, perm, old(flat), old(tables), p, pa, x, hi, spare);
        if !ok {
          return false, x;
        }
        cur, frame, x := cur + PAGESIZE, frame + PAGESIZE, x + 1;
      }
      ok := true;
    }

    /**
      `map_pages`: the pages before page `x` were mapped.  All of the range are if and only if none was mapped before
      and there is memory for the missing tables.
    */
    method MapPages(root: nat, va: nat, pa: nat, size: nat, perm: nat) returns (ok: bool, ghost x: nat)
      requires Valid() && root in flat && PageUp(va + size) <= PAGES * PAGESIZE && perm < 256
      modifies this`tables, this`pool, this`owner, this`flat
      ensures Valid()
      ensures var p, hi := va / PAGESIZE, PageUp(va + size) / PAGESIZE;
        && p <= x <= hi && (ok <==> x == hi)
        && Mapped(old(flat), flat, root, p, x, pa, perm)
        && (ok <==> Clear(old(flat)[root], p, hi) && Cost(old(tables), root, p, hi) <= |old(pool)|)
        && (ok ==>
              RangeSupplied(old(tables), tables, root, p, hi)
                  && |pool| == |old(pool)| - Cost(old(tables), root, p, hi))
        && root in flat && (!ok ==> Refused(flat[root], x, pool))
    {
      var start, end := PageDown(va), PageUp(va + size);
      ghost var p, hi := va / PAGESIZE, end / PAGESIZE;
      assert end == hi * PAGESIZE && p <= hi;
      ok, x := MapLoop(root, start, end, pa, perm, p, hi, |pool| - Cost(tables, root, p, hi));
      assert Vacant(old(flat)[root], x) <==> x !in old(flat)[root];
      MappedClear(old(flat), flat, root, p, x, pa, perm);
    }

    /** `map_pages` of a single page. */
    method MapOne(root: nat, va: nat, pa: nat, perm: nat, ghost p: nat) returns (ok: bool)
      requires Valid() && root in flat && va == p * PAGESIZE && p < PAGES && perm < 256
      modifies this`tables, this`pool, this`owner, this`flat
      ensures Valid()
      ensures flat == if ok then Put(old(flat), root, p, Entry(pa, perm)) else old(flat)
      ensures ok <==> p !in old(flat)[root] && Lacking(old(tables), root, p) <= |old(pool)|
      ensures ok ==> Supplied(old(tables), tables, root, p) && |pool| == |old(pool)| - Lacking(old(tables), root, p)
      ensures !ok ==> Refused(flat[root], p, pool)
    {
      OnePage(va, p);
      assert Vacant(flat[root], p) <==> p !in flat[root];
      CostOfOne(tables, root, p);
      ghost var x;
      ok, x := MapPages(root, va, pa, PAGESIZE, perm);
      OneMapped(old(flat), flat, root, p, x, pa, perm);
      if ok { RangeOfOne(old(tables), tables, root, p, x); }
    }

    /** The body of the loop of `unmap_pages`, for page `p`. */
    method UnmapPage(root: nat, va: nat, freeing: bool, ghost p: nat) returns (ok: bool)
      requires Valid() && root in flat && va / PAGESIZE == p < PAGES
      requires freeing && Mapping(flat, root, p) ==> PhysAddr(flat[root][p]) in frames
      modifies this`tables, this`frames, this`pool, this`flat
      ensures Valid()
      ensures ok <==> Mapping(old(flat), root, p)
      ensures !ok ==> flat == old(flat) && frames == old(frames)
      ensures ok ==> flat == Remove(old(flat), root, {p})
      ensures ok ==> frames == old(frames) - (if freeing then {PhysAddr(old(flat)[root][p])} else {})
    {
      var t := Walk(root, va);
      if t.None? {
        return false;
      }
      var i := GetIndex(va, 0);
      var w := tables[t.value][i];
      if !IsValid(w) || !IsLeaf(w) {
        return false;
      }
      SetEntryRefines(tables, owner, flat, root, va, t.value, 0);
      if freeing {
        FreeFrame(PhysAddr(w));
      }
      StillConserved(tables, frames, pool, SetEntry(tables, t.value, i, 0), frames, pool, pages);
      tables := SetEntry(tables, t.value, i, 0);
      flat := Remove(flat, root, {p});
      return true;
    }

    method UnmapNext(root: nat, va: nat, freeing: bool, ghost before: Flat, ghost framesBefore: Frames, ghost p: nat,
                     ghost done: nat, ghost n: nat)
      returns (ok: bool)
      requires Valid() && root in flat && va == (p + done) * PAGESIZE && done < n && p + n <= PAGES
      requires Unmapped(before, framesBefore, flat, frames, root, p, done, freeing)
      requires freeing ==> OwnFrames(before[root], framesBefore, p, n)
      modifies this`tables, this`frames, this`pool, this`flat
      ensures Valid() && root in flat
      ensures ok <==> Mapping(before, root, p + done)
      ensures Unmapped(before, framesBefore, flat, frames, root, p, if ok then done + 1 else done, freeing)
    {
      PageOf(va, p + done);
      UnmappedNext(before, framesBefore, flat, frames, root, p, done, n, freeing);
      ok := UnmapPage(root, va, freeing, p + done);
    }

    /** `unmap_pages`: `done` pages were taken out, all of them unless one was not mapped by a leaf. */
    method UnmapPages(root: nat, va: nat, n: nat, freeing: bool, ghost p: nat) returns (ok: bool, ghost done: nat)
      requires Valid() && root in flat && va == p * PAGESIZE && p + n <= PAGES
      requires freeing ==> OwnFrames(flat[root], frames, p, n)
      modifies this`tables, this`frames, this`pool, this`flat
      ensures Valid() && done <= n && (ok <==> done == n)
      ensures Unmapped(old(flat), old(frames), flat, frames, root, p, done, freeing)
      ensures forall q: nat :: p <= q < p + done ==> Mapping(old(flat), root, q)
      ensures !ok ==> !Mapping(old(flat), root, p + done)
    {
      var cur, end := va, va + n * PAGESIZE;
      done := 0;
      NothingUnmapped(flat, frames, root, p, freeing);
      while cur < end
        invariant done <= n && cur == (p + done) * PAGESIZE
        invariant Valid() && root in flat
        invariant Unmapped(old(flat), old(frames), flat, frames, root, p, done, freeing)
        invariant forall q: nat :: p <= q < p + done ==> Mapping(old(flat), root, q)
      {
        ok := UnmapNext(root, cur, freeing, old(flat), old(frames), p, done, n);
        if !ok {
          return false, done;
        }
        cur, done := cur + PAGESIZE, done + 1;
      }
      ok := true;
    }

    /** `drop` of the page table at `t`, and of the box it sits in: `ok` is false where the leaf panic is reached. */
    method DropTable(t: nat, ghost base: Tables) returns (ok: bool)
      requires Tree(base, owner) && Reached(base, owner) && t in base && BottomsAreLeaves(base, owner, owner[t])
      requires Intact(base, tables, owner, owner[t]) && Parted(tables, pool)
      modifies this`tables, this`pool
      ensures ok <==> Hollow(base, owner, owner[t])
      ensures ok ==> FreedAll(old(tables), old(pool), tables, pool, owner, owner[t]) && Parted(tables, pool)
      decreases Height(owner[t])
    {
      var i := 0;
      while i < ENTRIES
        invariant i <= ENTRIES && t in tables && tables[t] == base[t] && Parted(tables, pool)
        invariant Freed(old(tables), old(pool), tables, pool, owner, owner[t], i)
        invariant HollowFirst(base, owner, owner[t], i)
      {
        var w := tables[t][i];
        if IsValid(w) {
          if IsLeaf(w) {
            assert Linked(base, owner, t, i);
            return false;
          }
          assert Linked(base, owner, t, i);
          ghost var mid, midPool := tables, pool;
          IntactBelow(base, old(tables), old(pool), tables, pool, owner, t, i);
          ok := DropTable(PhysAddr(w), base);
          if !ok {
            return false;
          }
          FreedNext(base, old(tables), old(pool), mid, midPool, tables, pool, owner, t, i);
        } else {
          FreedSkip(base, old(tables), old(pool), tables, pool, owner, t, i);
        }
        i := i + 1;
      }
      FreedLast(base, old(tables), old(pool), tables, pool, owner, t);
      tables, pool := tables - {t}, pool + [t];
      ok := true;
    }

    /** Dropping a whole page table: it panics exactly when a page is still mapped, and frees every table page once. */
    method DropRoot(root: nat) returns (ok: bool)
      requires Valid() && root in flat && forall p :: p in flat[root] ==> IsLeaf(flat[root][p])
      modifies this`tables, this`pool, this`flat
      ensures ok <==> old(flat)[root] == map[]
      ensures ok ==> Valid() && flat == old(flat) - {root}
      ensures ok ==> forall t :: t in tables <==> t in old(tables) && owner[t].root != root
    {
      HollowMeansUnmapped(tables, owner, flat, root);
      ok := DropTable(root, tables);
      if ok {
        WithoutSpace(old(tables), tables, owner, root);
        MovedSeparate(old(tables), old(pool), tables, pool, frames);
        flat := flat - {root};
        RefinesLess(old(tables), tables, owner, old(flat), root);
        StillConserved(old(tables), old(frames), old(pool), tables, frames, pool, pages);
      }
    }

    /** A zeroed page as the root of a new, empty address space. */
    method NewRoot() returns (r: Option<nat>)
      requires Valid()
      modifies this`tables, this`pool, this`owner, this`flat
      ensures Valid()
      ensures r.None? <==> old(pool) == []
      ensures r.None? ==> flat == old(flat) && pool == old(pool)
      ensures r.Some? ==> r.value !in old(flat) && flat == old(flat)[r.value := map[]]
      ensures r.Some? ==> |pool| == |old(pool)| - 1 && NoLinks(tables, r.value)
    {
      r := AllocPage();
      if r.Some? {
        AddRoot(tables, owner, r.value, Zeros(ENTRIES));
        tables := tables[r.value := Zeros(ENTRIES)];
        owner := owner[r.value := Owner(r.value, Root)];
        flat := flat[r.value := map[]];
        RefinesMore(old(tables), old(owner), tables, owner, old(flat), r.value);
        StillConserved(old(tables), old(frames), old(pool), tables, frames, pool, pages);
      }
    }
  }

  lemma RefinesMore(t0: Tables, o0: Owners, t1: Tables, o1: Owners, flat: Flat, root: nat)
    requires Refines(t0, o0, flat) && root !in flat
    requires forall r :: IsRoot(t1, o1, r) <==> IsRoot(t0, o0, r) || r == root
    requires forall r, va: nat :: IsRoot(t0, o0, r) ==> Lookup(t1, r, va) == Lookup(t0, r, va)
    requires forall va: nat :: Lookup(t1, root, va) == 0
    ensures Refines(t1, o1, flat[root := map[]])
  {
    forall r, p: nat | r in flat && p < PAGES ensures FoundIs(Find(t1, r, p), flat[r], p) {
      assert FoundIs(Find(t0, r, p), flat[r], p);
    }
  }

  lemma HollowMeansUnmapped(tables: Tables, owner: Owners, flat: Flat, root: nat)
    requires Tree(tables, owner) && Reached(tables, owner) && Refines(tables, owner, flat) && root in flat
    requires forall p :: p in flat[root] ==> IsLeaf(flat[root][p])
    ensures BottomsAreLeaves(tables, owner, owner[root])
    ensures Hollow(tables, owner, owner[root]) <==> flat[root] == map[]
  {
    forall u, i: nat | u in tables && owner[u].place.Bottom? && owner[u].root == root && i < ENTRIES
        && IsValid(tables[u][i])
      ensures IsLeaf(tables[u][i]) && flat[root] != map[]
    {
      var p := EntryHasPage(tables, owner, u, i);
      assert FoundIs(Find(tables, root, p), flat[root], p);
    }
    if flat[root] != map[] {
      var p: nat :| p in flat[root];
      assert FoundIs(Find(tables, root, p), flat[root], p);
      BottomOwner(tables, owner, root, p * PAGESIZE);
      var u := BottomOf(tables, root, p * PAGESIZE).value;
      assert IsValid(tables[u][GetIndex(p * PAGESIZE, 0)]);
    }
  }

  lemma MovedSeparate(t0: Tables, pool0: seq<nat>, t1: Tables, pool1: seq<nat>, frames: Frames)
    requires Separate(t0, frames, pool0) && MovedTo(t0, pool0, t1, pool1) && Parted(t1, pool1)
    requires forall u :: u in t0 ==> u % PAGESIZE == 0
    requires forall u :: u in t1 ==> u in t0
    ensures Separate(t1, frames, pool1)
  {
    forall k | 0 <= k < |pool1| ensures pool1[k] % PAGESIZE == 0 && pool1[k] !in t1 && pool1[k] !in frames {
      assert pool1[k] in pool1;
    }
  }

  lemma RefinesLess(t0: Tables, t1: Tables, owner: Owners, flat: Flat, root: nat)
    requires Refines(t0, owner, flat)
    requires forall r :: IsRoot(t1, owner, r) <==> IsRoot(t0, owner, r) && r != root
    requires forall r, va: nat :: IsRoot(t1, owner, r) ==> Lookup(t1, r, va) == Lookup(t0, r, va)
    ensures Refines(t1, owner, flat - {root})
  {
    forall r, p: nat | r in flat - {root} && p < PAGES ensures FoundIs(Find(t1, r, p), flat[r], p) {
      assert FoundIs(Find(t0, r, p), flat[r], p);
    }
  }

  function Height(o: Owner): nat {
    match o.place case Root => 2 case Mid(_) => 1 case Bottom(_, _) => 0
  }

  ghost predicate Parted(tables: Tables, pool: seq<nat>) {
    Distinct(pool) && forall x :: x in pool ==> x !in tables
  }

  /** What is left of `base` still has everything below `o`. */
  ghost predicate Intact(base: Tables, tables: Tables, owner: Owners, o: Owner) {
    && (forall u :: u in tables ==> u in base && tables[u] == base[u])
    && (forall u :: u in base ==> u in owner && (Beneath(o, owner[u]) ==> u in tables))
  }

  ghost predicate HollowFirst(tables: Tables, owner: Owners, o: Owner, n: nat) {
    forall u, i: nat {:trigger tables[u][i]} ::
      u in tables && u in owner && i < |tables[u]| && owner[u].place.Bottom?
          && (if o.place.Bottom? then o == owner[u] && i < n else BelowFirst(o, owner[u], n))
      ==> !IsValid(tables[u][i])
  }

  lemma IntactBelow(base: Tables, start: Tables, poolBefore: seq<nat>, tables: Tables, pool: seq<nat>, owner: Owners,
                    t: nat, i: nat)
    requires Tree(base, owner) && Reached(base, owner) && t in base && i < ENTRIES && IsValid(base[t][i])
             && !owner[t].place.Bottom?
    requires Intact(base, start, owner, owner[t]) && Freed(start, poolBefore, tables, pool, owner, owner[t], i)
    ensures var c := PhysAddr(base[t][i]);
            && c in base && owner[c] == Under(owner[t], i)
            && Intact(base, tables, owner, owner[c])
                && (Hollow(base, owner, owner[t]) ==> Hollow(base, owner, owner[c]))
            && (BottomsAreLeaves(base, owner, owner[t]) ==> BottomsAreLeaves(base, owner, owner[c]))
  {
    assert Linked(base, owner, t, i);
  }

  lemma FreedNext(base: Tables, start: Tables, poolBefore: seq<nat>, mid: Tables, midPool: seq<nat>, tables: Tables,
                  pool: seq<nat>, owner: Owners, t: nat, i: nat)
    requires Tree(base, owner) && Reached(base, owner) && t in base && i < ENTRIES && IsValid(base[t][i])
             && !owner[t].place.Bottom?
    requires Intact(base, start, owner, owner[t]) && Freed(start, poolBefore, mid, midPool, owner, owner[t], i)
    requires FreedAll(mid, midPool, tables, pool, owner, Under(owner[t], i))
    ensures Freed(start, poolBefore, tables, pool, owner, owner[t], i + 1)
    ensures t in mid ==> t in tables
    ensures HollowFirst(base, owner, owner[t], i) && Hollow(base, owner, Under(owner[t], i)) ==>
              HollowFirst(base, owner, owner[t], i + 1)
  {
    forall u | u in base
      ensures u in owner
              && (BelowFirst(owner[t], owner[u], i + 1) <==>
                    BelowFirst(owner[t], owner[u], i) || Beneath(Under(owner[t], i), owner[u])) {
      NextEntry(base, owner, t, i, u);
    }
  }

  lemma FreedSkip(base: Tables, start: Tables, poolBefore: seq<nat>, tables: Tables, pool: seq<nat>, owner: Owners,
                  t: nat, i: nat)
    requires Tree(base, owner) && Reached(base, owner) && t in base && i < ENTRIES && !IsValid(base[t][i])
    requires Intact(base, start, owner, owner[t]) && Freed(start, poolBefore, tables, pool, owner, owner[t], i)
    ensures Freed(start, poolBefore, tables, pool, owner, owner[t], i + 1)
    ensures HollowFirst(base, owner, owner[t], i) ==> HollowFirst(base, owner, owner[t], i + 1)
  {
    if owner[t].place.Bottom? {
      forall u | u in base && owner[u] == owner[t] ensures u == t {
        AllEntries(base, owner, t, u);
      }
    } else {
      forall u | u in base
        ensures u in owner && (BelowFirst(owner[t], owner[u], i + 1) <==> BelowFirst(owner[t], owner[u], i)) {
        NextEntry(base, owner, t, i, u);
      }
    }
  }

  lemma FreedLast(base: Tables, start: Tables, poolBefore: seq<nat>, tables: Tables, pool: seq<nat>,
                  owner: Owners, t: nat)
    requires Tree(base, owner) && Reached(base, owner) && t in base && t in tables && Parted(tables, pool)
    requires Intact(base, start, owner, owner[t]) && Freed(start, poolBefore, tables, pool, owner, owner[t], ENTRIES)
    requires HollowFirst(base, owner, owner[t], ENTRIES)
    ensures FreedAll(start, poolBefore, tables - {t}, pool + [t], owner, owner[t]) && Parted(tables - {t}, pool + [t])
    ensures Hollow(base, owner, owner[t])
  {
    forall u | u in base ensures Beneath(owner[t], owner[u]) <==> u == t || BelowFirst(owner[t], owner[u], ENTRIES) {
      AllEntries(base, owner, t, u);
    }
  }

  lemma NothingUnmapped(flat: Flat, frames: Frames, root: nat, p: nat, freeing: bool)
    requires root in flat
    ensures Unmapped(flat, frames, flat, frames, root, p, 0, freeing)
  {
    assert flat[root] - {} == flat[root] && frames - {} == frames;
  }

  lemma {:induction false} FramesOfIs(m: map<nat, nat>, p: nat, n: nat, q: nat)
    requires n <= q && forall i: nat :: p <= i < p + n && i in m && p + q in m ==> PhysAddr(m[i]) != PhysAddr(m[p + q])
    ensures p + q in m ==> PhysAddr(m[p + q]) !in FramesOf(m, p, n)
  {
    if n > 0 { FramesOfIs(m, p, n - 1, q); }
  }

  lemma UnmappedNext(before: Flat, framesBefore: Frames, flat: Flat, frames: Frames, root: nat, p: nat, n: nat,
                     last: nat, freeing: bool)
    requires Unmapped(before, framesBefore, flat, frames, root, p, n, freeing) && n < last
    requires freeing ==> OwnFrames(before[root], framesBefore, p, last)
    ensures root in flat && (Mapping(flat, root, p + n) <==> Mapping(before, root, p + n))
    ensures Mapping(flat, root, p + n) ==> flat[root][p + n] == before[root][p + n]
    ensures freeing && Mapping(flat, root, p + n) ==> PhysAddr(flat[root][p + n]) in frames
    ensures Mapping(flat, root, p + n) ==>
              Unmapped(before, framesBefore, Remove(flat, root, {p + n}),
                frames - (if freeing then {PhysAddr(flat[root][p + n])} else {}), root, p, n + 1, freeing)
  {
    RangeIs(p, n);
    if freeing { FramesOfIs(before[root], p, n, n); }
    assert before[root] - PageRange(p, n) - {p + n} == before[root] - PageRange(p, n + 1);
    if p + n in before[root] {
      var f := PhysAddr(before[root][p + n]);
      assert framesBefore - FramesOf(before[root], p, n) - {f} == framesBefore - FramesOf(before[root], p, n + 1);
      assert frames - {} == frames;
    }
  }

  lemma OneMapped(before: Flat, after: Flat, root: nat, p: nat, x: nat, pa: nat, perm: nat)
    requires Mapped(before, after, root, p, x, pa, perm) && p <= x <= p + 1
    ensures after == if x > p then Put(before, root, p, Entry(pa, perm)) else before
    ensures x > p ==> p !in before[root]
  {
    var m, m' := before[root], after[root];
    assert MappedAt(m, m', p, x, pa, perm, p);
    forall q: nat ensures (q in m' <==> q in m || (x > p && q == p)) && (q in m ==> m'[q] == m[q]) {
      assert MappedAt(m, m', p, x, pa, perm, q);
    }
    assert m' == if x > p then m[p := Entry(pa, perm)] else m;
  }

  /** Where a walk meets no bottom table, no page of that table is mapped. */
  lemma NoBottom(tables: Tables, owner: Owners, flat: Flat, root: nat, va: nat)
    requires Refines(tables, owner, flat) && root in flat && BottomOf(tables, root, va) == None
    ensures Alone(flat[root], va / PAGESIZE)
  {
    forall q | q in flat[root] ensures q / ENTRIES != va / PAGESIZE / ENTRIES {
      assert FoundIs(Find(tables, root, q), flat[root], q);
      if q / ENTRIES == va / PAGESIZE / ENTRIES { SameTable(q, va); }
    }
  }

  lemma SameTable(q: nat, va: nat)
    requires q / ENTRIES == va / PAGESIZE / ENTRIES
    ensures GetIndex(q * PAGESIZE, 1) == GetIndex(va, 1) && GetIndex(q * PAGESIZE, 2) == GetIndex(va, 2)
  {
    IndexOfPage(va, 1);
    IndexOfPage(va, 2);
    var p := va / PAGESIZE;
    assert q * PAGESIZE / 0x20_0000 == q / 512 && p * PAGESIZE / 0x20_0000 == p / 512;
    assert q * PAGESIZE / 0x4000_0000 == q / 512 / 512 && p * PAGESIZE / 0x4000_0000 == p / 512 / 512;
  }

  /** Writing the entry leaves the tables as they are. */
  lemma StillSupplied(t0: Tables, tables: Tables, owner: Owners, root: nat, va: nat, t: nat, i: nat, w: nat)
    requires Tree(tables, owner) && Reached(tables, owner) && IsRoot(tables, owner, root)
             && BottomOf(tables, root, va) == Some(t)
    requires Supplied(t0, tables, root, va / PAGESIZE) && i < ENTRIES
    ensures t in tables && i < |tables[t]| && Supplied(t0, SetEntry(tables, t, i, w), root, va / PAGESIZE)
  {
    BottomOwner(tables, owner, root, va);
    SetBottom(tables, owner, t, i, w);
    SameTables(t0, tables, root, va / PAGESIZE, SetEntry(tables, t, i, w));
  }

  lemma OnePage(va: nat, p: nat)
    requires va == p * PAGESIZE
    ensures va / PAGESIZE == p && PageUp(va + PAGESIZE) == (p + 1) * PAGESIZE
            && PageUp(va + PAGESIZE) / PAGESIZE == p + 1
  {
  }

  lemma PageOf(va: nat, p: nat)
    requires va == p * PAGESIZE
    ensures va / PAGESIZE == p
  {
  }

  lemma MappedNext(before: Flat, flat: Flat, root: nat, p: nat, pa: nat, perm: nat, x: nat)
    requires Mapped(before, flat, root, p, x, pa, perm) && p <= x
    ensures root in flat && (x in flat[root] <==> x in before[root])
    ensures x !in flat[root] ==>
              Mapped(before, Put(flat, root, x, Entry(pa + (x - p) * PAGESIZE, perm)), root, p, x + 1, pa, perm)
  {
    assert MappedAt(before[root], flat[root], p, x, pa, perm, x);
    if x !in flat[root] {
      var flat', y := Put(flat, root, x, Entry(pa + (x - p) * PAGESIZE, perm)), x + 1;
      forall q: nat ensures MappedAt(before[root], flat'[root], p, y, pa, perm, q) {
        assert MappedAt(before[root], flat[root], p, x, pa, perm, q);
      }
    }
  }

  lemma NothingMapped(flat: Flat, tables: Tables, root: nat, p: nat, pa: nat, perm: nat)
    requires root in flat
    ensures Mapped(flat, flat, root, p, p, pa, perm) && RangeSupplied(tables, tables, root, p, p)
  {
  }

  lemma MappedClear(before: Flat, flat: Flat, root: nat, p: nat, x: nat, pa: nat, perm: nat)
    requires Mapped(before, flat, root, p, x, pa, perm)
    ensures Clear(before[root], p, x)
  {
    forall q: nat | p <= q < x ensures Vacant(before[root], q) {
      assert MappedAt(before[root], flat[root], p, x, pa, perm, q);
    }
  }

  lemma RefinesSame(t0: Tables, o0: Owners, t1: Tables, o1: Owners, flat: Flat)
    requires Refines(t0, o0, flat)
    requires forall r :: IsRoot(t1, o1, r) <==> IsRoot(t0, o0, r)
    requires forall r, va: nat :: IsRoot(t0, o0, r) ==> Lookup(t1, r, va) == Lookup(t0, r, va)
    ensures Refines(t1, o1, flat)
  {
    forall r, p: nat | r in flat && p < PAGES ensures FoundIs(Find(t1, r, p), flat[r], p) {
      assert FoundIs(Find(t0, r, p), flat[r], p);
    }
  }

  /** Writing the entry a walk reached is an update of the flat map at that page. */
  lemma SetEntryRefines(tables: Tables, owner: Owners, flat: Flat, root: nat, va: nat, t: nat, w: nat)
    requires Tree(tables, owner) && Reached(tables, owner) && Refines(tables, owner, flat) && root in flat
             && va / PAGESIZE < PAGES
    requires BottomOf(tables, root, va) == Some(t)
    ensures t in tables && |tables[t]| == ENTRIES
    ensures var tables' := SetEntry(tables, t, GetIndex(va, 0), w);
            && Tree(tables', owner) && Reached(tables', owner)
            && Refines(tables', owner, if IsValid(w) then Put(flat, root, va / PAGESIZE, w)
                       else Remove(flat, root, {va / PAGESIZE}))
  {
    var p := va / PAGESIZE;
    LookupIsFind(tables, root, va);
    IndexOfPage(va, 0);
    SetFound(tables, owner, root, p, t, w);
    var tables' := SetEntry(tables, t, GetIndex(va, 0), w);
    var flat' := if IsValid(w) then Put(flat, root, p, w) else Remove(flat, root, {p});
    forall r, q: nat | r in flat' && q < PAGES ensures FoundIs(Find(tables', r, q), flat'[r], q) {
      assert FoundIs(Find(tables, r, q), flat[r], q);
    }
  }
}
