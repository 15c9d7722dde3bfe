/** How many page-table pages a range of virtual pages lacks, and what each page that is mapped adds to the tables. */
module TableCost {
  import opened Prelude
  import opened PageWalk

  const SPAN: nat := 0x4_0000 // the pages under one entry of a root

  predicate HasMid(tables: Tables, root: nat, q: nat) {
    Down(tables, root, GetIndex(q * PAGESIZE, 2)).Some?
  }

  predicate HasBottom(tables: Tables, root: nat, q: nat) {
    BottomOf(tables, root, q * PAGESIZE).Some?
  }

  /** The table pages that are missing on the way to page `q`. */
  function Lacking(tables: Tables, root: nat, q: nat): nat {
    if HasBottom(tables, root, q) then 0 else if HasMid(tables, root, q) then 1 else 2
  }

  // ---- A range ----

  /**
    The table pages missing for the pages from `p` to `hi`: those on the way to `p`, and those that begin behind it.
  */
  function Cost(tables: Tables, root: nat, p: nat, hi: nat): nat {
    if p >= hi then 0 else Lacking(tables, root, p) + Later(tables, root, p + 1, hi)
  }

  function Later(tables: Tables, root: nat, q: nat, hi: nat): nat
    decreases hi - q
  {
    if q >= hi then 0 else Begun(tables, root, q) + Later(tables, root, q + 1, hi)
  }

  /** The missing table pages whose first page is `q`. */
  function Begun(tables: Tables, root: nat, q: nat): nat {
    (if q % ENTRIES == 0 && !HasBottom(tables, root, q) then 1
     else 0) + (if q % SPAN == 0 && !HasMid(tables, root, q) then 1 else 0)
  }

  /** The tables have become those of `t0` and the ones on the way to page `p`. */
  ghost predicate Supplied(t0: Tables, t1: Tables, root: nat, p: nat) {
    forall q: nat {:trigger SuppliedAt(t0, t1, root, p, q)} :: q < PAGES ==> SuppliedAt(t0, t1, root, p, q)
  }

  predicate SuppliedAt(t0: Tables, t1: Tables, root: nat, p: nat, q: nat) {
    && (HasMid(t1, root, q) <==> HasMid(t0, root, q) || q / SPAN == p / SPAN)
    && (HasBottom(t1, root, q) <==> HasBottom(t0, root, q) || q / ENTRIES == p / ENTRIES)
  }

  /** The same for the pages from `p` to `x`. */
  ghost predicate RangeSupplied(t0: Tables, t1: Tables, root: nat, p: nat, x: nat) {
    forall q: nat {:trigger RangeSuppliedAt(t0, t1, root, p, x, q)} :: q < PAGES ==>
          RangeSuppliedAt(t0, t1, root, p, x, q)
  }

  predicate RangeSuppliedAt(t0: Tables, t1: Tables, root: nat, p: nat, x: nat, q: nat) {
    && (HasMid(t1, root, q) <==> HasMid(t0, root, q) || (p < x && p / SPAN <= q / SPAN <= (x - 1) / SPAN))
    && (HasBottom(t1, root, q) <==>
          HasBottom(t0, root, q) || (p < x && p / ENTRIES <= q / ENTRIES <= (x - 1) / ENTRIES))
  }

  lemma RangeNext(t0: Tables, t1: Tables, t2: Tables, root: nat, p: nat, x: nat)
    requires RangeSupplied(t0, t1, root, p, x) && Supplied(t1, t2, root, x) && p <= x
    ensures RangeSupplied(t0, t2, root, p, x + 1)
  {
    var y := x + 1;
    forall q: nat | q < PAGES ensures RangeSuppliedAt(t0, t2, root, p, y, q) {
      assert RangeSuppliedAt(t0, t1, root, p, x, q) && SuppliedAt(t1, t2, root, x, q);
    }
  }

  lemma RangeOfOne(t0: Tables, t1: Tables, root: nat, p: nat, x: nat)
    requires RangeSupplied(t0, t1, root, p, x) && x == p + 1
    ensures Supplied(t0, t1, root, p)
  {
    forall q: nat | q < PAGES ensures SuppliedAt(t0, t1, root, p, q) {
      assert RangeSuppliedAt(t0, t1, root, p, x, q);
    }
  }

  lemma {:induction false} LaterSame(t0: Tables, t1: Tables, root: nat, p: nat, q: nat, hi: nat)
    requires Supplied(t0, t1, root, p) && p < q && hi <= PAGES
    ensures Later(t1, root, q, hi) == Later(t0, root, q, hi)
    decreases hi - q
  {
    if q < hi {
      LaterSame(t0, t1, root, p, q + 1, hi);
      assert SuppliedAt(t0, t1, root, p, q);
    }
  }

  /** Mapping the first page of a range pays for its way. */
  lemma CostNext(t0: Tables, t1: Tables, root: nat, p: nat, hi: nat)
    requires Supplied(t0, t1, root, p) && p < hi <= PAGES
    ensures Cost(t0, root, p, hi) == Lacking(t0, root, p) + Cost(t1, root, p + 1, hi)
  {
    if p + 1 < hi {
      LaterSame(t0, t1, root, p, p + 2, hi);
      assert SuppliedAt(t0, t1, root, p, p + 1);
      MidOfBottom(t1, root, p + 1);
      NextTable(p);
    }
  }

  lemma CostAtLeast(tables: Tables, root: nat, p: nat, hi: nat)
    requires p < hi
    ensures Lacking(tables, root, p) <= Cost(tables, root, p, hi)
  {
  }

  lemma CostOfOne(tables: Tables, root: nat, p: nat)
    ensures Cost(tables, root, p, p + 1) == Lacking(tables, root, p)
  {
  }

  lemma MidOfBottom(tables: Tables, root: nat, q: nat)
    ensures HasBottom(tables, root, q) ==> HasMid(tables, root, q)
  {
  }

  lemma NextTable(p: nat)
    ensures (p + 1) % ENTRIES != 0 ==> (p + 1) / ENTRIES == p / ENTRIES
    ensures (p + 1) % SPAN != 0 ==> (p + 1) / SPAN == p / SPAN
    ensures (p + 1) % SPAN == 0 ==> (p + 1) % ENTRIES == 0
    ensures (p + 1) % ENTRIES == 0 ==> (p + 1) / ENTRIES != p / ENTRIES
    ensures (p + 1) % SPAN == 0 ==> (p + 1) / SPAN != p / SPAN
  {
  }

  // ---- One more table ----

  lemma PageIndices(q: nat)
    requires q < PAGES
    ensures GetIndex(q * PAGESIZE, 2) == q / SPAN && GetIndex(q * PAGESIZE, 1) == q / ENTRIES % ENTRIES
  {
    assert q * PAGESIZE / 0x20_0000 == q / 512 && q * PAGESIZE / 0x4000_0000 == q / 0x4_0000;
  }

  /** Every link of `t0` but entry `i` of `t` is as it was. */
  ghost predicate SameLinks(t0: Tables, t1: Tables, t: nat, i: nat) {
    forall u, j: nat {:trigger Down(t1, u, j)} :: u in t0 && !(u == t && j == i) ==> Down(t1, u, j) == Down(t0, u, j)
  }

  ghost predicate NoLinks(tables: Tables, t: nat) {
    forall j: nat {:trigger Down(tables, t, j)} :: Down(tables, t, j) == None
  }

  /** An empty table under the root. */
  ghost predicate MidGrew(t0: Tables, t1: Tables, root: nat, p: nat) {
    forall q: nat {:trigger MidGrewAt(t0, t1, root, p, q)} :: q < PAGES ==> MidGrewAt(t0, t1, root, p, q)
  }

  predicate MidGrewAt(t0: Tables, t1: Tables, root: nat, p: nat, q: nat) {
    && (HasMid(t1, root, q) <==> HasMid(t0, root, q) || q / SPAN == p / SPAN)
    && (HasBottom(t1, root, q) <==> HasBottom(t0, root, q))
  }

  lemma NewMid(t0: Tables, owner: Owners, t1: Tables, root: nat, p: nat, c: nat)
    requires Tree(t0, owner) && IsRoot(t0, owner, root) && p < PAGES && !HasMid(t0, root, p)
    requires var i := GetIndex(p * PAGESIZE, 2);
             SameLinks(t0, t1, root, i) && Down(t1, root, i) == Some(c) && NoLinks(t1, c)
    ensures MidGrew(t0, t1, root, p) && HasMid(t1, root, p)
  {
    PageIndices(p);
    forall q: nat | q < PAGES ensures MidGrewAt(t0, t1, root, p, q) {
      PageIndices(q);
      BottomOwner(t0, owner, root, q * PAGESIZE);
      var m := Down(t0, root, GetIndex(q * PAGESIZE, 2));
      if m.Some? {
        assert Down(t1, m.value, GetIndex(q * PAGESIZE, 1)) == Down(t0, m.value, GetIndex(q * PAGESIZE, 1));
      }
    }
  }

  lemma NewBottom(t0: Tables, owner: Owners, t1: Tables, root: nat, p: nat, m: nat, c: nat)
    requires Tree(t0, owner) && IsRoot(t0, owner, root) && p < PAGES
             && Down(t0, root, GetIndex(p * PAGESIZE, 2)) == Some(m)
    requires var i := GetIndex(p * PAGESIZE, 1); SameLinks(t0, t1, m, i) && Down(t1, m, i) == Some(c)
    ensures Supplied(t0, t1, root, p)
  {
    PageIndices(p);
    BottomOwner(t0, owner, root, p * PAGESIZE);
    forall q: nat | q < PAGES ensures SuppliedAt(t0, t1, root, p, q) {
      PageIndices(q);
      BottomOwner(t0, owner, root, q * PAGESIZE);
      SameBottom(p, q);
      assert Down(t1, root, GetIndex(q * PAGESIZE, 2)) == Down(t0, root, GetIndex(q * PAGESIZE, 2));
      var mq := Down(t0, root, GetIndex(q * PAGESIZE, 2));
      if mq.Some? && !(mq.value == m && GetIndex(q * PAGESIZE, 1) == GetIndex(p * PAGESIZE, 1)) {
        assert Down(t1, mq.value, GetIndex(q * PAGESIZE, 1)) == Down(t0, mq.value, GetIndex(q * PAGESIZE, 1));
      }
    }
  }

  lemma SameBottom(p: nat, q: nat)
    ensures q / ENTRIES == p / ENTRIES <==> q / SPAN == p / SPAN && q / ENTRIES % ENTRIES == p / ENTRIES % ENTRIES
  {
    assert q / SPAN == q / ENTRIES / ENTRIES && p / SPAN == p / ENTRIES / ENTRIES;
  }

  /** The two together. */
  lemma MidThenBottom(t0: Tables, t1: Tables, t2: Tables, root: nat, p: nat)
    requires MidGrew(t0, t1, root, p) && Supplied(t1, t2, root, p)
    ensures Supplied(t0, t2, root, p)
  {
    forall q: nat | q < PAGES ensures SuppliedAt(t0, t2, root, p, q) {
      assert MidGrewAt(t0, t1, root, p, q) && SuppliedAt(t1, t2, root, p, q);
    }
  }

  /** Where the way to `p` is there, nothing is added. */
  lemma AlreadySupplied(tables: Tables, root: nat, p: nat)
    requires p < PAGES && HasBottom(tables, root, p)
    ensures Supplied(tables, tables, root, p)
  {
    PageIndices(p);
    forall q: nat | q < PAGES ensures SuppliedAt(tables, tables, root, p, q) {
      PageIndices(q);
      SameBottom(p, q);
    }
  }

  /** Writing an entry of a bottom table moves no walk. */
  lemma SameTables(t0: Tables, t1: Tables, root: nat, p: nat, t2: Tables)
    requires Supplied(t0, t1, root, p)
    requires forall j: nat {:trigger Down(t2, root, j)} :: Down(t2, root, j) == Down(t1, root, j)
    requires forall va: nat {:trigger BottomOf(t2, root, va)} :: BottomOf(t2, root, va) == BottomOf(t1, root, va)
    ensures Supplied(t0, t2, root, p)
  {
    forall q: nat | q < PAGES ensures SuppliedAt(t0, t2, root, p, q) {
      assert SuppliedAt(t0, t1, root, p, q);
      assert BottomOf(t2, root, q * PAGESIZE) == BottomOf(t1, root, q * PAGESIZE);
    }
  }

  // ---- Walking down with new tables ----

  /** With `level` levels left, of `n0` free pages `n` are left. */
  ghost predicate Stocked(t0: Tables, n0: nat, t: Tables, n: nat, root: nat, p: nat, level: nat) {
    match level
    case 2 => t == t0 && n == n0
    case 1 => HasMid(t, root, p) && if HasMid(t0, root, p) then t == t0 && n == n0
        else MidGrew(t0, t, root, p) && n == n0 - 1
    case _ => Supplied(t0, t, root, p) && n == n0 - Lacking(t0, root, p)
  }

  lemma NextStock(t0: Tables, n0: nat, t: Tables, owner: Owners, n: nat, t': Tables, n': nat, root: nat, va: nat,
                  level: nat, table: nat)
    requires Tree(t, owner) && IsRoot(t, owner, root) && 1 <= level <= 2 && va / PAGESIZE < PAGES
    requires Reach(t, root, va, level) == Some(table) && Stocked(t0, n0, t, n, root, va / PAGESIZE, level)
    requires var i := GetIndex(va, level);
             && SameLinks(t, t', table, i) && Down(t', table, i).Some?
             && if Down(t, table, i).Some? then t' == t && n' == n
                 else n' == n - 1 && NoLinks(t', Down(t', table, i).value)
    ensures Stocked(t0, n0, t', n', root, va / PAGESIZE, level - 1)
    ensures Reach(t', root, va, level - 1) == Down(t', table, GetIndex(va, level))
  {
    var p, i := va / PAGESIZE, GetIndex(va, level);
    IndexOfPage(va, 1);
    IndexOfPage(va, 2);
    if level == 2 {
      if Down(t, table, i) == None { NewMid(t, owner, t', root, p, Down(t', table, i).value); }
    } else {
      assert Reach(t, root, va, 1) == Down(t, root, GetIndex(va, 2));
      BottomOwner(t, owner, root, va);
      assert Down(t', root, GetIndex(va, 2)) == Down(t, root, GetIndex(va, 2));
      assert Reach(t', root, va, 1) == Some(table);
      if Down(t, table, i) == None {
        NewBottom(t, owner, t', root, p, table, Down(t', table, i).value);
        if !HasMid(t0, root, p) { MidThenBottom(t0, t, t', root, p); }
        assert HasMid(t0, root, p) || MidGrewAt(t0, t, root, p, p);
      } else {
        assert HasMid(t0, root, p) || MidGrewAt(t0, t, root, p, p);
        AlreadySupplied(t, root, p);
      }
    }
  }

  lemma OutOfStock(t0: Tables, n0: nat, t: Tables, n: nat, root: nat, va: nat, level: nat, table: nat)
    requires 1 <= level <= 2 && va / PAGESIZE < PAGES && n == 0
    requires Reach(t, root, va, level) == Some(table) && Stocked(t0, n0, t, n, root, va / PAGESIZE, level)
    requires Down(t, table, GetIndex(va, level)) == None
    ensures n0 < Lacking(t0, root, va / PAGESIZE) && BottomOf(t, root, va) == None
  {
    var p := va / PAGESIZE;
    IndexOfPage(va, 1);
    IndexOfPage(va, 2);
    BottomIsReached(t, root, va);
    assert level == 1 ==> Reach(t, root, va, 1) == Down(t, root, GetIndex(va, 2));
    assert level == 1 ==> HasMid(t0, root, p) || MidGrewAt(t0, t, root, p, p);
  }
}
