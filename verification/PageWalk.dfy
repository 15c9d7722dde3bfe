/**
  Sv39 page tables (kernel/src/page_table.rs): entry encoding, index arithmetic and the three-level
  walk, over a memory of page-table pages.  Shifts and masks are written as division and remainder.
*/
module PageWalk {
  import opened Prelude

  const PAGESIZE: nat := 4096
  const ENTRIES: nat := 512
  const PAGES: nat := 0x800_0000 // 2^27 virtual pages
  const SPACE: nat := 0x80_0000_0000 // PAGES * PAGESIZE, 2^39 bytes

  function PageDown(a: nat): (r: nat)
    ensures r <= a < r + PAGESIZE && r % PAGESIZE == 0
  {
    a / PAGESIZE * PAGESIZE
  }

  function PageUp(a: nat): (r: nat)
    ensures a <= r < a + PAGESIZE && r % PAGESIZE == 0
  {
    (a + PAGESIZE - 1) / PAGESIZE * PAGESIZE
  }

  /** `(va >> (12 + level * 9)) & 0x1FF`. */
  function GetIndex(va: nat, level: nat): (i: nat)
    requires level <= 2
    ensures i < ENTRIES
  {
    match level
    case 0 => va / 0x1000 % ENTRIES
    case 1 => va / 0x20_0000 % ENTRIES
    case _ => va / 0x4000_0000 % ENTRIES
  }

  /** The page that a walk takes an address for: the bits above the three indices are ignored. */
  function PageIn(va: nat): (p: nat)
    ensures p < PAGES
  {
    va / PAGESIZE % PAGES
  }

  lemma IndexWraps(va: nat, level: nat)
    requires level <= 2
    ensures GetIndex(va, level) == GetIndex(PageIn(va) * PAGESIZE, level)
  {
    var q := va / PAGESIZE;
    var p, k := q % PAGES, q / PAGES;
    assert q == p + k * PAGES;
    assert va / 0x20_0000 == q / 512 && va / 0x4000_0000 == q / 512 / 512;
    assert p * PAGESIZE / 0x20_0000 == p / 512 && p * PAGESIZE / 0x4000_0000 == p / 512 / 512;
    assert q / 512 == p / 512 + k * 0x4_0000;
    assert q / 512 / 512 == p / 512 / 512 + k * 512;
  }

  /** The three indices together name the virtual page, and nothing else does. */
  lemma IndicesNamePage(va: nat)
    requires va / PAGESIZE < PAGES
    ensures va / PAGESIZE == (GetIndex(va, 2) * ENTRIES + GetIndex(va, 1)) * ENTRIES + GetIndex(va, 0)
  {
    var p := va / PAGESIZE;
    assert va / 0x20_0000 == p / 512;
    assert va / 0x4000_0000 == p / 512 / 512;
    assert p / 512 / 512 < 512;
  }

  // ---- Entries ----

  const VALID: nat := 1
  const READ: nat := 2
  const WRITE: nat := 4
  const EXEC: nat := 8
  const USER: nat := 16

  predicate IsValid(w: nat) { w % 2 == 1 }
  predicate IsLeaf(w: nat) { w / 2 % 8 != 0 }
  predicate IsUser(w: nat) { w / 16 % 2 == 1 }
  function GetFlag(w: nat): nat { w % 256 }
  function PhysAddr(w: nat): nat { w / 1024 * PAGESIZE }

  /** `as_pte_addr` and `set_addr`: the frame number above ten flag bits, of which VALID is set. */
  function Entry(pa: nat, perm: nat): (w: nat)
    ensures IsValid(w)
  {
    var flags := if perm % 2 == 1 then perm else perm + 1;
    assert (pa / PAGESIZE * 1024 + flags) % 2 == flags % 2;
    pa / PAGESIZE * 1024 + flags
  }

  lemma EntryRoundTrip(pa: nat, perm: nat)
    requires pa % PAGESIZE == 0 && perm < 256
    ensures var w := Entry(pa, perm);
            && IsValid(w) && PhysAddr(w) == pa
            && GetFlag(w) == (if perm % 2 == 1 then perm else perm + 1)
            && (IsLeaf(w) <==> perm / 2 % 8 != 0) && (IsUser(w) <==> perm / 16 % 2 == 1)
  {
    var q, f := pa / PAGESIZE, if perm % 2 == 1 then perm else perm + 1;
    var w := q * 1024 + f;
    SplitWord(q, f);
    assert f / 2 % 8 == perm / 2 % 8 && f / 16 % 2 == perm / 16 % 2;
  }

  lemma SplitWord(q: nat, f: nat)
    requires f < 256
    ensures var w := q * 1024 + f;
            w / 1024 == q && w % 256 == f && w % 2 == f % 2 && w / 2 % 8 == f / 2 % 8 && w / 16 % 2 == f / 16 % 2
  {
    var w := q * 1024 + f;
    assert w / 2 == q * 512 + f / 2;
    assert w / 16 == q * 64 + f / 16;
    assert w == 256 * (4 * q) + f;
  }

  /** The same round trip on 64-bit words, with the shifts and masks of the code. */
  lemma EntryBits(pa: bv64, perm: bv64)
    requires pa & 0xFFF == 0 && pa < 0x100_0000_0000_0000 && perm < 256
    ensures var w := ((pa >> 12) << 10) | (perm | 1);
            && w & 1 != 0 && (w >> 10) << 12 == pa
            && w & 0xFF == perm | 1 && w & 0xE == perm & 0xE && w & 0x10 == perm & 0x10
  {
  }

  // ---- The tree ----

  /** Where a page-table page sits: the root of an address space, under it, or at the bottom. */
  datatype Place = Root | Mid(i2: nat) | Bottom(i2: nat, i1: nat)

  datatype Owner = Owner(root: nat, place: Place)

  type Tables = map<nat, seq<nat>>

  type Owners = map<nat, Owner>

  function Under(o: Owner, i: nat): Owner {
    Owner(o.root, match o.place case Root => Mid(i) case Mid(i2) => Bottom(i2, i) case Bottom(_, _) => o.place)
  }

  /** A valid entry above the bottom points to the page-table page that sits under it. */
  ghost predicate Linked(tables: Tables, owner: Owners, t: nat, i: nat)
    requires t in tables && t in owner && i < |tables[t]|
  {
    var w := tables[t][i];
    IsValid(w) && !owner[t].place.Bottom? ==>
      !IsLeaf(w) && PhysAddr(w) in tables && PhysAddr(w) in owner && owner[PhysAddr(w)] == Under(owner[t], i)
  }

  ghost predicate Tree(tables: Tables, owner: Owners) {
    && (forall t :: t in tables ==> t in owner && |tables[t]| == ENTRIES && t % PAGESIZE == 0)
    && (forall t :: t in tables && owner[t].place.Root? ==> owner[t].root == t)
    && (forall t, i: nat :: t in tables && i < ENTRIES ==> Linked(tables, owner, t, i))
  }

  function SetEntry(tables: Tables, t: nat, i: nat, w: nat): (r: Tables)
    requires t in tables && i < |tables[t]|
  {
    var entries: seq<nat> := tables[t][i := w];
    tables[t := entries]
  }

  ghost predicate IsRoot(tables: Tables, owner: Owners, r: nat) {
    r in tables && r in owner && owner[r] == Owner(r, Root)
  }

  /** One level of a walk. */
  function Down(tables: Tables, t: nat, i: nat): Option<nat> {
    if t in tables && i < |tables[t]| && IsValid(tables[t][i]) then Some(PhysAddr(tables[t][i])) else None
  }

  /** A page-table page hangs where its place says: a walk from its root comes to it. */
  ghost predicate Hung(tables: Tables, owner: Owners, t: nat)
    requires t in owner
  {
    var r := owner[t].root;
    match owner[t].place
    case Root => true
    case Mid(i2) => IsRoot(tables, owner, r) && i2 < ENTRIES && Down(tables, r, i2) == Some(t)
    case Bottom(i2, i1) =>
      && IsRoot(tables, owner, r) && i2 < ENTRIES && i1 < ENTRIES
      && Down(tables, r, i2).Some? && Down(tables, Down(tables, r, i2).value, i1) == Some(t)
  }

  ghost predicate Reached(tables: Tables, owner: Owners) {
    forall t {:trigger Hung(tables, owner, t)} :: t in tables ==> t in owner && Hung(tables, owner, t)
  }

  /** The bottom table that `walk` reaches, and the entry it returns (0 if it returns none). */
  function BottomOf(tables: Tables, root: nat, va: nat): Option<nat> {
    var m := Down(tables, root, GetIndex(va, 2));
    if m.None? then None else Down(tables, m.value, GetIndex(va, 1))
  }

  /** The table a walk has reached when `level` levels are left. */
  function Reach(tables: Tables, root: nat, va: nat, level: nat): Option<nat>
    requires level <= 2
    decreases 2 - level
  {
    if level == 2 then Some(root)
    else
      var t := Reach(tables, root, va, level + 1);
      if t.None? then None else Down(tables, t.value, GetIndex(va, level + 1))
  }

  lemma BottomIsReached(tables: Tables, root: nat, va: nat)
    ensures BottomOf(tables, root, va) == Reach(tables, root, va, 0)
  {
    assert Reach(tables, root, va, 1) == Down(tables, root, GetIndex(va, 2));
  }

  /** Where the table reached with `level` levels left sits. */
  function PlaceAt(va: nat, level: nat): Place
    requires level <= 2
  {
    match level
    case 2 => Root
    case 1 => Mid(GetIndex(va, 2))
    case _ => Bottom(GetIndex(va, 2), GetIndex(va, 1))
  }

  function Lookup(tables: Tables, root: nat, va: nat): nat {
    var t := BottomOf(tables, root, va);
    if t.Some? && t.value in tables && GetIndex(va, 0) < |tables[t.value]| then tables[t.value][GetIndex(va, 0)] else 0
  }

  /** The page table as a flat map: the entry of virtual page `p`. */
  function Find(tables: Tables, root: nat, p: nat): nat {
    Lookup(tables, root, p * PAGESIZE)
  }

  lemma IndexOfPage(va: nat, level: nat)
    requires level <= 2
    ensures GetIndex(va, level) == GetIndex(va / PAGESIZE * PAGESIZE, level)
  {
    var p := va / PAGESIZE;
    assert va / 0x20_0000 == p / 512 && p * PAGESIZE / 0x20_0000 == p / 512;
    assert va / 0x4000_0000 == p / 0x4_0000 && p * PAGESIZE / 0x4000_0000 == p / 0x4_0000;
  }

  lemma LookupIsFind(tables: Tables, root: nat, va: nat)
    ensures Lookup(tables, root, va) == Find(tables, root, va / PAGESIZE)
    ensures BottomOf(tables, root, va) == BottomOf(tables, root, va / PAGESIZE * PAGESIZE)
  {
    IndexOfPage(va, 0);
    IndexOfPage(va, 1);
    IndexOfPage(va, 2);
  }

  /** An address of any size is looked up as its page. */
  lemma LookupWraps(tables: Tables, root: nat, va: nat)
    ensures Lookup(tables, root, va) == Find(tables, root, PageIn(va))
  {
    IndexWraps(va, 0);
    IndexWraps(va, 1);
    IndexWraps(va, 2);
  }

  lemma BottomOwner(tables: Tables, owner: Owners, root: nat, va: nat)
    requires Tree(tables, owner) && IsRoot(tables, owner, root)
    ensures var m := Down(tables, root, GetIndex(va, 2));
            && (m.Some? ==>
                  m.value in tables && m.value in owner && owner[m.value] == Owner(root, Mid(GetIndex(va, 2))))
            && var t := BottomOf(tables, root, va);
               t.Some? ==>
                 && t.value in tables && t.value in owner
                 && owner[t.value] == Owner(root, Bottom(GetIndex(va, 2), GetIndex(va, 1)))
  {
    assert Linked(tables, owner, root, GetIndex(va, 2));
    var m := Down(tables, root, GetIndex(va, 2));
    if m.Some? { assert Linked(tables, owner, m.value, GetIndex(va, 1)); }
  }

  lemma SetBottomHung(tables: Tables, owner: Owners, t: nat, i: nat, w: nat, u: nat)
    requires Tree(tables, owner) && t in tables && owner[t].place.Bottom? && i < ENTRIES
    requires u in tables && Hung(tables, owner, u)
    ensures Hung(SetEntry(tables, t, i, w), owner, u)
  {
    if owner[u].place.Bottom? {
      assert Linked(tables, owner, owner[u].root, owner[u].place.i2);
    }
  }

  lemma AddTableHung(tables: Tables, owner: Owners, t: nat, i: nat, c: nat, zeros: seq<nat>, u: nat)
    requires Tree(tables, owner) && t in tables && Hung(tables, owner, t)
    requires !owner[t].place.Bottom? && i < ENTRIES && !IsValid(tables[t][i]) && c !in tables && c % PAGESIZE == 0
    requires u == c || (u in tables && Hung(tables, owner, u))
    ensures Hung(SetEntry(tables, t, i, Entry(c, VALID))[c := zeros], owner[c := Under(owner[t], i)], u)
  {
    EntryRoundTrip(c, VALID);
    var o := if u == c then owner[t] else owner[u];
    if o.place.Bottom? {
      assert Linked(tables, owner, o.root, o.place.i2);
    }
  }

  /** Writing an entry of a bottom table moves no walk. */
  lemma SetBottom(tables: Tables, owner: Owners, t: nat, i: nat, w: nat)
    requires Tree(tables, owner) && Reached(tables, owner) && t in tables && owner[t].place.Bottom? && i < ENTRIES
    ensures var tables' := SetEntry(tables, t, i, w);
            && Tree(tables', owner) && Reached(tables', owner)
            && (forall r :: IsRoot(tables', owner, r) <==> IsRoot(tables, owner, r))
            && (forall r, va: nat :: IsRoot(tables, owner, r) ==> BottomOf(tables', r, va) == BottomOf(tables, r, va))
  {
    var tables' := SetEntry(tables, t, i, w);
    forall u, j: nat | u in tables' && j < ENTRIES ensures Linked(tables', owner, u, j) {
      assert Linked(tables, owner, u, j);
    }
    forall u | u in tables' ensures Hung(tables', owner, u) {
      SetBottomHung(tables, owner, t, i, w, u);
    }
    forall r, va: nat | IsRoot(tables, owner, r) ensures BottomOf(tables', r, va) == BottomOf(tables, r, va) {
      BottomOwner(tables, owner, r, va);
    }
  }

  /** Hanging a zeroed page under an invalid entry changes nothing that is found. */
  lemma AddTable(tables: Tables, owner: Owners, t: nat, i: nat, c: nat, zeros: seq<nat>)
    requires Tree(tables, owner) && Reached(tables, owner) && t in tables && !owner[t].place.Bottom? && i < ENTRIES
             && !IsValid(tables[t][i])
    requires c !in tables && c % PAGESIZE == 0 && |zeros| == ENTRIES && forall k :: 0 <= k < ENTRIES ==> zeros[k] == 0
    ensures var tables', owner' := SetEntry(tables, t, i, Entry(c, VALID))[c := zeros], owner[c := Under(owner[t], i)];
            && Tree(tables', owner') && Reached(tables', owner')
            && (forall r :: IsRoot(tables', owner', r) <==> IsRoot(tables, owner, r))
            && (forall u, j: nat :: u in tables && !(u == t && j == i) ==> Down(tables', u, j) == Down(tables, u, j))
            && Down(tables', t, i) == Some(c)
            && forall r, va: nat :: IsRoot(tables, owner, r) ==> Lookup(tables', r, va) == Lookup(tables, r, va)
  {
    var tables', owner' := SetEntry(tables, t, i, Entry(c, VALID))[c := zeros], owner[c := Under(owner[t], i)];
    EntryRoundTrip(c, VALID);
    forall u, j: nat | u in tables' && j < ENTRIES ensures Linked(tables', owner', u, j) {
      if u != c { assert Linked(tables, owner, u, j); }
    }
    forall u | u in tables' ensures Hung(tables', owner', u) {
      assert Hung(tables, owner, t);
      if u != c { assert Hung(tables, owner, u); }
      AddTableHung(tables, owner, t, i, c, zeros, u);
    }
    forall r, va: nat | IsRoot(tables, owner, r) ensures Lookup(tables', r, va) == Lookup(tables, r, va) {
      BottomOwner(tables, owner, r, va);
      var m := Down(tables, r, GetIndex(va, 2));
      if m.Some? { assert m.value != c; }
    }
  }

  lemma SameIndicesSamePage(p: nat, q: nat)
    requires p < PAGES && q < PAGES
    requires forall level :: 0 <= level <= 2 ==> GetIndex(p * PAGESIZE, level) == GetIndex(q * PAGESIZE, level)
    ensures p == q
  {
    IndicesNamePage(p * PAGESIZE);
    IndicesNamePage(q * PAGESIZE);
    assert GetIndex(p * PAGESIZE, 0) == GetIndex(q * PAGESIZE, 0);
    assert GetIndex(p * PAGESIZE, 1) == GetIndex(q * PAGESIZE, 1);
  }

  /**
    Writing the entry that a walk reached changes the flat map at that page of that address space, and nowhere else.
  */
  lemma SetFound(tables: Tables, owner: Owners, root: nat, p: nat, t: nat, w: nat)
    requires Tree(tables, owner) && Reached(tables, owner) && IsRoot(tables, owner, root) && p < PAGES
             && BottomOf(tables, root, p * PAGESIZE) == Some(t)
    ensures t in tables && |tables[t]| == ENTRIES
    ensures var tables' := SetEntry(tables, t, GetIndex(p * PAGESIZE, 0), w);
            && Tree(tables', owner) && Reached(tables', owner)
            && (forall r :: IsRoot(tables', owner, r) <==> IsRoot(tables, owner, r))
            && forall r, q: nat :: IsRoot(tables, owner, r) && q < PAGES ==>
                 Find(tables', r, q) == if r == root && q == p then w else Find(tables, r, q)
  {
    BottomOwner(tables, owner, root, p * PAGESIZE);
    var i := GetIndex(p * PAGESIZE, 0);
    var tables' := SetEntry(tables, t, i, w);
    SetBottom(tables, owner, t, i, w);
    forall r, q: nat | IsRoot(tables, owner, r) && q < PAGES
      ensures Find(tables', r, q) == if r == root && q == p then w else Find(tables, r, q)
    {
      BottomOwner(tables, owner, r, q * PAGESIZE);
      assert BottomOf(tables', r, q * PAGESIZE) == BottomOf(tables, r, q * PAGESIZE);
      if BottomOf(tables, r, q * PAGESIZE) == Some(t) && GetIndex(q * PAGESIZE, 0) == i {
        SameIndicesSamePage(p, q);
      }
    }
  }

  // ---- The pages under a page ----

  /** `q` is the place `o` or a place below it. */
  predicate Beneath(o: Owner, q: Owner) {
    && o.root == q.root
    && match o.place
       case Root => true
       case Mid(i2) => !q.place.Root? && q.place.i2 == i2
       case Bottom(_, _) => q.place == o.place
  }

  /** Which entry of the table at `o` leads to `q`. */
  function Branch(o: Owner, q: Owner): nat
    requires Beneath(o, q) && o != q
  {
    if o.place.Root? then q.place.i2 else q.place.i1
  }

  /** `q` hangs below one of the first `n` entries of the table at `o`. */
  predicate BelowFirst(o: Owner, q: Owner, n: nat) {
    Beneath(o, q) && o != q && Branch(o, q) < n
  }

  lemma NextEntry(tables: Tables, owner: Owners, t: nat, i: nat, u: nat)
    requires Tree(tables, owner) && Reached(tables, owner) && t in tables && !owner[t].place.Bottom? && i < ENTRIES
             && u in tables
    ensures BelowFirst(owner[t], owner[u], i + 1) <==>
              BelowFirst(owner[t], owner[u], i) || (IsValid(tables[t][i]) && Beneath(Under(owner[t], i), owner[u]))
  {
    assert Linked(tables, owner, t, i) && Hung(tables, owner, u) && Hung(tables, owner, t);
  }

  lemma AllEntries(tables: Tables, owner: Owners, t: nat, u: nat)
    requires Tree(tables, owner) && Reached(tables, owner) && t in tables && u in tables
    ensures Beneath(owner[t], owner[u]) <==> u == t || BelowFirst(owner[t], owner[u], ENTRIES)
  {
    assert Hung(tables, owner, u) && Hung(tables, owner, t);
  }

  /** Every entry of a bottom table is the entry of one page. */
  lemma EntryHasPage(tables: Tables, owner: Owners, t: nat, i: nat) returns (p: nat)
    requires Tree(tables, owner) && Reached(tables, owner) && t in tables && owner[t].place.Bottom? && i < ENTRIES
    ensures p < PAGES && Find(tables, owner[t].root, p) == tables[t][i]
  {
    assert Hung(tables, owner, t);
    p := (owner[t].place.i2 * ENTRIES + owner[t].place.i1) * ENTRIES + i;
    PageHasIndices(owner[t].place.i2, owner[t].place.i1, i);
  }

  lemma PageHasIndices(i2: nat, i1: nat, i0: nat)
    requires i2 < ENTRIES && i1 < ENTRIES && i0 < ENTRIES
    ensures var va := ((i2 * ENTRIES + i1) * ENTRIES + i0) * PAGESIZE;
            va / PAGESIZE < PAGES && GetIndex(va, 2) == i2 && GetIndex(va, 1) == i1 && GetIndex(va, 0) == i0
  {
    var p := (i2 * ENTRIES + i1) * ENTRIES + i0;
    var va := p * PAGESIZE;
    assert va / PAGESIZE == p && p % 512 == i0 && p / 512 == i2 * 512 + i1;
    assert va / 0x20_0000 == p / 512;
    assert va / 0x4000_0000 == p / 512 / 512;
  }

  /** Taking out a whole address space moves no walk of another. */
  lemma WithoutSpace(tables: Tables, tables': Tables, owner: Owners, root: nat)
    requires Tree(tables, owner) && Reached(tables, owner)
    requires forall u :: u in tables' ==> u in tables && tables'[u] == tables[u]
    requires forall u :: u in tables ==> (u in tables' <==> owner[u].root != root)
    ensures Tree(tables', owner) && Reached(tables', owner)
    ensures forall r :: IsRoot(tables', owner, r) <==> IsRoot(tables, owner, r) && r != root
    ensures forall r, va: nat :: IsRoot(tables', owner, r) ==> Lookup(tables', r, va) == Lookup(tables, r, va)
  {
    forall u, i: nat | u in tables' && i < ENTRIES ensures Linked(tables', owner, u, i) {
      assert Linked(tables, owner, u, i);
    }
    forall u | u in tables' ensures Hung(tables', owner, u) {
      assert Hung(tables, owner, u);
      if owner[u].place.Bottom? { assert Linked(tables, owner, owner[u].root, owner[u].place.i2); }
    }
    forall r, va: nat | IsRoot(tables', owner, r) ensures Lookup(tables', r, va) == Lookup(tables, r, va) {
      BottomOwner(tables, owner, r, va);
    }
  }

  /** A zeroed page on its own is an empty address space. */
  lemma AddRoot(tables: Tables, owner: Owners, c: nat, zeros: seq<nat>)
    requires Tree(tables, owner) && Reached(tables, owner)
    requires c !in tables && c % PAGESIZE == 0 && |zeros| == ENTRIES && forall k :: 0 <= k < ENTRIES ==> zeros[k] == 0
    ensures var tables', owner' := tables[c := zeros], owner[c := Owner(c, Root)];
            && Tree(tables', owner') && Reached(tables', owner')
            && (forall r :: IsRoot(tables', owner', r) <==> IsRoot(tables, owner, r) || r == c)
            && (forall r, va: nat :: IsRoot(tables, owner, r) ==> Lookup(tables', r, va) == Lookup(tables, r, va))
            && forall va: nat :: Lookup(tables', c, va) == 0
  {
    var tables', owner' := tables[c := zeros], owner[c := Owner(c, Root)];
    forall u, i: nat | u in tables' && i < ENTRIES ensures Linked(tables', owner', u, i) {
      if u != c { assert Linked(tables, owner, u, i); }
    }
    forall u | u in tables' ensures Hung(tables', owner', u) {
      if u != c { assert Hung(tables, owner, u); }
      if u != c && owner[u].place.Bottom? { assert Linked(tables, owner, owner[u].root, owner[u].place.i2); }
    }
    forall r, va: nat | IsRoot(tables, owner, r) ensures Lookup(tables', r, va) == Lookup(tables, r, va) {
      BottomOwner(tables, owner, r, va);
    }
  }
}
