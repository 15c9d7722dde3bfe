/**
  The kernel heap (kernel/src/kalloc/linked_list.rs): a list of free regions threaded through the free memory,
  first fit with splitting, no joining, and padding in front of an aligned block that is given up.
*/
module Heap {
  import opened Prelude

  const NODE: nat := 16 // size_of::<ListNode>()
  const NODEALIGN: nat := 8

  // ---- Regions ----

  datatype Region = Region(start: nat, size: nat) {
    function End(): nat { start + size }
  }

  function AlignUp(a: nat, align: nat): (r: nat)
    requires align > 0
    ensures a <= r < a + align && r % align == 0
  {
    var r := (a + align - 1) / align * align;
    Multiple((a + align - 1) / align, align);
    r
  }

  lemma Multiple(q: nat, n: nat)
    requires n > 0
    ensures q * n % n == 0 && q * n / n == q
  {
    if q > 0 {
      Multiple(q - 1, n);
      assert q * n == (q - 1) * n + n;
      AddMultiple((q - 1) * n, n);
    }
  }

  lemma AddMultiple(a: nat, n: nat)
    requires n > 0
    ensures (a + n) % n == a % n && (a + n) / n == a / n + 1
  {
    var q, r := a / n, a % n;
    assert a + n == (q + 1) * n + r by { assert (q + 1) * n == q * n + n; }
    DivMod(q + 1, n, r);
  }

  lemma DivMod(q: nat, n: nat, r: nat)
    requires n > 0 && r < n
    ensures (q * n + r) / n == q && (q * n + r) % n == r
  {
    var a := q * n + r;
    var q', r' := a / n, a % n;
    assert q' * n + r' == a;
    if q' > q { GrowMultiple(q, q', n); }
    if q' < q { GrowMultiple(q', q, n); }
  }

  lemma {:induction false} GrowMultiple(q: nat, p: nat, n: nat)
    requires q < p
    ensures q * n + n <= p * n
  {
    assert p * n == (p - 1) * n + n;
    if q < p - 1 { GrowMultiple(q, p - 1, n); }
  }

  /** Where a block goes in a region: `alloc_from_region`. */
  function Fit(r: Region, size: nat, align: nat): Option<nat>
    requires align > 0
  {
    var at := AlignUp(r.start, align);
    var end := at + size;
    if end >= USIZE || end > r.End() then None
    else if 0 < r.End() - end < NODE then None
    else Some(at)
  }

  function FirstFit(rs: seq<Region>, size: nat, align: nat): (i: nat)
    requires align > 0
    ensures i <= |rs|
    ensures i < |rs| ==> Fit(rs[i], size, align).Some?
    ensures forall j :: 0 <= j < i ==> Fit(rs[j], size, align).None?
  {
    if rs == [] then 0 else if Fit(rs[0], size, align).Some? then 0 else 1 + FirstFit(rs[1..], size, align)
  }

  // ---- Layouts ----

  predicate PowerOfTwo(n: nat) {
    n == 1 || (n > 1 && n % 2 == 0 && PowerOfTwo(n / 2))
  }

  /** `size_align`: room for a list node, and aligned for one. */
  function SizeAlign(size: nat, align: nat): (r: (nat, nat))
    requires PowerOfTwo(align)
    ensures r.0 >= size && r.0 >= NODE && r.0 % NODEALIGN == 0
    ensures r.1 > 0 && r.1 % align == 0 && r.1 % NODEALIGN == 0
  {
    PowerSmall(align);
    var a := if align < NODEALIGN then NODEALIGN else align;
    var padded := AlignUp(size, a);
    MultipleOf(padded, a, NODEALIGN);
    (if padded < NODE then NODE else padded, a)
  }

  lemma PowerSmall(n: nat)
    requires PowerOfTwo(n)
    ensures n > 0 && (if n < 8 then n == 1 || n == 2 || n == 4 else n % 8 == 0) && n % n == 0
  {
    if n > 4 {
      assert PowerOfTwo(n / 2) && n / 2 > 2;
      assert PowerOfTwo(n / 4) && n / 4 > 1;
    }
    Multiple(1, n);
  }

  lemma MultipleOf(x: nat, n: nat, m: nat)
    requires n > 0 && m > 0 && x % n == 0 && n % m == 0
    ensures x % m == 0
  {
    var q, k := x / n, n / m;
    assert x == q * n && n == k * m;
    assert x == (q * k) * m by { assert q * (k * m) == (q * k) * m; }
    Multiple(q * k, m);
  }

  // ---- The heap as a value ----

  predicate Apart(a: Region, b: Region) {
    a.End() <= b.start || b.End() <= a.start
  }

  ghost predicate AllApart(s: seq<Region>) {
    forall i, j {:trigger Apart(s[i], s[j])} :: 0 <= i < j < |s| ==> Apart(s[i], s[j])
  }

  ghost predicate Across(s: seq<Region>, t: seq<Region>) {
    forall i, j {:trigger Apart(s[i], t[j])} :: 0 <= i < |s| && 0 <= j < |t| ==> Apart(s[i], t[j])
  }

  /** In the heap, aligned, and large enough to be a list node. */
  predicate Inside(r: Region, lo: nat, hi: nat) {
    lo <= r.start && r.End() <= hi && r.start % NODEALIGN == 0 && r.size >= NODE
  }

  ghost predicate AllInside(s: seq<Region>, lo: nat, hi: nat) {
    forall i {:trigger Inside(s[i], lo, hi)} :: 0 <= i < |s| ==> Inside(s[i], lo, hi)
  }

  function Sum(s: seq<Region>): nat {
    if s == [] then 0 else s[0].size + Sum(s[1..])
  }

  function Without(s: seq<Region>, i: nat): (r: seq<Region>)
    requires i < |s|
    ensures |r| == |s| - 1
  {
    s[..i] + s[i + 1..]
  }

  lemma {:induction false} SumWithout(s: seq<Region>, i: nat)
    requires i < |s|
    ensures Sum(Without(s, i)) + s[i].size == Sum(s)
  {
    if i == 0 {
      assert Without(s, 0) == s[1..];
    } else {
      SumWithout(s[1..], i - 1);
      assert Without(s, i)[1..] == Without(s[1..], i - 1) && Without(s, i)[0] == s[0];
    }
  }

  lemma SumCons(r: Region, s: seq<Region>)
    ensures Sum([r] + s) == r.size + Sum(s)
  {
    assert ([r] + s)[1..] == s;
  }

  /** Free regions, blocks handed out, and how much has been given up as padding. */
  datatype State = State(lo: nat, hi: nat, free: seq<Region>, live: seq<Region>, lost: nat)

  ghost predicate Ok(h: State) {
    && h.lo <= h.hi <= USIZE
    && AllApart(h.free) && AllApart(h.live) && Across(h.free, h.live)
    && AllInside(h.free, h.lo, h.hi) && AllInside(h.live, h.lo, h.hi)
    && (forall i {:trigger h.live[i]} :: 0 <= i < |h.live| ==> h.live[i].size % NODEALIGN == 0)
    && Sum(h.free) + Sum(h.live) + h.lost == h.hi - h.lo
  }

  /** The region at `i` gives a block at `at`, and its tail goes back to the front of the list. */
  function Taken(h: State, i: nat, at: nat, size: nat): State
    requires i < |h.free| && h.free[i].start <= at && at + size <= h.free[i].End()
  {
    var r := h.free[i];
    var rest := Without(h.free, i);
    h.(free := if r.End() > at + size then [Region(at + size, r.End() - (at + size))] + rest else rest,
       live := [Region(at, size)] + h.live, lost := h.lost + (at - r.start))
  }

  function Returned(h: State, k: nat): State
    requires k < |h.live|
  {
    h.(free := [h.live[k]] + h.free, live := Without(h.live, k))
  }

  lemma ApartWithout(s: seq<Region>, i: nat, t: seq<Region>, lo: nat, hi: nat)
    requires i < |s| && AllApart(s) && AllInside(s, lo, hi)
    ensures AllApart(Without(s, i)) && AllInside(Without(s, i), lo, hi) && Across([s[i]], Without(s, i))
    ensures Across(s, t) ==> Across(Without(s, i), t) && Across([s[i]], t)
    ensures Across(t, s) ==> Across(t, Without(s, i)) && Across([s[i]], t)
  {
    var w := Without(s, i);
    forall a, b | 0 <= a < b < |w| ensures Apart(w[a], w[b]) {
      assert Apart(s[if a < i then a else a + 1], s[if b < i then b else b + 1]);
    }
    forall a | 0 <= a < |w| ensures Inside(w[a], lo, hi) && Apart(s[i], w[a]) {
      var b := if a < i then a else a + 1;
      assert w[a] == s[b] && Inside(s[b], lo, hi);
      assert if b < i then Apart(s[b], s[i]) else Apart(s[i], s[b]);
    }
    if Across(s, t) {
      forall a, b | 0 <= a < |w| && 0 <= b < |t| ensures Apart(w[a], t[b]) {
        assert Apart(s[if a < i then a else a + 1], t[b]);
      }
    }
    if Across(t, s) {
      forall a, b | 0 <= a < |t| && 0 <= b < |w| ensures Apart(t[a], w[b]) {
        assert Apart(t[a], s[if b < i then b else b + 1]);
      }
      forall b | 0 <= b < |t| ensures Apart(s[i], t[b]) { assert Apart(t[b], s[i]); }
    }
  }

  /** A part of a region is apart from what the region is apart from. */
  lemma ApartPart(r: Region, p: Region, s: seq<Region>)
    requires r.start <= p.start && p.End() <= r.End() && Across([r], s)
    ensures Across([p], s)
  {
    forall j | 0 <= j < |s| ensures Apart(p, s[j]) { assert Apart([r][0], s[j]); }
  }

  lemma ApartCons(p: Region, s: seq<Region>, t: seq<Region>, lo: nat, hi: nat)
    requires AllApart(s) && AllInside(s, lo, hi) && Inside(p, lo, hi) && Across([p], s)
    ensures AllApart([p] + s) && AllInside([p] + s, lo, hi)
    ensures Across(s, t) && Across([p], t) ==> Across([p] + s, t)
    ensures Across(t, s) && Across([p], t) ==> Across(t, [p] + s)
  {
    var w := [p] + s;
    forall a, b | 0 <= a < b < |w| ensures Apart(w[a], w[b]) {
      if a == 0 { assert Apart([p][0], s[b - 1]); } else { assert Apart(s[a - 1], s[b - 1]); }
    }
    forall a | 0 <= a < |w| ensures Inside(w[a], lo, hi) { if a > 0 { assert Inside(s[a - 1], lo, hi); } }
    if Across(s, t) && Across([p], t) {
      forall a, b | 0 <= a < |w| && 0 <= b < |t| ensures Apart(w[a], t[b]) {
        if a == 0 { assert Apart([p][0], t[b]); } else { assert Apart(s[a - 1], t[b]); }
      }
    }
    if Across(t, s) && Across([p], t) {
      forall a, b | 0 <= a < |t| && 0 <= b < |w| ensures Apart(t[a], w[b]) {
        if b == 0 { assert Apart([p][0], t[a]); } else { assert Apart(t[a], s[b - 1]); }
      }
    }
  }

  lemma FitFacts(r: Region, size: nat, align: nat)
    requires align > 0 && align % NODEALIGN == 0 && size % NODEALIGN == 0 && Fit(r, size, align).Some?
    ensures var at := Fit(r, size, align).value;
            && r.start <= at && at + size <= r.End() && at % align == 0 && at % NODEALIGN == 0
                && (at + size) % NODEALIGN == 0
            && (r.End() > at + size ==> r.End() - (at + size) >= NODE)
  {
    MultipleOf(Fit(r, size, align).value, align, NODEALIGN);
  }

  /** Handing out a block keeps everything apart and loses nothing but the padding. */
  lemma TakenOk(h: State, i: nat, at: nat, size: nat)
    requires Ok(h) && i < |h.free| && size >= NODE && size % NODEALIGN == 0
    requires h.free[i].start <= at && at + size <= h.free[i].End() && at % NODEALIGN == 0
    requires h.free[i].End() > at + size ==> h.free[i].End() - (at + size) >= NODE
    ensures Ok(Taken(h, i, at, size))
  {
    var r, h' := h.free[i], Taken(h, i, at, size);
    var rest, block := Without(h.free, i), Region(at, size);
    assert Inside(h.free[i], h.lo, h.hi);
    ApartWithout(h.free, i, h.live, h.lo, h.hi);
    ApartPart(r, block, h.live);
    ApartPart(r, block, rest);
    ApartCons(block, h.live, rest, h.lo, h.hi);
    SumWithout(h.free, i);
    SumCons(block, h.live);
    if r.End() > at + size { TailOk(h, i, at, size); }
  }

  lemma TailOk(h: State, i: nat, at: nat, size: nat)
    requires Ok(h) && i < |h.free| && size % NODEALIGN == 0 && at % NODEALIGN == 0
    requires h.free[i].start <= at && at + size + NODE <= h.free[i].End()
             && Across(Without(h.free, i), [Region(at, size)] + h.live)
    ensures var tail := Region(at + size, h.free[i].End() - (at + size));
            var w := [tail] + Without(h.free, i);
            && AllApart(w) && AllInside(w, h.lo, h.hi) && Across(w, [Region(at, size)] + h.live)
            && Sum(w) == tail.size + Sum(Without(h.free, i))
  {
    var r, rest, block := h.free[i], Without(h.free, i), Region(at, size);
    var tail := Region(at + size, r.End() - (at + size));
    assert Inside(h.free[i], h.lo, h.hi);
    ApartWithout(h.free, i, h.live, h.lo, h.hi);
    ApartPart(r, tail, rest);
    ApartPart(r, tail, h.live);
    AcrossCons(tail, block, h.live);
    ApartCons(tail, rest, [block] + h.live, h.lo, h.hi);
    SumCons(tail, rest);
  }

  lemma AcrossCons(p: Region, b: Region, s: seq<Region>)
    requires Across([p], s) && Apart(p, b)
    ensures Across([p], [b] + s)
  {
    forall j | 0 <= j < |s| + 1 ensures Apart(p, ([b] + s)[j]) { if j > 0 { assert Apart([p][0], s[j - 1]); } }
  }

  /** Taking a block back keeps everything apart and loses nothing. */
  lemma ReturnedOk(h: State, k: nat)
    requires Ok(h) && k < |h.live|
    ensures Ok(Returned(h, k))
  {
    assert Inside(h.live[k], h.lo, h.hi);
    ApartWithout(h.live, k, h.free, h.lo, h.hi);
    ApartCons(h.live[k], h.free, Without(h.live, k), h.lo, h.hi);
    SumWithout(h.live, k);
    SumCons(h.live[k], h.free);
  }

  // ---- The list in memory ----

  /** `ListNode`, which lies at the start of its region. */
  datatype Node = Node(size: nat, next: Option<nat>)

  /** From `head`, the nodes at the addresses of `list` follow each other. */
  ghost predicate Linked(nodes: map<nat, Node>, head: Option<nat>, list: seq<nat>) {
    && Distinct(list)
    && head == (if list == [] then None else Some(list[0]))
    && forall i: nat {:trigger NodeOk(nodes, list, i)} :: i < |list| ==> NodeOk(nodes, list, i)
  }

  predicate NodeOk(nodes: map<nat, Node>, list: seq<nat>, i: nat)
    requires i < |list|
  {
    list[i] in nodes && nodes[list[i]].next == if i + 1 < |list| then Some(list[i + 1]) else None
  }

  ghost function RegionAt(nodes: map<nat, Node>, a: nat): Region {
    Region(a, if a in nodes then nodes[a].size else 0)
  }

  ghost function RegionsOf(nodes: map<nat, Node>, list: seq<nat>): (r: seq<Region>)
    ensures |r| == |list| && forall i: nat {:trigger r[i]} :: i < |r| ==> r[i] == RegionAt(nodes, list[i])
  {
    seq(|list|, i requires 0 <= i < |list| => RegionAt(nodes, list[i]))
  }

  class LinkedListAllocator {
    var nodes: map<nat, Node>
    var head: Option<nat>
    ghost var list: seq<nat>
    ghost var lo: nat
    ghost var hi: nat
    ghost var live: seq<Region>
    ghost var lost: nat

    ghost predicate Valid()
      reads this
    {
      Linked(nodes, head, list)
    }

    ghost function Regions(): seq<Region>
      reads this
      requires Valid()
    {
      RegionsOf(nodes, list)
    }

    /** The whole heap: what is free, what is handed out and what is given up. */
    ghost function View(): State
      reads this
      requires Valid()
    {
      State(lo, hi, Regions(), live, lost)
    }

    constructor ()
      ensures Valid() && View() == State(0, 0, [], [], 0)
    {
      nodes, head, list := map[], None, [];
      lo, hi, live, lost := 0, 0, [], 0;
    }

    /** `init`: one region, less what its alignment costs. */
    method Init(start: nat, size: nat) returns (ok: bool)
      requires Valid() && View() == State(0, 0, [], [], 0) && start + size <= USIZE
      modifies this
      ensures Valid() && (ok <==> size >= AlignUp(start, NODEALIGN) - start + NODE)
      ensures ok ==> Ok(View()) && lo == start && hi == start + size && live == []
    {
      assert list == [];
      ok := AddFreeRegion(start, size);
      if ok {
        lo, hi, live, lost := start, start + size, [], AlignUp(start, NODEALIGN) - start;
        SumCons(Regions()[0], []);
      }
    }

    /** `alloc`: the block is apart from everything, and the assertions of `add_free_region` hold. */
    method Alloc(wanted: nat, alignment: nat) returns (r: Option<nat>, ok: bool)
      requires Valid() && Ok(View()) && PowerOfTwo(alignment) && hi + SizeAlign(wanted, alignment).1 <= USIZE
      modifies this
      ensures Valid() && Ok(View()) && ok && lo == old(lo) && hi == old(hi)
      ensures r.None? ==>
                View() == old(View()) && forall i :: 0 <= i < |Regions()| ==>
                      Fit(Regions()[i], SizeAlign(wanted, alignment).0, SizeAlign(wanted, alignment).1).None?
      ensures r.Some? ==>
                r.value % alignment == 0 && live == [Region(r.value, SizeAlign(wanted, alignment).0)] + old(live)
      ensures r.Some? ==> lo <= r.value && r.value + wanted <= hi
      ensures r.Some? ==>
                var i := FirstFit(old(Regions()), SizeAlign(wanted, alignment).0, SizeAlign(wanted, alignment).1);
                i < |old(Regions())| && old(Regions())[i].start <= r.value
                    && r.value + SizeAlign(wanted, alignment).0 <= old(Regions())[i].End()
                && View() == Taken(old(View()), i, r.value, SizeAlign(wanted, alignment).0)
    {
      var layout := SizeAlign(wanted, alignment);
      r, ok := Grab(layout.0, layout.1);
      if r.Some? {
        MultipleOf(r.value, layout.1, alignment);
        assert Inside(live[0], lo, hi);
      }
    }

    /** `alloc` after `size_align`. */
    method Grab(size: nat, align: nat) returns (r: Option<nat>, ok: bool)
      requires Valid() && Ok(View()) && align > 0 && align % NODEALIGN == 0 && size >= NODE && size % NODEALIGN == 0
      modifies this
      ensures Valid() && Ok(View()) && ok && lo == old(lo) && hi == old(hi)
      ensures r.None? ==> View() == old(View()) && FirstFit(Regions(), size, align) == |Regions()|
      ensures r.Some? ==>
                var i := FirstFit(old(Regions()), size, align);
                && i < |old(Regions())| && old(Regions())[i].start <= r.value
                    && r.value + size <= old(Regions())[i].End()
                && View() == Taken(old(View()), i, r.value, size) && r.value % align == 0
    {
      ghost var h, i := View(), FirstFit(Regions(), size, align);
      var found := FindRegion(size, align);
      if found.None? {
        return None, true;
      }
      FitFacts(h.free[i], size, align);
      ok := Split(found.value.0, found.value.1, size, h, i);
      r := Some(found.value.1);
    }

    /** The rest of a region that was taken out goes back. */
    method Split(region: nat, at: nat, size: nat, ghost h: State, ghost i: nat) returns (ok: bool)
      requires Valid() && Ok(h) && i < |h.free| && size >= NODE && size % NODEALIGN == 0
      requires View() == h.(free := Without(h.free, i)) && region in nodes
               && h.free[i] == Region(region, nodes[region].size)
      requires region <= at && at + size <= h.free[i].End() && at % NODEALIGN == 0 && (at + size) % NODEALIGN == 0
      requires h.free[i].End() > at + size ==> h.free[i].End() - (at + size) >= NODE
      modifies this
      ensures Valid() && ok && View() == Taken(h, i, at, size) && Ok(View())
    {
      ok := true;
      TakenOk(h, i, at, size);
      var end := at + size;
      var excess := region + nodes[region].size - end;
      if excess > 0 {
        TailIsNew(h, i, end, nodes, list);
        ok := AddFreeRegion(end, excess);
      }
      live, lost := [Region(at, size)] + live, lost + (at - region);
      assert View() == Taken(h, i, at, size);
    }

    /** `dealloc` of a block that was handed out with the same layout. */
    method Dealloc(ptr: nat, wanted: nat, alignment: nat, ghost k: nat) returns (ok: bool)
      requires Valid() && Ok(View()) && PowerOfTwo(alignment) && k < |live|
               && live[k] == Region(ptr, SizeAlign(wanted, alignment).0)
      modifies this
      ensures Valid() && Ok(View()) && ok && View() == Returned(old(View()), k)
    {
      ok := GiveBack(ptr, SizeAlign(wanted, alignment).0, k);
    }

    method GiveBack(ptr: nat, size: nat, ghost k: nat) returns (ok: bool)
      requires Valid() && Ok(View()) && k < |live| && live[k] == Region(ptr, size)
      modifies this
      ensures Valid() && Ok(View()) && ok && View() == Returned(old(View()), k)
    {
      ghost var h := View();
      ReturnedOk(h, k);
      BlockIsNew(h, k, list);
      assert Inside(h.live[k], h.lo, h.hi);
      ok := AddFreeRegion(ptr, size);
      live := Without(live, k);
      assert View() == Returned(h, k);
    }

    /** `add_free_region`: the new region, aligned, is the first; `ok` says that its assertions hold. */
    method AddFreeRegion(addr: nat, size: nat) returns (ok: bool)
      requires Valid() && AlignUp(addr, NODEALIGN) !in list
      modifies this`nodes, this`head, this`list
      ensures Valid()
      ensures var cut := AlignUp(addr, NODEALIGN) - addr;
              && (ok <==> size >= cut + NODE)
              && Regions() == if ok then [Region(addr + cut, size - cut)] + old(Regions()) else old(Regions())
    {
      var aligned := AlignUp(addr, NODEALIGN);
      var cut := aligned - addr;
      if size <= cut || size - cut < NODE {
        return false;
      }
      Push(nodes, head, list, aligned, size - cut);
      nodes := nodes[aligned := Node(size - cut, head)];
      head := Some(aligned);
      list := [aligned] + list;
      ok := true;
    }

    /** The node at `cur`, after the one at `prev`, leaves the list. */
    method Cut(prev: Option<nat>, cur: nat, ghost i: nat)
      requires Valid() && i < |list| && cur == list[i] && prev == (if i > 0 then Some(list[i - 1]) else None)
      modifies this`nodes, this`head, this`list
      ensures Valid() && list == old(list)[..i] + old(list)[i + 1..] && Regions() == Without(old(Regions()), i)
      ensures cur in nodes && cur in old(nodes) && nodes[cur].size == old(nodes)[cur].size
    {
      assert NodeOk(nodes, list, i);
      if i > 0 { assert NodeOk(nodes, list, i - 1); }
      Unlink(nodes, head, list, i);
      var next := nodes[cur].next;
      if prev.None? {
        head := next;
      } else {
        nodes := nodes[prev.value := nodes[prev.value].(next := next)];
      }
      list := list[..i] + list[i + 1..];
    }

    /** `find_region`: the first region that fits is taken out of the list. */
    method FindRegion(size: nat, align: nat) returns (r: Option<(nat, nat)>)
      requires Valid() && align > 0
      modifies this`nodes, this`head, this`list
      ensures Valid()
      ensures var i := FirstFit(old(Regions()), size, align);
              if i == |old(Regions())| then r == None && Regions() == old(Regions())
              else
                && Regions() == Without(old(Regions()), i) && list == old(list)[..i] + old(list)[i + 1..]
                && r == Some((old(list)[i], Fit(old(Regions())[i], size, align).value))
                && old(list)[i] in nodes && nodes[old(list)[i]].size == old(Regions())[i].size
    {
      ghost var i, n := 0, |list|;
      var prev: Option<nat>, cur := None, head;
      FirstFitFrom(Regions(), size, align, 0);
      while cur.Some?
        invariant Valid() && nodes == old(nodes) && head == old(head) && list == old(list)
        invariant i <= n && cur == (if i < n then Some(list[i]) else None)
                  && prev == (if i > 0 then Some(list[i - 1]) else None)
        invariant FirstFit(Regions(), size, align) == i + FirstFit(Regions()[i..], size, align)
        decreases n - i
      {
        assert NodeOk(nodes, list, i);
        var at := Fit(Region(cur.value, nodes[cur.value].size), size, align);
        assert Regions()[i..][0] == Region(cur.value, nodes[cur.value].size);
        if at.Some? {
          Cut(prev, cur.value, i);
          return Some((cur.value, at.value));
        }
        FirstFitFrom(Regions(), size, align, i);
        prev, cur, i := cur, nodes[cur.value].next, i + 1;
      }
      r := None;
    }
  }

  lemma FirstFitFrom(rs: seq<Region>, size: nat, align: nat, i: nat)
    requires align > 0 && i <= |rs|
    ensures i < |rs| && Fit(rs[i], size, align).None? ==>
              FirstFit(rs[i..], size, align) == 1 + FirstFit(rs[i + 1..], size, align)
    ensures rs[0..] == rs
  {
    if i < |rs| { assert rs[i..][1..] == rs[i + 1..]; }
  }

  /** Taking the node at index `i` out of the chain. */
  lemma Unlink(nodes: map<nat, Node>, head: Option<nat>, list: seq<nat>, i: nat)
    requires Linked(nodes, head, list) && i < |list| && NodeOk(nodes, list, i) && (i > 0 ==> NodeOk(nodes, list, i - 1))
    ensures var list' := list[..i] + list[i + 1..];
            if i == 0 then
              Linked(nodes, nodes[list[0]].next, list') && RegionsOf(nodes, list') == Without(RegionsOf(nodes, list), 0)
            else
              var nodes' := nodes[list[i - 1] := nodes[list[i - 1]].(next := nodes[list[i]].next)];
              Linked(nodes', head, list') && RegionsOf(nodes', list') == Without(RegionsOf(nodes, list), i)
  {
    var list' := list[..i] + list[i + 1..];
    var nodes' := if i == 0 then nodes else nodes[list[i - 1] := nodes[list[i - 1]].(next := nodes[list[i]].next)];
    forall k: nat | k < |list'|
      ensures NodeOk(nodes', list', k) && RegionAt(nodes', list'[k]) == RegionAt(nodes, list'[k]) {
      assert NodeOk(nodes, list, if k < i then k else k + 1);
      if k + 1 == i { assert NodeOk(nodes, list, i); }
    }
  }

  lemma Push(nodes: map<nat, Node>, head: Option<nat>, list: seq<nat>, a: nat, size: nat)
    requires Linked(nodes, head, list) && a !in list
    ensures var nodes' := nodes[a := Node(size, head)];
            Linked(nodes', Some(a), [a] + list)
                && RegionsOf(nodes', [a] + list) == [Region(a, size)] + RegionsOf(nodes, list)
  {
    var nodes', list' := nodes[a := Node(size, head)], [a] + list;
    forall k: nat | k < |list'| ensures NodeOk(nodes', list', k) {
      if k > 0 { assert NodeOk(nodes, list, k - 1); }
    }
  }

  lemma Aligned(a: nat)
    requires a % NODEALIGN == 0
    ensures AlignUp(a, NODEALIGN) == a
  {
  }

  /** The tail of a region is the start of no other. */
  lemma TailIsNew(h: State, i: nat, end: nat, nodes: map<nat, Node>, list: seq<nat>)
    requires Ok(h) && i < |h.free| && h.free[i].start <= end < h.free[i].End() && end % NODEALIGN == 0
    requires RegionsOf(nodes, list) == Without(h.free, i)
    ensures AlignUp(end, NODEALIGN) == end && end !in list
  {
    Aligned(end);
    ApartWithout(h.free, i, [], h.lo, h.hi);
    forall k: nat | k < |list| ensures list[k] != end {
      assert RegionsOf(nodes, list)[k].start == list[k];
      assert Apart([h.free[i]][0], Without(h.free, i)[k]) && Inside(Without(h.free, i)[k], h.lo, h.hi);
    }
  }

  lemma BlockIsNew(h: State, k: nat, list: seq<nat>)
    requires Ok(h) && k < |h.live| && |list| == |h.free|
    requires forall i: nat {:trigger list[i]} :: i < |list| ==> list[i] == h.free[i].start
    ensures AlignUp(h.live[k].start, NODEALIGN) == h.live[k].start && h.live[k].start !in list
  {
    assert Inside(h.live[k], h.lo, h.hi);
    Aligned(h.live[k].start);
    forall i: nat | i < |list| ensures list[i] != h.live[k].start {
      assert Apart(h.free[i], h.live[k]) && Inside(h.free[i], h.lo, h.hi);
    }
  }
}
