/**
  The buffer metadata list of the disk block cache (kernel/src/bio.rs).

  `Lru` is the list as a value: the metadata of every buffer and the order of the
  buffers, most recently released first.  `BufMetaLru` is the in-place doubly
  linked list; each of its methods is proved to act as the corresponding function
  on `Lru`.  The theorems below are about runs of those functions.
*/
module LruList {
  import opened Prelude

  datatype Meta = Meta(dev: nat, blockno: nat, refcnt: nat)

  datatype Lru = Lru(metas: seq<Meta>, order: seq<nat>) {
    /** `order` lists every buffer exactly once. */
    ghost predicate Valid() {
      IsPerm(order, |metas|)
    }
  }

  ghost predicate IsPerm(order: seq<nat>, n: nat) {
    && |order| == n
    && (forall k :: 0 <= k < n ==> order[k] < n)
    && Distinct(order)
  }

  predicate Matches(m: Meta, dev: nat, blockno: nat) {
    m.dev == dev && m.blockno == blockno
  }

  /** The first buffer in list order that holds the block. */
  function FindIn(l: Lru, k: nat, dev: nat, blockno: nat): (r: Option<nat>)
    requires l.Valid() && k <= |l.order|
    ensures r.Some? ==> r.value < |l.metas| && Matches(l.metas[r.value], dev, blockno)
    ensures r.None? ==> forall i :: k <= i < |l.order| ==> !Matches(l.metas[l.order[i]], dev, blockno)
    decreases |l.order| - k
  {
    if k == |l.order| then None
    else if Matches(l.metas[l.order[k]], dev, blockno) then Some(l.order[k])
    else FindIn(l, k + 1, dev, blockno)
  }

  function FindBuf(l: Lru, dev: nat, blockno: nat): (r: Option<nat>)
    requires l.Valid()
    ensures r.Some? ==> r.value < |l.metas| && Matches(l.metas[r.value], dev, blockno)
    ensures r.None? <==> forall i :: 0 <= i < |l.metas| ==> !Matches(l.metas[i], dev, blockno)
  {
    var r := FindIn(l, 0, dev, blockno);
    assert r.None? ==> forall i :: 0 <= i < |l.metas| ==> !Matches(l.metas[i], dev, blockno) by {
      forall i: nat | i < |l.metas| && r.None? ensures !Matches(l.metas[i], dev, blockno) { var p := PositionOf(l, i); }
    }
    r
  }

  /** The last buffer in list order without references. */
  function FreeBefore(l: Lru, k: nat): (r: Option<nat>)
    requires l.Valid() && k <= |l.order|
    ensures r.Some? ==> r.value < |l.metas| && l.metas[r.value].refcnt == 0
    ensures r.None? ==> forall i :: 0 <= i < k ==> l.metas[l.order[i]].refcnt > 0
  {
    if k == 0 then None
    else if l.metas[l.order[k - 1]].refcnt == 0 then Some(l.order[k - 1])
    else FreeBefore(l, k - 1)
  }

  function Victim(l: Lru): (r: Option<nat>)
    requires l.Valid()
    ensures r.Some? ==> r.value < |l.metas| && l.metas[r.value].refcnt == 0
    ensures r.None? <==> forall i :: 0 <= i < |l.metas| ==> l.metas[i].refcnt > 0
  {
    var r := FreeBefore(l, |l.order|);
    assert r.None? ==> forall i :: 0 <= i < |l.metas| ==> l.metas[i].refcnt > 0 by {
      forall i: nat | i < |l.metas| && r.None? ensures l.metas[i].refcnt > 0 { var p := PositionOf(l, i); }
    }
    r
  }

  function Hit(l: Lru, i: nat): (r: Lru)
    requires i < |l.metas|
    ensures l.Valid() ==> r.Valid()
  {
    l.(metas := l.metas[i := l.metas[i].(refcnt := l.metas[i].refcnt + 1)])
  }

  /** `bunpin`: a reference less, and nothing moves. */
  function Unpinned(l: Lru, i: nat): (r: Lru)
    requires i < |l.metas| && l.metas[i].refcnt > 0
    ensures l.Valid() ==> r.Valid()
  {
    l.(metas := l.metas[i := l.metas[i].(refcnt := l.metas[i].refcnt - 1)])
  }

  function Reuse(l: Lru, i: nat, dev: nat, blockno: nat): (r: Lru)
    requires i < |l.metas|
    ensures l.Valid() ==> r.Valid()
  {
    l.(metas := l.metas[i := Meta(dev, blockno, 1)])
  }

  function Without(order: seq<nat>, i: nat): (r: seq<nat>)
    ensures forall x :: x in r ==> x in order && x != i
    ensures forall x :: x in order && x != i ==> x in r
    ensures |r| <= |order|
  {
    if order == [] then []
    else if order[0] == i then Without(order[1..], i)
    else [order[0]] + Without(order[1..], i)
  }

  /** Drop one reference; a buffer left without references moves to the front. */
  function Release(l: Lru, i: nat): (r: Lru)
    requires i < |l.metas| && l.metas[i].refcnt > 0
  {
    var rc := l.metas[i].refcnt - 1;
    Lru(l.metas[i := l.metas[i].(refcnt := rc)],
        if rc == 0 then [i] + Without(l.order, i) else l.order)
  }

  /** Removing the element at position `p` of a list without repetitions. */
  lemma {:induction false} WithoutAt(order: seq<nat>, p: nat)
    requires p < |order| && Distinct(order)
    ensures Without(order, order[p]) == order[..p] + order[p + 1..]
    decreases p
  {
    if p == 0 {
      WithoutAbsent(order[1..], order[0]);
    } else {
      WithoutAt(order[1..], p - 1);
      assert order[1..][..p - 1] == order[1..p];
      assert order[1..][p..] == order[p + 1..];
      assert [order[0]] + (order[1..p] + order[p + 1..]) == order[..p] + order[p + 1..];
    }
  }

  lemma {:induction false} WithoutAbsent(order: seq<nat>, x: nat)
    requires x !in order
    ensures Without(order, x) == order
  {
    if order != [] { WithoutAbsent(order[1..], x); }
  }

  lemma PositionOf(l: Lru, i: nat) returns (p: nat)
    requires l.Valid() && i < |l.metas|
    ensures p < |l.order| && l.order[p] == i
  {
    DistinctCovers(l.order, |l.order|, i);
    p :| 0 <= p < |l.order| && l.order[p] == i;
  }

  function OrderAfter(order: seq<nat>, p: nat): (r: seq<nat>)
    requires p < |order|
    ensures |r| == |order|
    ensures forall k :: 0 <= k < |r| ==> r[k] == if k == 0 then order[p] else if k <= p then order[k - 1] else order[k]
  {
    [order[p]] + (order[..p] + order[p + 1..])
  }

  /** Moving the element at `p` to the front keeps the elements and their distinctness. */
  lemma MoveToFront(order: seq<nat>, p: nat)
    requires p < |order| && IsPerm(order, |order|)
    ensures [order[p]] + Without(order, order[p]) == OrderAfter(order, p) && IsPerm(OrderAfter(order, p), |order|)
  {
    WithoutAt(order, p);
    FrontIsPerm(order, p);
  }

  lemma FrontIsPerm(order: seq<nat>, p: nat)
    requires p < |order| && IsPerm(order, |order|)
    ensures IsPerm(OrderAfter(order, p), |order|)
  {
    var r := OrderAfter(order, p);
    forall i | 0 <= i < |r| ensures r[i] == order[From(p, i)] {
    }
    forall i, j | 0 <= i < j < |r| ensures r[i] != r[j] {
      assert order[From(p, i)] != order[From(p, j)];
    }
  }

  /** Where the element at `i` was before the one at `p` moved to the front. */
  function From(p: nat, i: nat): nat {
    if i == 0 then p else if i <= p then i - 1 else i
  }

  lemma ReleaseValid(l: Lru, i: nat)
    requires l.Valid() && i < |l.metas| && l.metas[i].refcnt > 0
    ensures Release(l, i).Valid()
  {
    var p := PositionOf(l, i);
    MoveToFront(l.order, p);
  }

  // ---- Recency: recycling takes the free buffer released longest ago ----

  datatype Event =
    | DoFind(dev: nat, blockno: nat)
    | DoRecycle(dev: nat, blockno: nat)
    | DoRelease(index: nat)
    | DoPin(index: nat)
    | DoUnpin(index: nat)

  /** The list together with, for each buffer, when its references last dropped to zero. */
  datatype Timed = Timed(l: Lru, freed: seq<int>, now: int) {
    ghost predicate Valid() {
      && l.Valid() && |freed| == |l.metas|
      && (forall i :: 0 <= i < |freed| ==> freed[i] < now)
      && ByRecency()
    }

    ghost predicate ByRecency()
      requires l.Valid() && |freed| == |l.metas|
    {
      forall a, b :: 0 <= a < b < |l.order| ==> freed[l.order[a]] > freed[l.order[b]]
    }
  }

  /** What one call does; a call whose precondition fails or that finds nothing changes nothing. */
  function Happen(t: Timed, e: Event): (r: Timed)
    requires t.l.Valid() && |t.freed| == |t.l.metas|
    ensures |r.l.metas| == |t.l.metas| && |r.freed| == |t.freed|
  {
    match e
    case DoFind(dev, bn) =>
      var i := FindBuf(t.l, dev, bn);
      if i.Some? then t.(l := Hit(t.l, i.value)) else t
    case DoRecycle(dev, bn) =>
      var i := Victim(t.l);
      if i.Some? then t.(l := Reuse(t.l, i.value, dev, bn)) else t
    case DoRelease(i) =>
      if i < |t.l.metas| && t.l.metas[i].refcnt > 0 then
        if t.l.metas[i].refcnt == 1 then Timed(Release(t.l, i), t.freed[i := t.now], t.now + 1)
        else t.(l := Release(t.l, i))
      else t
    case DoPin(i) => // by the holder of a guard, which is a reference
      if i < |t.l.metas| && t.l.metas[i].refcnt > 0 then t.(l := Hit(t.l, i)) else t
    case DoUnpin(i) =>
      if i < |t.l.metas| && t.l.metas[i].refcnt > 1 then t.(l := Unpinned(t.l, i)) else t
  }

  lemma FreedLast(t: Timed, i: nat)
    requires t.Valid() && i < |t.l.metas| && t.l.metas[i].refcnt == 1
    ensures Happen(t, DoRelease(i)).Valid()
  {
    var p := PositionOf(t.l, i);
    MoveToFront(t.l.order, p);
    FreedOrder(t.l.order, p, t.freed, t.now);
  }

  lemma FreedOrder(order: seq<nat>, p: nat, freed: seq<int>, now: int)
    requires p < |order| == |freed| && IsPerm(order, |order|) && IsPerm(OrderAfter(order, p), |order|)
    requires forall i :: 0 <= i < |freed| ==> freed[i] < now
    requires forall a, b :: 0 <= a < b < |order| ==> freed[order[a]] > freed[order[b]]
    ensures var r, freed' := OrderAfter(order, p), freed[order[p] := now];
            forall a, b :: 0 <= a < b < |r| ==> freed'[r[a]] > freed'[r[b]]
  {
    var r, freed' := OrderAfter(order, p), freed[order[p] := now];
    forall a, b | 0 <= a < b < |r| ensures freed'[r[a]] > freed'[r[b]] {
      var b' := if b <= p then b - 1 else b;
      assert r[b] == order[b'] != order[p];
      if a > 0 {
        var a' := if a <= p then a - 1 else a;
        assert r[a] == order[a'] != order[p];
        assert freed[order[a']] > freed[order[b']];
      }
    }
  }

  lemma HappenKeepsRecency(t: Timed, e: Event)
    requires t.Valid()
    ensures Happen(t, e).Valid()
  {
    if e.DoRelease? && e.index < |t.l.metas| && t.l.metas[e.index].refcnt == 1 {
      FreedLast(t, e.index);
    }
  }

  function HappenAll(t: Timed, es: seq<Event>): (r: Timed)
    requires t.Valid()
    ensures r.Valid() && |r.l.metas| == |t.l.metas|
    decreases es
  {
    if es == [] then t
    else
      HappenKeepsRecency(t, es[0]);
      HappenAll(Happen(t, es[0]), es[1..])
  }

  function Boot(n: nat): (r: Timed)
    ensures r.Valid() && |r.l.metas| == n
  {
    var order := seq(n, i => i);
    assert forall i: nat :: i < n ==> order[i] == i;
    Timed(Lru(seq(n, _ => Meta(0, 0, 0)), order), seq(n, i => -i - 1), 0)
  }

  lemma {:induction false} FreeIsLast(l: Lru, k: nat, q: nat)
    requires l.Valid() && q < k <= |l.order| && l.metas[l.order[q]].refcnt == 0
    ensures FreeBefore(l, k).Some?
    ensures exists p :: q <= p < k && l.order[p] == FreeBefore(l, k).value
  {
    if l.metas[l.order[k - 1]].refcnt == 0 {
      assert l.order[k - 1] == FreeBefore(l, k).value;
    } else {
      FreeIsLast(l, k - 1, q);
    }
  }

  lemma VictimOlder(t: Timed, i: nat)
    requires t.Valid() && i < |t.l.metas| && t.l.metas[i].refcnt == 0
    ensures var v := Victim(t.l);
            v.Some? && (i != v.value ==> t.freed[v.value] < t.freed[i])
  {
    var q := PositionOf(t.l, i);
    FreeIsLast(t.l, |t.l.order|, q);
    var p :| q <= p < |t.l.order| && t.l.order[p] == Victim(t.l).value;
    if q < p { assert t.freed[t.l.order[q]] > t.freed[t.l.order[p]]; }
  }

  /** After any run, the buffer chosen for reuse was freed before every other free buffer. */
  lemma VictimIsOldest(n: nat, es: seq<Event>, i: nat)
    requires i < n
    requires HappenAll(Boot(n), es).l.metas[i].refcnt == 0
    ensures var t := HappenAll(Boot(n), es);
            var v := Victim(t.l);
            && v.Some? && t.l.metas[v.value].refcnt == 0
            && (i != v.value ==> t.freed[v.value] < t.freed[i])
  {
    VictimOlder(HappenAll(Boot(n), es), i);
  }

  // ---- The list in place ----

  const NIL: int := -1

  datatype BufMeta = BufMeta(index: nat, dev: nat, blockno: nat, refcnt: nat, prev: int, next: int)

  function At(order: seq<nat>, k: int): int {
    if 0 <= k < |order| then order[k] else NIL
  }

  /** The links after buffer `i` was unlinked and put before the head. */
  function NextAfter(a: seq<BufMeta>, head: int, i: nat, j: int): int
    requires 0 <= i < |a| && 0 <= j < |a|
  {
    if j == i then head else if j == a[i].prev then a[i].next else a[j].next
  }

  function PrevAfter(a: seq<BufMeta>, head: int, i: nat, j: int): int
    requires 0 <= i < |a| && 0 <= j < |a|
  {
    if j == i then NIL else if j == head then i else if j == a[i].next then a[i].prev else a[j].prev
  }

  /** `pos` inverts `order`. */
  ghost predicate Inverse(order: seq<nat>, pos: seq<nat>) {
    && |order| == |pos|
    && (forall k: nat {:trigger AtPlace(order, pos, k)} :: k < |order| ==> AtPlace(order, pos, k))
    && (forall i: nat {:trigger InOrder(order, pos, i)} :: i < |pos| ==> InOrder(order, pos, i))
  }

  predicate AtPlace(order: seq<nat>, pos: seq<nat>, k: nat)
    requires k < |order|
  {
    order[k] < |pos| && pos[order[k]] == k
  }

  predicate InOrder(order: seq<nat>, pos: seq<nat>, i: nat)
    requires i < |pos|
  {
    pos[i] < |order| && order[pos[i]] == i
  }

  lemma InverseDistinct(order: seq<nat>, pos: seq<nat>)
    requires Inverse(order, pos)
    ensures IsPerm(order, |order|)
  {
    forall k | 0 <= k < |order| ensures order[k] < |order| && pos[order[k]] == k {
      assert AtPlace(order, pos, k);
    }
  }

  /** Following `next` from the first buffer, or `prev` from the last, visits `order` or its reverse. */
  ghost predicate Chained(inner: seq<BufMeta>, order: seq<nat>, pos: seq<nat>)
    requires |pos| == |inner|
  {
    forall i {:trigger inner[i]} :: 0 <= i < |inner| ==>
          inner[i].next == At(order, pos[i] + 1) && inner[i].prev == At(order, pos[i] as int - 1)
  }

  function PosAfter(pos: seq<nat>, i: nat): seq<nat>
    requires i < |pos|
  {
    seq(|pos|, j requires 0 <= j < |pos| => if j == i then 0 else if pos[j] < pos[i] then pos[j] + 1 else pos[j])
  }

  lemma InverseAfter(order: seq<nat>, pos: seq<nat>, i: nat)
    requires Inverse(order, pos) && i < |pos|
    ensures pos[i] < |order| && OrderAfter(order, pos[i]) == [i] + Without(order, i)
    ensures Inverse(OrderAfter(order, pos[i]), PosAfter(pos, i))
  {
    InverseDistinct(order, pos);
    assert InOrder(order, pos, i);
    MoveToFront(order, pos[i]);
    PlacesAfter(order, pos, i);
  }

  lemma PlacesAfter(order: seq<nat>, pos: seq<nat>, i: nat)
    requires Inverse(order, pos) && i < |pos| && pos[i] < |order| && order[pos[i]] == i
    ensures Inverse(OrderAfter(order, pos[i]), PosAfter(pos, i))
  {
    var order', pos' := OrderAfter(order, pos[i]), PosAfter(pos, i);
    forall k: nat | k < |order'| ensures AtPlace(order', pos', k) {
      assert AtPlace(order, pos, if k == 0 then pos[i] else if k <= pos[i] then k - 1 else k);
    }
    forall j: nat | j < |pos'| ensures InOrder(order', pos', j) {
      assert InOrder(order, pos, j);
    }
  }

  /** Unlinking buffer `i` and putting it before the head leaves a chained list. */
  lemma RelinkedAt(a: seq<BufMeta>, order: seq<nat>, pos: seq<nat>, i: nat, j: nat)
    requires Inverse(order, pos) && |pos| == |a| && i < |a| && j < |a| && Chained(a, order, pos) && 0 < pos[i] < |order|
    ensures NextAfter(a, order[0], i, j) == At(OrderAfter(order, pos[i]), PosAfter(pos, i)[j] + 1)
    ensures PrevAfter(a, order[0], i, j) == At(OrderAfter(order, pos[i]), PosAfter(pos, i)[j] as int - 1)
  {
    var p := pos[i];
    assert InOrder(order, pos, i) && InOrder(order, pos, j) && AtPlace(order, pos, 0) && AtPlace(order, pos, p - 1);
    if p + 1 < |order| { assert AtPlace(order, pos, p + 1); }
    assert a[i].prev == order[p - 1];
    assert a[i].next == At(order, p + 1);
    assert a[j].prev == At(order, pos[j] as int - 1);
    assert a[j].next == At(order, pos[j] + 1);
  }

  lemma Relinked(a: seq<BufMeta>, b: seq<BufMeta>, order: seq<nat>, pos: seq<nat>, i: nat)
    requires Inverse(order, pos) && |pos| == |a| == |b| && i < |a| && Chained(a, order, pos) && 0 < pos[i] < |order|
    requires forall j :: 0 <= j < |a| ==> b[j].next == NextAfter(a, order[0], i, j)
    requires forall j :: 0 <= j < |a| ==> b[j].prev == PrevAfter(a, order[0], i, j)
    ensures var order', pos' := [i] + Without(order, i), PosAfter(pos, i);
            && Inverse(order', pos') && IsPerm(order', |a|) && Chained(b, order', pos')
            && order'[0] == i && order'[|a| - 1] == if pos[i] == |a| - 1 then order[pos[i] - 1] else order[|a| - 1]
  {
    InverseAfter(order, pos, i);
    InverseDistinct([i] + Without(order, i), PosAfter(pos, i));
    forall j: nat | j < |a|
      ensures b[j].next == At(OrderAfter(order, pos[i]), PosAfter(pos, i)[j] + 1)
      ensures b[j].prev == At(OrderAfter(order, pos[i]), PosAfter(pos, i)[j] as int - 1)
    {
      RelinkedAt(a, order, pos, i, j);
    }
  }

  /** Where the links of a buffer that is not first point. */
  lemma Neighbours(a: seq<BufMeta>, order: seq<nat>, pos: seq<nat>, i: nat)
    requires Inverse(order, pos) && |pos| == |a| && i < |a| && Chained(a, order, pos) && order[0] != i
    ensures 0 < pos[i] < |order|
    ensures 0 <= a[i].prev < |a| && a[i].prev != i && a[i].prev == order[pos[i] - 1]
    ensures NIL <= a[i].next < |a| && a[i].next != i && a[i].next != order[0] && a[i].next != a[i].prev
    ensures a[i].next == NIL <==> pos[i] == |a| - 1
  {
    assert InOrder(order, pos, i) && AtPlace(order, pos, 0) && AtPlace(order, pos, pos[i] - 1);
    if a[i].next != NIL { assert a[i].next == order[pos[i] + 1] && AtPlace(order, pos, pos[i] + 1); }
  }

  lemma AlreadyFirst(order: seq<nat>, pos: seq<nat>)
    requires Inverse(order, pos) && order != []
    ensures [order[0]] + Without(order, order[0]) == order
  {
    InverseDistinct(order, pos);
    WithoutAt(order, 0);
  }

  class BufMetaLru {
    const inner: array<BufMeta>
    var head: int
    var tail: int
    ghost var metas: seq<Meta>
    ghost var order: seq<nat>
    ghost var pos: seq<nat>

    ghost predicate Valid()
      reads this, inner
    {
      && inner.Length >= 2
      && |metas| == |pos| == inner.Length && Inverse(order, pos) && IsPerm(order, inner.Length)
      && head == order[0] && tail == order[inner.Length - 1]
      && (forall i {:trigger inner[i]} :: 0 <= i < inner.Length ==>
            && inner[i].index == i
            && metas[i] == Meta(inner[i].dev, inner[i].blockno, inner[i].refcnt)
            && inner[i].next == At(order, pos[i] + 1) && inner[i].prev == At(order, pos[i] as int - 1))
    }

    ghost function Abs(): (l: Lru)
      reads this
    {
      Lru(metas, order)
    }

    /** `new` followed by `init`: the buffers chained in index order. */
    constructor (n: nat)
      requires n >= 2
      ensures Valid() && fresh(inner)
      ensures Abs() == Boot(n).l
    {
      inner := new BufMeta[n]((i: nat) => BufMeta(i, 0, 0, 0, i - 1, if i + 1 < n then i + 1 else NIL));
      head := 0;
      tail := n - 1;
      order := seq(n, i => i);
      pos := seq(n, i => i);
      metas := seq(n, _ => Meta(0, 0, 0));
    }

    method Find(dev: nat, blockno: nat) returns (r: Option<nat>)
      requires Valid()
      modifies this`metas, inner
      ensures Valid()
      ensures var l := old(Abs());
              && r == FindBuf(l, dev, blockno)
              && Abs() == if r.Some? then Hit(l, r.value) else l
    {
      ghost var l := Abs();
      ghost var k := 0;
      var b := head;
      while b != NIL
        invariant 0 <= k <= inner.Length
        invariant b == if k < inner.Length then order[k] else NIL
        invariant FindBuf(l, dev, blockno) == FindIn(l, k, dev, blockno)
        invariant Valid() && unchanged(inner) && Abs() == l
        decreases inner.Length - k
      {
        assert AtPlace(order, pos, k);
        var buf := inner[b];
        if buf.dev == dev && buf.blockno == blockno {
          inner[b] := buf.(refcnt := buf.refcnt + 1);
          metas := Hit(l, b).metas;
          return Some(buf.index);
        }
        b := buf.next;
        k := k + 1;
      }
      return None;
    }

    method Recycle(dev: nat, blockno: nat) returns (r: Option<nat>)
      requires Valid()
      modifies this`metas, inner
      ensures Valid()
      ensures var l := old(Abs());
              && r == Victim(l)
              && Abs() == if r.Some? then Reuse(l, r.value, dev, blockno) else l
    {
      ghost var l := Abs();
      ghost var k := inner.Length;
      var b := tail;
      while b != NIL
        invariant 0 <= k <= inner.Length
        invariant b == if k > 0 then order[k - 1] else NIL
        invariant Victim(l) == FreeBefore(l, k)
        invariant Valid() && unchanged(inner) && Abs() == l
        decreases k
      {
        assert AtPlace(order, pos, k - 1);
        var buf := inner[b];
        if buf.refcnt == 0 {
          inner[b] := buf.(dev := dev, blockno := blockno, refcnt := buf.refcnt + 1);
          metas := Reuse(l, b, dev, blockno).metas;
          return Some(buf.index);
        }
        b := buf.prev;
        k := k - 1;
      }
      return None;
    }

    /** The pointer writes of `brelse`. */
    method Splice(index: nat)
      requires index < inner.Length && 0 <= head < inner.Length && head != index
      requires 0 <= inner[index].prev < inner.Length && inner[index].prev != index
      requires NIL <= inner[index].next < inner.Length && inner[index].next != index
      requires inner[index].next != head && inner[index].next != inner[index].prev
      modifies this`head, this`tail, inner
      ensures head == index
      ensures tail == if old(tail) == index then old(inner[index].prev) else old(tail)
      ensures forall j :: 0 <= j < inner.Length ==>
        inner[j] == old(inner[j]).(next := NextAfter(old(inner[..]), old(head), index, j),
                                   prev := PrevAfter(old(inner[..]), old(head), index, j))
    {
      var buf := inner[index];
      if tail == index && buf.prev != NIL {
        tail := buf.prev;
      }
      if buf.next != NIL {
        inner[buf.next] := inner[buf.next].(prev := buf.prev);
      }
      if buf.prev != NIL {
        inner[buf.prev] := inner[buf.prev].(next := buf.next);
      }
      inner[index] := inner[index].(prev := NIL, next := head);
      if head != NIL {
        inner[head] := inner[head].(prev := index);
      }
      head := index;
    }

    method MoveToHead(index: nat)
      requires Valid() && index < inner.Length && head != index
      modifies this, inner
      ensures Valid() && metas == old(metas)
      ensures order == [index] + Without(old(order), index)
    {
      ghost var a := inner[..];
      assert Chained(a, order, pos) && InOrder(order, pos, index) && AtPlace(order, pos, inner.Length - 1);
      Neighbours(a, order, pos, index);
      Splice(index);
      Relinked(a, inner[..], order, pos, index);
      order, pos := [index] + Without(order, index), PosAfter(pos, index);
    }

    method Uncount(index: nat)
      requires Valid() && index < inner.Length && inner[index].refcnt > 0
      modifies this`metas, inner
      ensures Valid() && metas == old(metas)[index := old(metas)[index].(refcnt := old(metas)[index].refcnt - 1)]
    {
      inner[index] := inner[index].(refcnt := inner[index].refcnt - 1);
      metas := metas[index := metas[index].(refcnt := metas[index].refcnt - 1)];
    }

    method Brelse(index: nat)
      requires Valid() && index < inner.Length && inner[index].refcnt > 0
      modifies this, inner
      ensures Valid()
      ensures Abs() == Release(old(Abs()), index)
    {
      Uncount(index);
      if inner[index].refcnt == 0 && head != index {
        MoveToHead(index);
      } else if inner[index].refcnt == 0 {
        AlreadyFirst(order, pos);
      }
    }
  }
}
