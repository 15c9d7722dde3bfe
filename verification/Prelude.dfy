/** Small shared definitions. */
module Prelude {
  datatype Option<+T> = None | Some(value: T)

  /** What does not fit in a `usize`. */
  const USIZE: nat := 0x1_0000_0000_0000_0000

  function Min(a: int, b: int): int {
    if a < b then a else b
  }

  function Zeros(n: nat): (r: seq<nat>)
    ensures |r| == n && forall i :: 0 <= i < n ==> r[i] == 0
  {
    seq(n, _ => 0)
  }

  /** `s` with `part` copied over it from index `at` on. */
  function Splice<T>(s: seq<T>, at: nat, part: seq<T>): (r: seq<T>)
    requires at + |part| <= |s|
    ensures |r| == |s|
    ensures forall k :: 0 <= k < |s| ==> r[k] == if at <= k < at + |part| then part[k - at] else s[k]
  {
    s[..at] + part + s[at + |part|..]
  }

  ghost predicate Distinct<T(!new)>(s: seq<T>) {
    forall i, j :: 0 <= i < j < |s| ==> s[i] != s[j]
  }

  /** The naturals below `n`. */
  function Below(n: nat): (r: set<nat>)
    ensures |r| == n
    ensures forall x: nat :: x in r <==> x < n
  {
    if n == 0 then {} else Below(n - 1) + {n - 1}
  }

  lemma {:induction false} DistinctBound<T(!new)>(s: seq<T>, bound: set<T>)
    requires Distinct(s)
    requires forall k :: 0 <= k < |s| ==> s[k] in bound
    ensures |s| <= |bound|
  {
    if s != [] {
      var last := |s| - 1;
      DistinctBound(s[..last], bound - {s[last]});
    }
  }

  /** An in-range sequence without repetitions that is as long as its range covers it. */
  lemma DistinctCovers(s: seq<nat>, n: nat, x: nat)
    requires |s| == n && x < n && Distinct(s)
    requires forall k :: 0 <= k < n ==> s[k] < n
    ensures x in s
  {
    if x !in s { DistinctBound(s, Below(n) - {x}); }
  }
}
