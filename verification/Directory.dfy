/**
  Directories (`dirlookup`, `dirlink`, `find_available_dirent_offset` and the entry clearing of `unlink` in
  kernel/src/fs.rs): a file of 32-byte entries stands for a finite map from names to inode numbers.
*/
module Directory {
  import opened Prelude
  import opened FsLayout

  const DIRSIZ: nat := 30
  const ENTRY: nat := 32 // size_of::<DirEnt>()

  type Name = n: seq<Byte> | |n| == DIRSIZ witness ZeroBytes(DIRSIZ)

  // ---- Names ----

  /** The bytes before the first NUL from index `i` on. */
  function UpToNul(n: Name, i: nat): (r: seq<Byte>)
    requires i <= DIRSIZ
    decreases DIRSIZ - i
  {
    if i == DIRSIZ || n[i] == 0 then [] else [n[i]] + UpToNul(n, i + 1)
  }

  predicate TerminatedFrom(n: Name, i: nat)
    requires i <= DIRSIZ
    decreases DIRSIZ - i
  {
    i < DIRSIZ && (n[i] == 0 || TerminatedFrom(n, i + 1))
  }

  /** The name a byte array stands for, if it has a NUL. */
  function Text(n: Name): seq<Byte> { UpToNul(n, 0) }

  predicate Terminated(n: Name) { TerminatedFrom(n, 0) }

  lemma {:induction false} MatchFrom(a: Name, b: Name, i: nat)
    requires i <= DIRSIZ
    ensures TerminatedFrom(a, i) && TerminatedFrom(b, i) && i < DIRSIZ && a[i] == b[i] && a[i] != 0 ==>
              (UpToNul(a, i) == UpToNul(b, i) <==> UpToNul(a, i + 1) == UpToNul(b, i + 1))
    ensures TerminatedFrom(a, i) && TerminatedFrom(b, i) && i < DIRSIZ && a[i] != b[i] ==>
              UpToNul(a, i) != UpToNul(b, i)
  {
    if i < DIRSIZ && a[i] == b[i] && a[i] != 0 {
      assert UpToNul(a, i)[1..] == UpToNul(a, i + 1) && UpToNul(b, i)[1..] == UpToNul(b, i + 1);
    }
    if i < DIRSIZ && a[i] != 0 { assert UpToNul(a, i)[0] == a[i]; }
    if i < DIRSIZ && b[i] != 0 { assert UpToNul(b, i)[0] == b[i]; }
  }

  /** The comparison in `dirlookup`: equal up to and with the first NUL; a name without one equals nothing. */
  method SameName(a: Name, b: Name) returns (same: bool)
    ensures same <==> Terminated(a) && Terminated(b) && Text(a) == Text(b)
  {
    var i := 0;
    while i < DIRSIZ
      invariant 0 <= i <= DIRSIZ
      invariant Terminated(a) == TerminatedFrom(a, i) && Terminated(b) == TerminatedFrom(b, i)
      invariant Terminated(a) && Terminated(b) ==> (Text(a) == Text(b) <==> UpToNul(a, i) == UpToNul(b, i))
    {
      MatchFrom(a, b, i);
      if a[i] != b[i] {
        return false;
      }
      if a[i] == 0 {
        return true;
      }
      i := i + 1;
    }
    same := false;
  }

  /** The copy loop of `dirlink`: `name` up to and with its first NUL, and old bytes after it. */
  method CopyName(old': Name, name: Name) returns (r: Name)
    ensures Terminated(name) ==> Terminated(r) && Text(r) == Text(name)
    ensures !Terminated(name) ==> r == name
  {
    r := old';
    var i := 0;
    while i < DIRSIZ
      invariant 0 <= i <= DIRSIZ && |r| == DIRSIZ
      invariant forall k :: 0 <= k < i ==> r[k] == name[k] && name[k] != 0
      invariant Terminated(name) == TerminatedFrom(name, i)
    {
      r := r[i := name[i]];
      if name[i] == 0 {
        SamePrefix(r, name, 0, i);
        return;
      }
      i := i + 1;
    }
    assert r == name;
  }

  lemma {:induction false} SamePrefix(a: Name, b: Name, i: nat, n: nat)
    requires i <= n < DIRSIZ && b[n] == 0 && forall k :: i <= k <= n ==> a[k] == b[k]
    ensures TerminatedFrom(a, i) && TerminatedFrom(b, i) && UpToNul(a, i) == UpToNul(b, i)
    decreases n - i
  {
    if i < n { SamePrefix(a, b, i + 1, n); }
  }

  // ---- Entries in a file ----

  datatype DirEnt = DirEnt(inum: nat, name: Name)

  function Entries(data: seq<Byte>): nat { |data| / ENTRY }

  function Decode(b: seq<Byte>): (e: DirEnt)
    requires |b| == ENTRY
    ensures e.inum < 0x1_0000
  {
    DirEnt(b[0] as nat + 0x100 * b[1] as nat, b[2..])
  }

  /** Entry `k` of the file. */
  function Get(data: seq<Byte>, k: nat): (e: DirEnt)
    requires |data| % ENTRY == 0 && k < Entries(data)
    ensures e.inum < 0x1_0000
  {
    Decode(data[ENTRY * k..ENTRY * k + ENTRY])
  }

  function Encode(e: DirEnt): (r: seq<Byte>)
    requires e.inum < 0x1_0000
    ensures |r| == ENTRY
  {
    [(e.inum % 0x100) as Byte, (e.inum / 0x100) as Byte] + e.name
  }

  /** The file with `e` in place `k`, which may be at its end. */
  function Put(data: seq<Byte>, k: nat, e: DirEnt): (r: seq<Byte>)
    requires |data| % ENTRY == 0 && k <= Entries(data) && e.inum < 0x1_0000
    ensures |r| % ENTRY == 0 && Entries(r) == if k < Entries(data) then Entries(data) else Entries(data) + 1
  {
    if k < Entries(data) then Splice(data, ENTRY * k, Encode(e)) else data + Encode(e)
  }

  lemma GetPut(data: seq<Byte>, k: nat, e: DirEnt, j: nat)
    requires |data| % ENTRY == 0 && k <= Entries(data) && e.inum < 0x1_0000 && j < Entries(Put(data, k, e))
    ensures Get(Put(data, k, e), j) == if j == k then e else Get(data, j)
  {
    var r := Put(data, k, e);
    if j == k {
      assert r[ENTRY * k..ENTRY * k + ENTRY] == Encode(e);
      assert Encode(e)[2..] == e.name;
    } else {
      assert r[ENTRY * j..ENTRY * j + ENTRY] == data[ENTRY * j..ENTRY * j + ENTRY];
    }
  }

  /** The first free entry from `k` on, or the end. */
  function FirstFree(data: seq<Byte>, k: nat): (r: nat)
    requires |data| % ENTRY == 0 && k <= Entries(data)
    ensures k <= r <= Entries(data) && (r < Entries(data) ==> Get(data, r).inum == 0)
    ensures forall j: nat {:trigger Get(data, j)} :: k <= j < r ==> Get(data, j).inum != 0
    decreases Entries(data) - k
  {
    if k == Entries(data) || Get(data, k).inum == 0 then k else FirstFree(data, k + 1)
  }

  const NoEntry := DirEnt(0, ZeroBytes(DIRSIZ))

  // ---- What a directory stands for ----

  /** An entry in use whose name has a NUL is the one place of its name. */
  predicate EntryOk(data: seq<Byte>, spot: map<seq<Byte>, nat>, k: nat)
    requires |data| % ENTRY == 0 && k < Entries(data)
  {
    var e := Get(data, k);
    e.inum != 0 && Terminated(e.name) ==> Text(e.name) in spot && spot[Text(e.name)] == k
  }

  predicate SpotOk(data: seq<Byte>, spot: map<seq<Byte>, nat>, t: seq<Byte>)
    requires |data| % ENTRY == 0 && t in spot
  {
    spot[t] < Entries(data) && var e := Get(data, spot[t]); e.inum != 0 && Terminated(e.name) && Text(e.name) == t
  }

  ghost predicate Denotes(data: seq<Byte>, spot: map<seq<Byte>, nat>) {
    && |data| % ENTRY == 0
    && (forall k: nat {:trigger EntryOk(data, spot, k)} :: k < Entries(data) ==> EntryOk(data, spot, k))
    && (forall t {:trigger SpotOk(data, spot, t)} :: t in spot ==> SpotOk(data, spot, t))
  }

  ghost function InumAt(data: seq<Byte>, k: nat): nat {
    if |data| % ENTRY == 0 && k < Entries(data) then Get(data, k).inum else 0
  }

  ghost function NamesOf(data: seq<Byte>, spot: map<seq<Byte>, nat>): map<seq<Byte>, nat> {
    map t | t in spot :: InumAt(data, spot[t])
  }

  /** A new entry, in a free place, for a name that is not there. */
  lemma Linked(data: seq<Byte>, spot: map<seq<Byte>, nat>, k: nat, e: DirEnt)
    requires Denotes(data, spot) && k <= Entries(data) && 0 < e.inum < 0x1_0000
             && (k < Entries(data) ==> Get(data, k).inum == 0)
    requires Terminated(e.name) && Text(e.name) !in spot
    ensures var data', spot' := Put(data, k, e), spot[Text(e.name) := k];
            Denotes(data', spot') && NamesOf(data', spot') == NamesOf(data, spot)[Text(e.name) := e.inum]
  {
    var data', text := Put(data, k, e), Text(e.name);
    var spot' := spot[text := k];
    forall j: nat | j < Entries(data') ensures EntryOk(data', spot', j) {
      GetPut(data, k, e, j);
      if j != k { assert EntryOk(data, spot, j); }
    }
    forall t | t in spot' ensures SpotOk(data', spot', t) { LinkedSpot(data, spot, k, e, t); }
    forall t | t in spot' ensures InumAt(data', spot'[t]) == if t in spot then InumAt(data, spot[t]) else e.inum {
      LinkedSpot(data, spot, k, e, t);
    }
  }

  lemma LinkedSpot(data: seq<Byte>, spot: map<seq<Byte>, nat>, k: nat, e: DirEnt, t: seq<Byte>)
    requires Denotes(data, spot) && k <= Entries(data) && 0 < e.inum < 0x1_0000
             && (k < Entries(data) ==> Get(data, k).inum == 0)
    requires Terminated(e.name) && Text(e.name) !in spot && t in spot[Text(e.name) := k]
    ensures var data', spot' := Put(data, k, e), spot[Text(e.name) := k];
            SpotOk(data', spot', t) && InumAt(data', spot'[t]) == if t in spot then InumAt(data, spot[t]) else e.inum
  {
    if t in spot { assert SpotOk(data, spot, t); }
    GetPut(data, k, e, if t in spot then spot[t] else k);
  }

  /** A new entry whose name has no NUL is not seen. */
  lemma Hidden(data: seq<Byte>, spot: map<seq<Byte>, nat>, k: nat, e: DirEnt)
    requires Denotes(data, spot) && k <= Entries(data) && 0 < e.inum < 0x1_0000
             && (k < Entries(data) ==> Get(data, k).inum == 0)
    requires !Terminated(e.name)
    ensures Denotes(Put(data, k, e), spot) && NamesOf(Put(data, k, e), spot) == NamesOf(data, spot)
  {
    var data' := Put(data, k, e);
    forall j: nat | j < Entries(data') ensures EntryOk(data', spot, j) {
      GetPut(data, k, e, j);
      if j != k { assert EntryOk(data, spot, j); }
    }
    forall t | t in spot ensures SpotOk(data', spot, t) && InumAt(data', spot[t]) == InumAt(data, spot[t]) {
      assert SpotOk(data, spot, t);
      GetPut(data, k, e, spot[t]);
    }
  }

  /** A free entry put in a free place is not seen. */
  lemma Ignored(data: seq<Byte>, spot: map<seq<Byte>, nat>, k: nat)
    requires Denotes(data, spot) && k <= Entries(data) && (k < Entries(data) ==> Get(data, k).inum == 0)
    ensures Denotes(Put(data, k, NoEntry), spot) && NamesOf(Put(data, k, NoEntry), spot) == NamesOf(data, spot)
  {
    var data' := Put(data, k, NoEntry);
    forall j: nat | j < Entries(data') ensures EntryOk(data', spot, j) {
      GetPut(data, k, NoEntry, j);
      if j != k { assert EntryOk(data, spot, j); }
    }
    forall t | t in spot ensures SpotOk(data', spot, t) && InumAt(data', spot[t]) == InumAt(data, spot[t]) {
      assert SpotOk(data, spot, t);
      GetPut(data, k, NoEntry, spot[t]);
    }
  }

  lemma Unlinked(data: seq<Byte>, spot: map<seq<Byte>, nat>, t: seq<Byte>)
    requires Denotes(data, spot) && t in spot
    ensures spot[t] < Entries(data)
    ensures var data' := Put(data, spot[t], NoEntry);
            Denotes(data', spot - {t}) && NamesOf(data', spot - {t}) == NamesOf(data, spot) - {t}
  {
    assert SpotOk(data, spot, t);
    var k, e := spot[t], NoEntry;
    var data', spot' := Put(data, k, e), spot - {t};
    forall j: nat | j < Entries(data') ensures EntryOk(data', spot', j) {
      GetPut(data, k, e, j);
      if j != k { assert EntryOk(data, spot, j); }
    }
    forall u | u in spot' ensures SpotOk(data', spot', u) && InumAt(data', spot'[u]) == InumAt(data, spot[u]) {
      assert SpotOk(data, spot, u);
      GetPut(data, k, e, spot[u]);
    }
  }
}
