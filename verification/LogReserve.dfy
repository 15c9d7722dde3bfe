/**
  Log space reservation (kernel/src/log.rs): if every operation calls `LOG.write` at most MAXOPBLOCKS
  times, what `begin_op` admits fits in the log.  With a log of exactly LOGSIZE blocks, one of which
  is the header, it does not quite.
*/
module LogReserve {
  import opened Prelude
  import opened Blocks
  import opened LogCore

  /** The log and, for every running operation, how many writes it has made. */
  datatype State = State(log: Log, spent: map<nat, nat>)

  datatype Event = Begin(id: nat) | Write(id: nat, blockno: nat) | End(id: nat) | Commit

  /** One call; `None` if it waits, panics, or breaks the caller's side of the bargain. */
  function Next(s: State, size: nat, e: Event): Option<State>
    requires s.log.Valid()
  {
    match e
    case Begin(id) =>
      if CanBegin(s.log) && id !in s.spent then Some(State(LogCore.Begin(s.log), s.spent[id := 0])) else None
    case Write(id, b) =>
      if id in s.spent && s.spent[id] < MAXOPBLOCKS && !WritePanics(s.log, size) then
        Some(State(Record(s.log, b), s.spent[id := s.spent[id] + 1]))
      else None
    case End(id) =>
      if id in s.spent && !EndPanics(s.log) then Some(State(LogCore.End(s.log), s.spent - {id})) else None
    case Commit =>
      if s.log.committing then Some(s.(log := s.log.(committing := false, header := s.log.header.(n := 0)))) else None
  }

  ghost function Total(m: map<nat, nat>): nat {
    if m == map[] then 0
    else
      var k :| k in m;
      m[k] + Total(m - {k})
  }

  lemma {:induction false} TotalSplit(m: map<nat, nat>, k: nat)
    requires k in m
    ensures Total(m) == m[k] + Total(m - {k})
    decreases m
  {
    var j :| j in m && Total(m) == m[j] + Total(m - {j});
    if j != k {
      TotalSplit(m - {j}, k);
      TotalSplit(m - {k}, j);
      assert m - {j} - {k} == m - {k} - {j};
    }
  }

  /** Logged blocks and unspent allowances fit in the log. */
  ghost predicate Reserved(s: State) {
    && s.log.Valid()
    && s.log.outstanding == |s.spent| && Few(s.log)
    && (forall id :: id in s.spent ==> s.spent[id] <= MAXOPBLOCKS)
    && (s.log.committing ==> s.spent == map[])
    && s.log.header.n + |s.spent| * MAXOPBLOCKS <= LOGSIZE + Total(s.spent)
  }

  lemma BeginReserved(s: State, size: nat, id: nat)
    requires Reserved(s) && Next(s, size, Begin(id)).Some?
    ensures Reserved(Next(s, size, Begin(id)).value)
  {
    BeginIs(s.log);
    var r := Next(s, size, Begin(id)).value;
    TotalSplit(r.spent, id);
    assert r.spent - {id} == s.spent;
    assert r.spent.Keys == s.spent.Keys + {id};
  }

  lemma WriteReserved(s: State, size: nat, id: nat, b: nat)
    requires Reserved(s) && Next(s, size, Write(id, b)).Some?
    ensures Reserved(Next(s, size, Write(id, b)).value)
  {
    var r := Next(s, size, Write(id, b)).value;
    TotalSplit(r.spent, id);
    TotalSplit(s.spent, id);
    assert r.spent - {id} == s.spent - {id};
    assert r.spent.Keys == s.spent.Keys;
  }

  lemma EndReserved(s: State, size: nat, id: nat)
    requires Reserved(s) && Next(s, size, End(id)).Some?
    ensures Reserved(Next(s, size, End(id)).value)
  {
    TotalSplit(s.spent, id);
    EndIs(s.log);
    var r := Next(s, size, End(id)).value;
    assert s.spent.Keys == r.spent.Keys + {id};
  }

  lemma NextReserved(s: State, size: nat, e: Event)
    requires Reserved(s) && Next(s, size, e).Some?
    ensures Reserved(Next(s, size, e).value)
  {
    match e
    case Begin(id) => BeginReserved(s, size, id);
    case Write(id, b) => WriteReserved(s, size, id, b);
    case End(id) => EndReserved(s, size, id);
    case Commit => assert Total(map[]) == 0;
  }

  ghost function Run(s: State, size: nat, es: seq<Event>): (r: Option<State>)
    requires Reserved(s)
    ensures r.Some? ==> Reserved(r.value)
    decreases es
  {
    if es == [] then Some(s)
    else
      var r := Next(s, size, es[0]);
      if r.None? then None
      else
        NextReserved(s, size, es[0]);
        Run(r.value, size, es[1..])
  }

  const Idle := State(FreshLog, map[])

  /** The states that some run of calls reaches from a fresh log. */
  ghost predicate Reaches(size: nat, es: seq<Event>, s: State) {
    Reserved(Idle) && Run(Idle, size, es) == Some(s)
  }

  /**
    An operation that has not used up its allowance finds room, unless all data blocks of the log are
    taken; with more than LOGSIZE blocks in the log that does not happen.
  */
  lemma WriteFits(size: nat, es: seq<Event>, s: State, id: nat)
    requires size >= 1 && Reaches(size, es, s) && id in s.spent && s.spent[id] < MAXOPBLOCKS
    ensures s.log.header.n < LOGSIZE
    ensures WritePanics(s.log, size) <==> s.log.header.n == size - 1
    ensures size > LOGSIZE ==> !WritePanics(s.log, size)
  {
    TotalSplit(s.spent, id);
    TotalBound(s.spent - {id});
    assert s.spent.Keys == (s.spent - {id}).Keys + {id};
    LoggedBound(Idle, size, es);
  }

  lemma {:induction false} TotalBound(m: map<nat, nat>)
    requires forall id :: id in m ==> m[id] <= MAXOPBLOCKS
    ensures Total(m) <= |m| * MAXOPBLOCKS
    decreases m
  {
    if m != map[] {
      var k :| k in m;
      TotalSplit(m, k);
      TotalBound(m - {k});
      assert m.Keys == (m - {k}).Keys + {k};
    }
  }

  /** A log of `size` blocks never logs more than its `size - 1` data blocks. */
  lemma {:induction false} LoggedBound(s: State, size: nat, es: seq<Event>)
    requires Reserved(s) && size >= 1 && s.log.header.n <= size - 1 && Run(s, size, es).Some?
    ensures Run(s, size, es).value.log.header.n <= size - 1
    decreases es
  {
    if es != [] {
      NextReserved(s, size, es[0]);
      LoggedBound(Next(s, size, es[0]).value, size, es[1..]);
    }
  }

  // ---- The reservation is one block short ----

  /** Three operations begin and write blocks 0, 1, 2, ... in turn, ten each. */
  function Script(k: nat): (es: seq<Event>) {
    if k == 0 then [Begin(0), Begin(1), Begin(2)] else Script(k - 1) + [Write((k - 1) / MAXOPBLOCKS, k - 1)]
  }

  function ScriptState(k: nat): State
    requires k <= LOGSIZE
  {
    State(Log(3, false, Header(k, seq(k, i => i) + Zeros(LOGSIZE - k))),
          map[0 := Used(k, 0), 1 := Used(k, 1), 2 := Used(k, 2)])
  }

  function Used(k: nat, id: nat): nat {
    if k <= id * MAXOPBLOCKS then 0 else Min(k - id * MAXOPBLOCKS, MAXOPBLOCKS)
  }

  lemma {:induction false} RunAppend(s: State, size: nat, a: seq<Event>, b: seq<Event>)
    requires Reserved(s) && Run(s, size, a).Some?
    ensures Run(s, size, a + b) == Run(Run(s, size, a).value, size, b)
    decreases a
  {
    if a == [] {
      assert a + b == b;
    } else {
      NextReserved(s, size, a[0]);
      FirstOf(a, b);
      RunAppend(Next(s, size, a[0]).value, size, a[1..], b);
    }
  }

  lemma FirstOf(a: seq<Event>, b: seq<Event>)
    requires a != []
    ensures a + b != [] && (a + b)[0] == a[0] && (a + b)[1..] == a[1..] + b
  {
  }

  lemma ScriptStart(size: nat)
    ensures Reaches(size, Script(0), ScriptState(0))
  {
    var s0 := Idle;
    assert Total(map[]) == 0;
    assert Reserved(s0);
    var s1 := Next(s0, size, Begin(0)).value;
    NextReserved(s0, size, Begin(0));
    var s2 := Next(s1, size, Begin(1)).value;
    NextReserved(s1, size, Begin(1));
    var s3 := Next(s2, size, Begin(2)).value;
    NextReserved(s2, size, Begin(2));
    assert s3 == ScriptState(0);
    assert Script(0)[1..] == [Begin(1), Begin(2)] && [Begin(1), Begin(2)][1..] == [Begin(2)] && [Begin(2)][1..] == [];
    assert Run(s3, size, []) == Some(s3);
    assert Run(s2, size, [Begin(2)]) == Some(s3);
    assert Run(s1, size, [Begin(1), Begin(2)]) == Some(s3);
  }

  lemma {:induction false} ScriptRuns(size: nat, k: nat)
    requires k < size <= LOGSIZE
    ensures Reaches(size, Script(k), ScriptState(k))
  {
    if k == 0 {
      ScriptStart(size);
    } else {
      ScriptRuns(size, k - 1);
      ScriptStep(size, k);
      ScriptNext(size, k, Write((k - 1) / MAXOPBLOCKS, k - 1));
    }
  }

  lemma ScriptNext(size: nat, k: nat, e: Event)
    requires 0 < k <= LOGSIZE && Reaches(size, Script(k - 1), ScriptState(k - 1)) && Script(k) == Script(k - 1) + [e]
    requires Next(ScriptState(k - 1), size, e) == Some(ScriptState(k))
    ensures Reaches(size, Script(k), ScriptState(k))
  {
    RunAppend(Idle, size, Script(k - 1), [e]);
    assert [e][1..] == [];
  }

  lemma ScriptLog(k: nat)
    requires 0 < k <= LOGSIZE
    ensures ScriptState(k - 1).log.Valid() && ScriptState(k - 1).log.header.n < LOGSIZE
    ensures Record(ScriptState(k - 1).log, k - 1) == ScriptState(k).log
  {
    var h := ScriptState(k - 1).log.header;
    assert forall j :: 0 <= j < h.n ==> h.blocknos[j] == j;
    assert SlotOf(h, k - 1, 0) == k - 1;
    assert h.blocknos[k - 1 := k - 1] == ScriptState(k).log.header.blocknos;
  }

  lemma ScriptSpent(k: nat, id: nat)
    requires 0 < k < LOGSIZE && id == (k - 1) / MAXOPBLOCKS
    ensures var spent := ScriptState(k - 1).spent;
            id in spent && spent[id] < MAXOPBLOCKS && spent[id := spent[id] + 1] == ScriptState(k).spent
  {
  }

  lemma ScriptStep(size: nat, k: nat)
    requires 0 < k < size <= LOGSIZE
    ensures Next(ScriptState(k - 1), size, Write((k - 1) / MAXOPBLOCKS, k - 1)) == Some(ScriptState(k))
  {
    ScriptLog(k);
    ScriptSpent(k, (k - 1) / MAXOPBLOCKS);
  }

  /** A run in which every operation stays within its allowance, and operation `id` panics on a write within its own. */
  ghost predicate PanicsAt(size: nat, es: seq<Event>, s: State, id: nat) {
    Reaches(size, es, s) && id in s.spent && s.spent[id] < MAXOPBLOCKS && WritePanics(s.log, size)
  }

  lemma SmallLogPanics(size: nat)
    requires 1 <= size <= LOGSIZE
    ensures PanicsAt(size, Script(size - 1), ScriptState(size - 1), (size - 1) / MAXOPBLOCKS)
  {
    var k := size - 1;
    ScriptRuns(size, k);
    ScriptEnd(size, k);
  }

  lemma ScriptEnd(size: nat, k: nat)
    requires k + 1 == size <= LOGSIZE
    ensures var s, id := ScriptState(k), k / MAXOPBLOCKS;
            id in s.spent && s.spent[id] < MAXOPBLOCKS && WritePanics(s.log, size)
  {
    var id := k / MAXOPBLOCKS;
    assert id == 0 || id == 1 || id == 2;
  }

  lemma LargeLogIsSafe(size: nat, es: seq<Event>, s: State, id: nat)
    requires size > LOGSIZE
    ensures !PanicsAt(size, es, s, id)
  {
    if Reaches(size, es, s) && id in s.spent && s.spent[id] < MAXOPBLOCKS { WriteFits(size, es, s, id); }
  }

  /** What `begin_op` admits is safe if and only if the log has more than LOGSIZE blocks, header included. */
  lemma ReservationSuffices(size: nat)
    requires size >= 1
    ensures (forall es, s, id :: !PanicsAt(size, es, s, id)) <==> size > LOGSIZE
  {
    if size > LOGSIZE {
      forall es, s, id ensures !PanicsAt(size, es, s, id) { LargeLogIsSafe(size, es, s, id); }
    } else {
      SmallLogPanics(size);
    }
  }

  /** With the shipped size the third operation panics on its tenth write. */
  lemma ShippedLogCanPanic()
    ensures exists es, s :: PanicsAt(LOGSIZE, es, s, 2) && s.spent[2] == MAXOPBLOCKS - 1
  {
    SmallLogPanics(LOGSIZE);
  }
}
