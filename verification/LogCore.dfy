/**
  The in-memory log (kernel/src/log.rs): `begin_op`, `write` and `end_op`, each one critical
  section of the log lock.  `Log` is the protected record as a value; `LogLock` is the record
  updated in place.
*/
module LogCore {
  import opened Prelude
  import opened Blocks

  datatype Log = Log(outstanding: nat, committing: bool, header: Header) {
    ghost predicate Valid() {
      header.Valid()
    }
  }

  /** `Log::new`. */
  const FreshLog := Log(0, false, NoHeader)

  /** `begin_op` passes: otherwise its caller sleeps.  The arithmetic is that of a `usize`. */
  predicate CanBegin(l: Log) {
    !l.committing && (l.header.n + (l.outstanding + 1) * MAXOPBLOCKS) % USIZE <= LOGSIZE
  }

  function Begin(l: Log): Log {
    l.(outstanding := (l.outstanding + 1) % USIZE)
  }

  /** As many operations as `begin_op` admits at the same time, or not many more. */
  predicate Few(l: Log) {
    l.outstanding <= LOGSIZE
  }

  /** With few operations nothing wraps around, and they stay few. */
  lemma BeginIs(l: Log)
    requires l.Valid() && Few(l)
    ensures CanBegin(l) <==> !l.committing && l.header.n + (l.outstanding + 1) * MAXOPBLOCKS <= LOGSIZE
    ensures Begin(l).outstanding == l.outstanding + 1 && (CanBegin(l) ==> Few(Begin(l)))
  {
  }

  /** The two panics of `write`, for a log of `size` blocks. */
  predicate WritePanics(l: Log, size: nat) {
    l.header.n >= LOGSIZE || l.header.n >= size - 1 || l.outstanding < 1
  }

  /** The place of a block number among the logged ones, or their number. */
  function SlotOf(h: Header, blockno: nat, k: nat): (i: nat)
    requires h.Valid() && k <= h.n
    ensures k <= i <= h.n
    ensures i < h.n ==> h.blocknos[i] == blockno
    ensures i == h.n <==> forall j :: k <= j < h.n ==> h.blocknos[j] != blockno
    decreases h.n - k
  {
    if k == h.n || h.blocknos[k] == blockno then k else SlotOf(h, blockno, k + 1)
  }

  function Record(l: Log, blockno: nat): (r: Log)
    requires l.Valid() && l.header.n < LOGSIZE
    ensures r.Valid()
    ensures blockno in l.header.Logged() ==> r == l
    ensures blockno !in l.header.Logged() ==> r.header.Logged() == l.header.Logged() + [blockno]
    ensures r.outstanding == l.outstanding && r.committing == l.committing
  {
    var h := l.header;
    var i := SlotOf(h, blockno, 0);
    assert blockno in h.Logged() <==> i < h.n;
    assert i < h.n ==> h.blocknos[i := blockno] == h.blocknos;
    l.(header := Header(if i == h.n then h.n + 1 else h.n, h.blocknos[i := blockno]))
  }

  /** The panic of `end_op`: a commit is under way. */
  predicate EndPanics(l: Log) {
    l.committing
  }

  /** The counter of an `end_op` too many wraps around. */
  function End(l: Log): Log {
    l.(outstanding := (l.outstanding + USIZE - 1) % USIZE, committing := l.committing || l.outstanding == 1)
  }

  lemma EndIs(l: Log)
    requires Few(l) && l.outstanding > 0
    ensures End(l).outstanding == l.outstanding - 1 && Few(End(l))
  {
  }

  datatype WriteResult = Panicked | Absorbed | Added

  class LogLock {
    const size: nat
    var outstanding: nat
    var committing: bool
    var n: nat
    const blocknos: array<nat>

    ghost predicate Valid()
      reads this, blocknos
    {
      blocknos.Length == LOGSIZE && n <= LOGSIZE && outstanding < USIZE
    }

    ghost function Abs(): (l: Log)
      reads this, blocknos
    {
      Log(outstanding, committing, Header(n, blocknos[..]))
    }

    constructor (size: nat)
      ensures Valid() && fresh(blocknos) && this.size == size
      ensures Abs() == FreshLog
    {
      this.size := size;
      outstanding, committing, n := 0, false, 0;
      blocknos := new nat[LOGSIZE](_ => 0);
    }

    /** One pass of the loop in `begin_op`; a caller that does not pass sleeps and tries again. */
    method TryBegin() returns (passed: bool)
      requires Valid()
      modifies this
      ensures Valid() && passed == CanBegin(old(Abs()))
      ensures Abs() == if passed then Begin(old(Abs())) else old(Abs())
    {
      if committing || (n + (outstanding + 1) * MAXOPBLOCKS) % USIZE > LOGSIZE {
        return false;
      }
      outstanding := (outstanding + 1) % USIZE;
      return true;
    }

    /** `write`; the buffer must be pinned exactly when the block was added. */
    method Write(blockno: nat) returns (r: WriteResult)
      requires Valid()
      modifies this, blocknos
      ensures Valid()
      ensures r.Panicked? <==> WritePanics(old(Abs()), size)
      ensures r.Added? <==> !r.Panicked? && blockno !in old(Abs()).header.Logged()
      ensures Abs() == if r.Panicked? then old(Abs()) else Record(old(Abs()), blockno)
    {
      if n >= LOGSIZE || n >= size - 1 || outstanding < 1 {
        return Panicked;
      }
      ghost var h := Abs().header;
      var i := 0;
      while i < n && blocknos[i] != blockno
        invariant 0 <= i <= n
        invariant SlotOf(h, blockno, 0) == SlotOf(h, blockno, i)
      {
        i := i + 1;
      }
      blocknos[i] := blockno;
      if i == n {
        n := n + 1;
        return Added;
      }
      return Absorbed;
    }

    /** The first critical section of `end_op`. */
    method EndOp() returns (panicked: bool, doCommit: bool)
      requires Valid()
      modifies this
      ensures Valid() && (panicked <==> EndPanics(old(Abs())))
      ensures !panicked ==> doCommit == (old(outstanding) == 1) && Abs() == End(old(Abs()))
    {
      outstanding := (outstanding + USIZE - 1) % USIZE;
      if committing {
        return true, false;
      }
      panicked, doCommit := false, outstanding == 0;
      if doCommit {
        committing := true;
      }
    }
  }
}
