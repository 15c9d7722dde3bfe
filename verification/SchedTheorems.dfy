/** Safety of the process machine over every run from boot, on any number of CPUs, processes and sleep locks. */
module SchedTheorems {
  import opened Prelude
  import opened Sched
  import opened SchedInv
  import opened SchedBase
  import opened SchedSteps

  lemma InvWellFormed(s: State)
    requires Inv(s)
    ensures WellFormed(s)
  {
    forall c: nat | c < |s.mode| && s.mode[c].Exec? ensures PcOk(s.pc[s.mode[c].p], |s.st|, |s.locked|) {
      OwnPlace(s, c, s.mode[c].p);
    }
  }

  lemma WorkInv(s: State, c: nat, p: nat, choice: Choice)
    requires Inv(s) && WellFormed(s) && Runs(s, c, p) && s.pc[p].Work? && WorkStep(s, c, p, choice).Some?
    ensures Inv(WorkStep(s, c, p, choice).value)
  {
    match choice
    case Lock(l) => LockStartInv(s, c, p, l);
    case Unlock(l) => UnlockStartInv(s, c, p, l);
    case Wait => WaitStartInv(s, c, p);
    case Exit => ExitStartInv(s, c, p);
    case Fork => ForkStartInv(s, c, p);
    case _ =>
  }

  lemma ExecInv(s: State, c: nat, p: nat, choice: Choice)
    requires Inv(s) && WellFormed(s) && Runs(s, c, p) && ExecStep(s, c, p, choice).Some?
    ensures Inv(ExecStep(s, c, p, choice).value)
  {
    OwnPlace(s, c, p);
    match s.pc[p]
    case Work => WorkInv(s, c, p, choice);
    case Switching(_) => SaveInv(s, c, p);
    case Resumed(_) => ResumeInv(s, c, p);
    case SleepUnlock(_, _) => SleepUnlockInv(s, c, p);
    case Reacquire(_, _) => ReacquireInv(s, c, p);
    case Awake(_, _) => AwakeInv(s, c, p);
    case Waking(_, _, _) => WakeInv(s, c, p);
    case LockCheck(_) => LockCheckInv(s, c, p);
    case LockFreed(_) => UnlockEndInv(s, c, p);
    case WaitScan(_, _) => WaitInv(s, c, p, choice == Fail, choice == Killed);
    case WaitReap(_) => WaitReapInv(s, c, p);
    case ExitScan(_) => ExitScanInv(s, c, p);
    case ExitZombie => ExitZombieInv(s, c, p);
    case ExitUnlock => ParentsEndInv(s, c, p, Switching(Dead));
    case ForkFind(_, _) => ForkFindInv(s, c, p, choice != Fail);
    case ForkCopy(_) => ForkCopyInv(s, c, p, choice != Fail);
    case ForkParent(_) => ForkParentInv(s, c, p);
    case ForkRun(_) => ForkRunInv(s, c, p);
  }

  /** Every step, from every state that satisfies the invariant. */
  lemma NextInv(s: State, e: Step)
    requires Inv(s)
    ensures WellFormed(s)
    ensures Next(s, e).Some? ==> Inv(Next(s, e).value)
  {
    InvWellFormed(s);
    if Next(s, e).Some? {
      match s.mode[e.c]
      case Scan(_) => ScanInv(s, e.c);
      case Picked(_) => DispatchInv(s, e.c);
      case Ready(_) => LoadInv(s, e.c);
      case Saved(_) => ReturnInv(s, e.c);
      case Back(_) => ReleaseInv(s, e.c);
      case Exec(p) =>
        if e.choice == Yield && LockFree(s.pc[p]) { YieldInv(s, e.c, p); } else { ExecInv(s, e.c, p, e.choice); }
    }
  }

  lemma BootInv(cpus: nat, procs: nat, locks: nat)
    requires procs > 0
    ensures Inv(Boot(cpus, procs, locks))
  {
    var s := Boot(cpus, procs, locks);
    forall p: nat | p < procs ensures PidOk(s, p) && EmbryoOk(s, p) && ParentOk(s, p) {
    }
  }

  // ---- Runs ----

  /** `t` comes about from `s` by the steps `es`, in this order. */
  ghost predicate Leads(s: State, es: seq<Step>, t: State)
    decreases |es|
  {
    if es == [] then s == t
    else WellFormed(s) && Next(s, es[0]).Some? && Leads(Next(s, es[0]).value, es[1..], t)
  }

  ghost predicate Reachable(t: State) {
    exists cpus: nat, procs: nat, locks: nat, es: seq<Step> :: procs > 0 && Leads(Boot(cpus, procs, locks), es, t)
  }

  lemma {:induction false} LeadsInv(s: State, es: seq<Step>, t: State)
    requires Inv(s) && Leads(s, es, t)
    ensures Inv(t)
    decreases |es|
  {
    if es != [] {
      NextInv(s, es[0]);
      LeadsInv(Next(s, es[0]).value, es[1..], t);
    }
  }

  lemma ReachableInv(t: State)
    requires Reachable(t)
    ensures Inv(t)
  {
    var cpus: nat, procs: nat, locks: nat, es: seq<Step> :| procs > 0 && Leads(Boot(cpus, procs, locks), es, t);
    BootInv(cpus, procs, locks);
    LeadsInv(Boot(cpus, procs, locks), es, t);
  }

  // ---- What follows ----

  /** Neither `acquire` nor `release` nor `sched` nor `exit` panics, and no context is loaded that is not saved. */
  lemma NoPanic(s: State)
    requires Reachable(s)
    ensures !s.bad
  {
    ReachableInv(s);
  }

  /** At most one CPU has a process, from picking it to giving it back. */
  lemma OneCpu(s: State, c: nat, d: nat)
    requires Reachable(s) && c < |s.mode| && d < |s.mode| && !s.mode[c].Scan? && !s.mode[d].Scan?
             && s.mode[c].p == s.mode[d].p
    ensures c == d
  {
    ReachableInv(s);
    assert s.on[s.mode[c].p] == Some(c) && s.on[s.mode[d].p] == Some(d);
  }

  /** A CPU about to load the context of a process finds it saved, and nobody else on its stack. */
  lemma LoadsAreSaved(s: State, c: nat, d: nat)
    requires Reachable(s) && c < |s.mode| && s.mode[c].Ready?
    ensures s.mode[c].p < |s.pc| == |s.st| && s.pc[s.mode[c].p].Parked? && s.st[s.mode[c].p] == Running
    ensures d < |s.mode| && d != c && !s.mode[d].Scan? ==> s.mode[d].p != s.mode[c].p
  {
    ReachableInv(s);
    assert s.on[s.mode[c].p] == Some(c);
    if d < |s.mode| && d != c && !s.mode[d].Scan? { assert s.on[s.mode[d].p] == Some(d); }
  }

  /** In `sched` a CPU holds the lock of its process and no other, so the check on `noff` passes. */
  lemma SchedHoldsOneLock(s: State, c: nat, p: nat, lk: Lock)
    requires Reachable(s) && Runs(s, c, p) && p < |s.pc| && s.pc[p].Switching?
    ensures c < |s.noff| && s.noff[c] == 1 && (lk in s.held && s.held[lk] == c <==> lk == ProcLock(p))
  {
    ReachableInv(s);
    OwnLocks(s, c, p);
  }

  /** Whenever `parents` is free, a process asleep in `wait` has no zombie child. */
  lemma NoExitMissed(s: State, p: nat, i: nat)
    requires Reachable(s) && Parents !in s.held && SleepsOn(s, p, ChildOf(p)) && i < |s.parents|
             && s.parents[i] == Some(p)
    ensures i < |s.st| && s.st[i] != Zombie
  {
    ReachableInv(s);
    assert !ZombieChild(s, p, i);
  }

  /**
    A recorded parent is neither unused nor a zombie.  It is older than its child unless `wait` has just freed the
    child, so whenever `parents` is free; and it is not older as long as the freed entry is not taken by a fork.  Once
    a fork has taken the entry, the order is undecided until `wait` forgets the parent: it depends on when that fork
    drew its pid.
  */
  lemma ParentsAreLive(s: State, i: nat)
    requires Reachable(s) && i < |s.parents| && s.parents[i].Some?
    ensures i != 0 && s.parents[i].value < |s.st| == |s.pid| && i < |s.st|
    ensures s.st[s.parents[i].value] != Unused && s.st[s.parents[i].value] != Zombie
    ensures !Reaping(s, i) ==> s.st[i] != Unused && s.pid[s.parents[i].value] < s.pid[i]
    ensures s.st[i] == Unused ==> Reaping(s, i) && s.pid[s.parents[i].value] >= s.pid[i]
  {
    ReachableInv(s);
    assert ParentOk(s, i) && PidOk(s, i);
    LifeState(s, i);
    LifeState(s, s.parents[i].value);
  }

  lemma LifeState(s: State, p: nat)
    requires Base(s) && p < |s.st|
    ensures s.st[p] == Unused <==> s.life[p] == Free
    ensures s.st[p] == Zombie <==> s.life[p] == Gone
    ensures s.st[p] == Runnable || s.st[p] == Running || s.st[p] == Sleeping ==> s.life[p] == Alive
  {
    assert PlaceOk(s.on[p], s.mode, p, s.st[p], s.chan[p], s.life[p], s.pc[p], |s.on|, |s.locked|);
  }

  /** `n` parents up from `p`. */
  function Ancestor(parents: seq<Option<nat>>, p: nat, n: nat): nat
    decreases n
  {
    if n == 0 || p >= |parents| || parents[p].None? then p else Ancestor(parents, parents[p].value, n - 1)
  }

  /** Whenever `parents` is free, the parents of a process lead to `init`. */
  lemma {:induction false} ChainEndsAtInit(s: State, p: nat)
    requires Reachable(s) && Parents !in s.held && p < |s.st| == |s.pid|
    requires s.st[p] == Runnable || s.st[p] == Running || s.st[p] == Sleeping || s.st[p] == Zombie
    ensures exists n: nat :: n <= s.pid[p] && Ancestor(s.parents, p, n) == 0
  {
    ReachableInv(s);
    LifeState(s, p);
    Climb(s, p);
  }

  lemma {:induction false} Climb(s: State, p: nat)
    requires Inv(s) && Parents !in s.held && p < |s.st| && (s.life[p] == Alive || s.life[p] == Gone)
    ensures exists n: nat :: n <= s.pid[p] && Ancestor(s.parents, p, n) == 0
    decreases s.pid[p]
  {
    if p == 0 {
      assert Ancestor(s.parents, p, 0) == 0;
    } else {
      assert ParentOk(s, p);
      var q := s.parents[p].value;
      Climb(s, q);
      var n: nat :| n <= s.pid[q] && Ancestor(s.parents, q, n) == 0;
      assert Ancestor(s.parents, p, n + 1) == 0;
    }
  }

  /** At most one process has the guard of a sleep lock, and then the lock is locked. */
  lemma SleepLockIsExclusive(s: State, p: nat, q: nat, l: nat)
    requires Reachable(s) && p < |s.holds| && q < |s.holds| && l in s.holds[p] && l in s.holds[q]
    ensures p == q && l < |s.locked| && s.locked[l]
  {
    ReachableInv(s);
  }

  /** Whenever the inner lock of a sleep lock is free, a process that sleeps on the sleep lock finds it locked. */
  lemma NoLostWakeup(s: State, p: nat, l: nat)
    requires Reachable(s) && Inner(l) !in s.held && SleepsOn(s, p, LockOf(l))
    ensures l < |s.locked| && s.locked[l]
  {
    ReachableInv(s);
    assert PlaceOk(s.on[p], s.mode, p, s.st[p], s.chan[p], s.life[p], s.pc[p], |s.on|, |s.locked|);
  }
}
