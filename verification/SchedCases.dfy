/**
  Two runs of two CPUs, two processes and one sleep lock.  In the first `init` forks and waits, the child exits, and
  `wait` frees its entry: then the child that `parents` still names is not younger than its parent.  In the second
  `init` and its child use the sleep lock, and both CPUs end up waiting for each other.
*/
module SchedCases {
  import opened Prelude
  import opened Sched
  import opened SchedInv
  import opened SchedTheorems

  /** Of a process what a run depends on, and of each spin lock the CPU that holds it. */
  datatype Proc = Proc(st: ProcState, chan: Chan, pc: Pc)
  datatype Locks = Locks(parents: Option<nat>, inner: Option<nat>, lock0: Option<nat>, lock1: Option<nat>)
  datatype Rest = Rest(parent1: Option<nat>, next: nat, locked: bool, mine: bool)

  /** What such a state shows. */
  datatype Snap = Snap(mode0: Mode, mode1: Mode, held: Locks, p0: Proc, p1: Proc, rest: Rest)

  function One(holder: Option<nat>, c: nat): nat {
    if holder == Some(c) then 1 else 0
  }

  predicate HeldBy(s: State, lk: Lock, holder: Option<nat>) {
    (lk in s.held <==> holder.Some?) && (holder.Some? ==> s.held[lk] == holder.value)
  }

  ghost predicate ShowsCpu(s: State, c: nat, mode: Mode, h: Locks) {
    && c < |s.mode| == |s.noff| && s.mode[c] == mode
    && s.noff[c] == One(h.parents, c) + One(h.inner, c) + One(h.lock0, c) + One(h.lock1, c)
  }

  ghost predicate ShowsProc(s: State, p: nat, v: Proc) {
    p < |s.st| == |s.chan| == |s.pc| && s.st[p] == v.st && s.chan[p] == v.chan && s.pc[p] == v.pc
  }

  ghost predicate Matches(s: State, v: Snap) {
    && WellFormed(s) && !s.bad && |s.mode| == 2 && |s.st| == 2 && |s.locked| == 1
    && ShowsCpu(s, 0, v.mode0, v.held) && ShowsCpu(s, 1, v.mode1, v.held)
    && HeldBy(s, Parents, v.held.parents) && HeldBy(s, Inner(0), v.held.inner)
    && HeldBy(s, ProcLock(0), v.held.lock0) && HeldBy(s, ProcLock(1), v.held.lock1)
    && ShowsProc(s, 0, v.p0) && ShowsProc(s, 1, v.p1)
    && s.parents[0] == None && s.parents[1] == v.rest.parent1 && s.next == v.rest.next
    && s.locked[0] == v.rest.locked && (0 in s.holds[0] <==> v.rest.mine)
  }

  lemma {:induction false} LeadsOn(s: State, es: seq<Step>, t: State, e: Step)
    requires Leads(s, es, t) && WellFormed(t) && Next(t, e).Some?
    ensures Leads(s, es + [e], Next(t, e).value)
    decreases |es|
  {
    if es == [] {
      assert Leads(Next(t, e).value, [], Next(t, e).value);
      assert ([] + [e])[1..] == [];
    } else {
      LeadsOn(Next(s, es[0]).value, es[1..], t, e);
      assert (es + [e])[1..] == es[1..] + [e];
    }
  }

  ghost predicate Moves(s: State, e: Step, t: State) {
    WellFormed(s) && Next(s, e) == Some(t)
  }

  /** A set of states that no step leaves. */
  ghost predicate Closed(r: iset<State>) {
    forall s, e, t {:trigger Moves(s, e, t)} :: s in r && Moves(s, e, t) ==> t in r
  }

  ghost function Reached(): iset<State> {
    iset s: State | Reachable(s)
  }

  lemma ReachableClosed()
    ensures Closed(Reached())
  {
    forall s, e, t | Reachable(s) && Moves(s, e, t) ensures Reachable(t) {
      var cpus: nat, procs: nat, locks: nat, es: seq<Step> :| procs > 0 && Leads(Boot(cpus, procs, locks), es, s);
      LeadsOn(Boot(cpus, procs, locks), es, s, e);
    }
  }

  // ---- A fork ----

  const BOOTED := Snap(Scan(0), Scan(0), Locks(None, None, None, None), Proc(Runnable, NoChan, Parked(Work)),
                       Proc(Unused, NoChan, Parked(Work)), Rest(None, 1, false, false))
  const SWITCHED := BOOTED.(mode0 := Exec(0), held := Locks(None, None, Some(0), None),
                            p0 := Proc(Running, NoChan, Resumed(Work)))
  const FORKING := SWITCHED.(held := Locks(None, None, None, None), p0 := Proc(Running, NoChan, ForkFind(0, 1)),
                             rest := Rest(None, 2, false, false))
  const FOUND := FORKING.(p0 := Proc(Running, NoChan, ForkCopy(1)), p1 := Proc(Allocated, NoChan, Parked(Work)))
  const RECORDED := FOUND.(p0 := Proc(Running, NoChan, ForkRun(1)), rest := Rest(Some(0), 2, false, false))

  lemma InitStarts(s: State) returns (m1: State, m2: State, t: State)
    requires Matches(s, BOOTED)
    ensures Matches(t, SWITCHED) && Moves(s, Step(0, Go), m1) && Moves(m1, Step(0, Go), m2) && Moves(m2, Step(0, Go), t)
  {
    m1 := Next(s, Step(0, Go)).value;
    assert Matches(m1, BOOTED.(mode0 := Picked(0), p0 := Proc(Allocated, NoChan, Parked(Work))));
    m2 := Next(m1, Step(0, Go)).value;
    assert Matches(m2, BOOTED.(mode0 := Ready(0), held := Locks(None, None, Some(0), None),
                               p0 := Proc(Running, NoChan, Parked(Work))));
    t := Next(m2, Step(0, Go)).value;
  }

  lemma ForkStarts(s: State) returns (m: State, t: State)
    requires Matches(s, SWITCHED)
    ensures Matches(t, FORKING) && Moves(s, Step(0, Go), m) && Moves(m, Step(0, Fork), t)
  {
    m := Next(s, Step(0, Go)).value;
    assert Matches(m, SWITCHED.(held := Locks(None, None, None, None), p0 := Proc(Running, NoChan, Work)));
    t := Next(m, Step(0, Fork)).value;
  }

  lemma ForkFinds(s: State) returns (m: State, t: State)
    requires Matches(s, FORKING)
    ensures Matches(t, FOUND) && Moves(s, Step(0, Go), m) && Moves(m, Step(0, Go), t)
  {
    m := Next(s, Step(0, Go)).value;
    assert Matches(m, FORKING.(p0 := Proc(Running, NoChan, ForkFind(1, 1))));
    t := Next(m, Step(0, Go)).value;
  }

  lemma ForkRecords(s: State) returns (m: State, t: State)
    requires Matches(s, FOUND)
    ensures Matches(t, RECORDED) && Moves(s, Step(0, Go), m) && Moves(m, Step(0, Go), t)
  {
    m := Next(s, Step(0, Go)).value;
    assert Matches(m, FOUND.(p0 := Proc(Running, NoChan, ForkParent(1))));
    t := Next(m, Step(0, Go)).value;
  }

  /** `init` runs on the first CPU and forks. */
  lemma Forks(r: iset<State>, s: State) returns (t: State)
    requires Closed(r) && s in r && Matches(s, BOOTED)
    ensures t in r && Matches(t, RECORDED)
  {
    var m: State, m1: State, m2: State;
    m1, m2, t := InitStarts(s);
    m, t := ForkStarts(t);
    m, t := ForkFinds(t);
    m, t := ForkRecords(t);
  }

  lemma Forked() returns (s: State)
    ensures Reachable(s) && Matches(s, RECORDED)
  {
    s := Boot(2, 2, 1);
    assert Leads(s, [], s) && Matches(s, BOOTED);
    ReachableClosed();
    s := Forks(Reached(), s);
  }

  // ---- A child is freed ----

  /** Where a process is that was woken up in `wait`. */
  const RETAKE := Reacquire(Parents, WaitScan(0, false))
  const LOOKING := RECORDED.(held := Locks(Some(0), None, None, None),
                             p0 := Proc(Running, NoChan, WaitScan(0, false)),
                             p1 := Proc(Runnable, NoChan, Parked(Work)))
  const SCANNED := LOOKING.(p0 := Proc(Running, NoChan, WaitScan(2, true)))
  const DOZING := SCANNED.(held := Locks(None, None, Some(0), None),
                           p0 := Proc(Sleeping, ChildOf(0), Switching(RETAKE)))
  const SAVED := DOZING.(mode0 := Back(0), p0 := Proc(Sleeping, ChildOf(0), Parked(RETAKE)))
  const WAITING := SAVED.(mode0 := Scan(1), held := Locks(None, None, None, None))
  const CHOSEN := WAITING.(mode0 := Ready(1), held := Locks(None, None, None, Some(0)),
                           p1 := Proc(Running, NoChan, Parked(Work)))
  const LEAVING := CHOSEN.(mode0 := Exec(1), held := Locks(Some(0), None, None, None),
                           p1 := Proc(Running, NoChan, ExitScan(1)))
  const CLEARED := LEAVING.(p1 := Proc(Running, NoChan, Waking(0, ChildOf(0), ExitZombie)))
  const WAKING := CLEARED.(p0 := Proc(Runnable, ChildOf(0), Parked(RETAKE)),
                           p1 := Proc(Running, NoChan, Waking(2, ChildOf(0), ExitZombie)))
  const ZOMBIE := WAKING.(held := Locks(Some(0), None, None, Some(0)), p1 := Proc(Zombie, NoChan, ExitUnlock))
  const PARKED := ZOMBIE.(mode0 := Saved(1), held := Locks(None, None, None, Some(0)),
                          p1 := Proc(Zombie, NoChan, Parked(Dead)))
  const FREE := PARKED.(mode0 := Scan(0), held := Locks(None, None, None, None))
  const RESUMING := FREE.(mode0 := Ready(0), held := Locks(None, None, Some(0), None),
                          p0 := Proc(Running, ChildOf(0), Parked(RETAKE)))
  const RESUMED := RESUMING.(mode0 := Exec(0), p0 := Proc(Running, NoChan, RETAKE))
  const AWAKE := RESUMED.(held := Locks(Some(0), None, None, None), p0 := Proc(Running, NoChan, WaitScan(0, false)))
  const REAPED := AWAKE.(p0 := Proc(Running, NoChan, WaitReap(1)), p1 := Proc(Unused, NoChan, Parked(Dead)))

  lemma WaitStarts(s: State) returns (m: State, t: State)
    requires Matches(s, RECORDED)
    ensures Matches(t, LOOKING) && Moves(s, Step(0, Go), m) && Moves(m, Step(0, Wait), t)
  {
    m := Next(s, Step(0, Go)).value;
    assert Matches(m, RECORDED.(p0 := Proc(Running, NoChan, Work), p1 := Proc(Runnable, NoChan, Parked(Work))));
    t := Next(m, Step(0, Wait)).value;
  }

  lemma WaitScans(s: State) returns (m: State, t: State)
    requires Matches(s, LOOKING)
    ensures Matches(t, SCANNED) && Moves(s, Step(0, Go), m) && Moves(m, Step(0, Go), t)
  {
    m := Next(s, Step(0, Go)).value;
    assert Matches(m, LOOKING.(p0 := Proc(Running, NoChan, WaitScan(1, false))));
    t := Next(m, Step(0, Go)).value;
  }

  lemma WaitSleeps(s: State) returns (m: State, t: State)
    requires Matches(s, SCANNED)
    ensures Matches(t, DOZING) && Moves(s, Step(0, Go), m) && Moves(m, Step(0, Go), t)
  {
    m := Next(s, Step(0, Go)).value;
    assert Matches(m, SCANNED.(held := Locks(Some(0), None, Some(0), None),
                               p0 := Proc(Sleeping, ChildOf(0), SleepUnlock(Parents, WaitScan(0, false)))));
    t := Next(m, Step(0, Go)).value;
  }

  lemma InitStops(s: State) returns (m: State, t: State)
    requires Matches(s, DOZING)
    ensures Matches(t, SAVED) && Moves(s, Step(0, Go), m) && Moves(m, Step(0, Go), t)
  {
    m := Next(s, Step(0, Go)).value;
    assert Matches(m, DOZING.(mode0 := Saved(0), p0 := Proc(Sleeping, ChildOf(0), Parked(RETAKE))));
    t := Next(m, Step(0, Go)).value;
  }

  lemma SchedulerRuns(s: State) returns (m: State, t: State)
    requires Matches(s, SAVED)
    ensures Matches(t, WAITING) && Moves(s, Step(0, Go), m) && Moves(m, Step(0, Go), t)
  {
    m := Next(s, Step(0, Go)).value;
    assert Matches(m, SAVED.(mode0 := Scan(0), held := Locks(None, None, None, None)));
    t := Next(m, Step(0, Go)).value;
  }

  lemma ChildPicked(s: State) returns (m: State, t: State)
    requires Matches(s, WAITING)
    ensures Matches(t, CHOSEN) && Moves(s, Step(0, Go), m) && Moves(m, Step(0, Go), t)
  {
    m := Next(s, Step(0, Go)).value;
    assert Matches(m, WAITING.(mode0 := Picked(1), p1 := Proc(Allocated, NoChan, Parked(Work))));
    t := Next(m, Step(0, Go)).value;
  }

  lemma ChildRuns(s: State) returns (m1: State, m2: State, t: State)
    requires Matches(s, CHOSEN)
    ensures Matches(t, LEAVING)
    ensures Moves(s, Step(0, Go), m1) && Moves(m1, Step(0, Go), m2) && Moves(m2, Step(0, Exit), t)
  {
    m1 := Next(s, Step(0, Go)).value;
    assert Matches(m1, CHOSEN.(mode0 := Exec(1), p1 := Proc(Running, NoChan, Resumed(Work))));
    m2 := Next(m1, Step(0, Go)).value;
    assert Matches(m2, CHOSEN.(mode0 := Exec(1), held := Locks(None, None, None, None),
                               p1 := Proc(Running, NoChan, Work)));
    t := Next(m2, Step(0, Exit)).value;
  }

  lemma ExitScans(s: State) returns (m: State, t: State)
    requires Matches(s, LEAVING)
    ensures Matches(t, CLEARED) && Moves(s, Step(0, Go), m) && Moves(m, Step(0, Go), t)
  {
    m := Next(s, Step(0, Go)).value;
    assert Matches(m, LEAVING.(p1 := Proc(Running, NoChan, ExitScan(2))));
    t := Next(m, Step(0, Go)).value;
  }

  lemma ParentWoken(s: State) returns (m: State, t: State)
    requires Matches(s, CLEARED)
    ensures Matches(t, WAKING) && Moves(s, Step(0, Go), m) && Moves(m, Step(0, Go), t)
  {
    m := Next(s, Step(0, Go)).value;
    assert Matches(m, CLEARED.(p0 := Proc(Runnable, ChildOf(0), Parked(RETAKE)),
                               p1 := Proc(Running, NoChan, Waking(1, ChildOf(0), ExitZombie))));
    t := Next(m, Step(0, Go)).value;
  }

  lemma ZombieMade(s: State) returns (m: State, t: State)
    requires Matches(s, WAKING)
    ensures Matches(t, ZOMBIE) && Moves(s, Step(0, Go), m) && Moves(m, Step(0, Go), t)
  {
    m := Next(s, Step(0, Go)).value;
    assert Matches(m, WAKING.(p1 := Proc(Running, NoChan, ExitZombie)));
    t := Next(m, Step(0, Go)).value;
  }

  lemma ChildStops(s: State) returns (m: State, t: State)
    requires Matches(s, ZOMBIE)
    ensures Matches(t, PARKED) && Moves(s, Step(0, Go), m) && Moves(m, Step(0, Go), t)
  {
    m := Next(s, Step(0, Go)).value;
    assert Matches(m, ZOMBIE.(held := Locks(None, None, None, Some(0)), p1 := Proc(Zombie, NoChan, Switching(Dead))));
    t := Next(m, Step(0, Go)).value;
  }

  lemma SchedulerReturns(s: State) returns (m: State, t: State)
    requires Matches(s, PARKED)
    ensures Matches(t, FREE) && Moves(s, Step(0, Go), m) && Moves(m, Step(0, Go), t)
  {
    m := Next(s, Step(0, Go)).value;
    assert Matches(m, PARKED.(mode0 := Back(1)));
    t := Next(m, Step(0, Go)).value;
  }

  lemma InitPicked(s: State) returns (m: State, t: State)
    requires Matches(s, FREE)
    ensures Matches(t, RESUMING) && Moves(s, Step(0, Go), m) && Moves(m, Step(0, Go), t)
  {
    m := Next(s, Step(0, Go)).value;
    assert Matches(m, FREE.(mode0 := Picked(0), p0 := Proc(Allocated, ChildOf(0), Parked(RETAKE))));
    t := Next(m, Step(0, Go)).value;
  }

  lemma InitResumes(s: State) returns (m: State, t: State)
    requires Matches(s, RESUMING)
    ensures Matches(t, RESUMED) && Moves(s, Step(0, Go), m) && Moves(m, Step(0, Go), t)
  {
    m := Next(s, Step(0, Go)).value;
    assert Matches(m, RESUMING.(mode0 := Exec(0), p0 := Proc(Running, ChildOf(0), Resumed(RETAKE))));
    t := Next(m, Step(0, Go)).value;
  }

  lemma WaitWakes(s: State) returns (m: State, t: State)
    requires Matches(s, RESUMED)
    ensures Matches(t, AWAKE) && Moves(s, Step(0, Go), m) && Moves(m, Step(0, Go), t)
  {
    m := Next(s, Step(0, Go)).value;
    assert Matches(m, RESUMED.(held := Locks(Some(0), None, Some(0), None),
                               p0 := Proc(Running, NoChan, Awake(Parents, WaitScan(0, false)))));
    t := Next(m, Step(0, Go)).value;
  }

  lemma WaitReaps(s: State) returns (m: State, t: State)
    requires Matches(s, AWAKE)
    ensures Matches(t, REAPED) && Moves(s, Step(0, Go), m) && Moves(m, Step(0, Go), t)
  {
    m := Next(s, Step(0, Go)).value;
    assert Matches(m, AWAKE.(p0 := Proc(Running, NoChan, WaitScan(1, false))));
    t := Next(m, Step(0, Go)).value;
  }

  /** `init` waits, the child exits, and `init` frees its entry. */
  lemma ChildFreed(r: iset<State>, s: State) returns (t: State)
    requires Closed(r) && s in r && Matches(s, RECORDED)
    ensures t in r && Matches(t, REAPED)
  {
    var m: State, m1: State, m2: State;
    m, t := WaitStarts(s);
    m, t := WaitScans(t);
    m, t := WaitSleeps(t);
    m, t := InitStops(t);
    m, t := SchedulerRuns(t);
    m, t := ChildPicked(t);
    m1, m2, t := ChildRuns(t);
    m, t := ExitScans(t);
    m, t := ParentWoken(t);
    m, t := ZombieMade(t);
    m, t := ChildStops(t);
    m, t := SchedulerReturns(t);
    m, t := InitPicked(t);
    m, t := InitResumes(t);
    m, t := WaitWakes(t);
    m, t := WaitReaps(t);
  }

  /** A reachable state in which a recorded child is not younger than its parent. */
  lemma OrderFails() returns (s: State)
    ensures Reachable(s) && |s.parents| == |s.pid| == 2 && s.parents[1] == Some(0) && Reaping(s, 1)
            && s.pid[0] >= s.pid[1]
  {
    s := Forked();
    ReachableClosed();
    s := ChildFreed(Reached(), s);
    ParentsAreLive(s, 1);
  }

  // ---- Two CPUs wait for each other ----

  /** Where a process is that was woken up in `SleepLock::lock`. */
  const RELOCK := Reacquire(Inner(0), LockCheck(0))
  const TAKING := RECORDED.(held := Locks(None, Some(0), None, None), p0 := Proc(Running, NoChan, LockCheck(0)),
                            p1 := Proc(Runnable, NoChan, Parked(Work)))
  const OWNED := TAKING.(mode1 := Scan(1), held := Locks(None, None, None, None), p0 := Proc(Running, NoChan, Work),
                         rest := Rest(Some(0), 2, true, true))
  const LOADED := OWNED.(mode1 := Ready(1), held := Locks(None, None, None, Some(1)),
                         p1 := Proc(Running, NoChan, Parked(Work)))
  const BUSY := LOADED.(mode1 := Exec(1), held := Locks(None, Some(1), None, None),
                        p1 := Proc(Running, NoChan, LockCheck(0)))
  const ASLEEP := BUSY.(held := Locks(None, None, None, Some(1)), p1 := Proc(Sleeping, LockOf(0), Switching(RELOCK)))
  const KEPT := ASLEEP.(mode1 := Back(1), p1 := Proc(Sleeping, LockOf(0), Parked(RELOCK)))
  const UNLOCKED := KEPT.(mode1 := Scan(0), held := Locks(None, Some(0), None, None),
                          p0 := Proc(Running, NoChan, Waking(0, LockOf(0), LockFreed(0))),
                          rest := Rest(Some(0), 2, false, false))
  const WOKEN := UNLOCKED.(p0 := Proc(Running, NoChan, Waking(2, LockOf(0), LockFreed(0))),
                           p1 := Proc(Runnable, LockOf(0), Parked(RELOCK)))
  const RELOCKING := WOKEN.(p0 := Proc(Running, NoChan, LockCheck(0)))
  const RELOCKED := RELOCKING.(p0 := Proc(Running, NoChan, Waking(0, LockOf(0), LockFreed(0))))
  const REACHING := RELOCKED.(mode1 := Scan(1), p0 := Proc(Running, NoChan, Waking(1, LockOf(0), LockFreed(0))))
  const FACING := REACHING.(mode1 := Ready(1), held := Locks(None, Some(0), None, Some(1)),
                            p1 := Proc(Running, LockOf(0), Parked(RELOCK)))
  const STUCK := FACING.(mode1 := Exec(1), p1 := Proc(Running, NoChan, RELOCK))

  lemma LockStarts(s: State) returns (m: State, t: State)
    requires Matches(s, RECORDED)
    ensures Matches(t, TAKING) && Moves(s, Step(0, Go), m) && Moves(m, Step(0, Lock(0)), t)
  {
    m := Next(s, Step(0, Go)).value;
    assert Matches(m, RECORDED.(p0 := Proc(Running, NoChan, Work), p1 := Proc(Runnable, NoChan, Parked(Work))));
    t := Next(m, Step(0, Lock(0))).value;
  }

  lemma InitLocks(s: State) returns (m: State, t: State)
    requires Matches(s, TAKING)
    ensures Matches(t, OWNED) && Moves(s, Step(0, Go), m) && Moves(m, Step(1, Go), t)
  {
    m := Next(s, Step(0, Go)).value;
    assert Matches(m, TAKING.(held := Locks(None, None, None, None), p0 := Proc(Running, NoChan, Work),
                              rest := Rest(Some(0), 2, true, true)));
    t := Next(m, Step(1, Go)).value;
  }

  lemma ChildLoads(s: State) returns (m: State, t: State)
    requires Matches(s, OWNED)
    ensures Matches(t, LOADED) && Moves(s, Step(1, Go), m) && Moves(m, Step(1, Go), t)
  {
    m := Next(s, Step(1, Go)).value;
    assert Matches(m, OWNED.(mode1 := Picked(1), p1 := Proc(Allocated, NoChan, Parked(Work))));
    t := Next(m, Step(1, Go)).value;
  }

  lemma ChildLocks(s: State) returns (m1: State, m2: State, t: State)
    requires Matches(s, LOADED)
    ensures Matches(t, BUSY)
    ensures Moves(s, Step(1, Go), m1) && Moves(m1, Step(1, Go), m2) && Moves(m2, Step(1, Lock(0)), t)
  {
    m1 := Next(s, Step(1, Go)).value;
    assert Matches(m1, LOADED.(mode1 := Exec(1), p1 := Proc(Running, NoChan, Resumed(Work))));
    m2 := Next(m1, Step(1, Go)).value;
    assert Matches(m2, LOADED.(mode1 := Exec(1), held := Locks(None, None, None, None),
                               p1 := Proc(Running, NoChan, Work)));
    t := Next(m2, Step(1, Lock(0))).value;
  }

  lemma ChildSleeps(s: State) returns (m: State, t: State)
    requires Matches(s, BUSY)
    ensures Matches(t, ASLEEP) && Moves(s, Step(1, Go), m) && Moves(m, Step(1, Go), t)
  {
    m := Next(s, Step(1, Go)).value;
    assert Matches(m, BUSY.(held := Locks(None, Some(1), None, Some(1)),
                            p1 := Proc(Sleeping, LockOf(0), SleepUnlock(Inner(0), LockCheck(0)))));
    t := Next(m, Step(1, Go)).value;
  }

  lemma ChildSaved(s: State) returns (m: State, t: State)
    requires Matches(s, ASLEEP)
    ensures Matches(t, KEPT) && Moves(s, Step(1, Go), m) && Moves(m, Step(1, Go), t)
  {
    m := Next(s, Step(1, Go)).value;
    assert Matches(m, ASLEEP.(mode1 := Saved(1), p1 := Proc(Sleeping, LockOf(0), Parked(RELOCK))));
    t := Next(m, Step(1, Go)).value;
  }

  lemma InitUnlocks(s: State) returns (m: State, t: State)
    requires Matches(s, KEPT)
    ensures Matches(t, UNLOCKED) && Moves(s, Step(1, Go), m) && Moves(m, Step(0, Unlock(0)), t)
  {
    m := Next(s, Step(1, Go)).value;
    assert Matches(m, KEPT.(mode1 := Scan(0), held := Locks(None, None, None, None)));
    t := Next(m, Step(0, Unlock(0))).value;
  }

  lemma ChildWoken(s: State) returns (m: State, t: State)
    requires Matches(s, UNLOCKED)
    ensures Matches(t, WOKEN) && Moves(s, Step(0, Go), m) && Moves(m, Step(0, Go), t)
  {
    m := Next(s, Step(0, Go)).value;
    assert Matches(m, UNLOCKED.(p0 := Proc(Running, NoChan, Waking(1, LockOf(0), LockFreed(0)))));
    t := Next(m, Step(0, Go)).value;
  }

  lemma UnlockEnds(s: State) returns (m1: State, m2: State, t: State)
    requires Matches(s, WOKEN)
    ensures Matches(t, RELOCKING)
    ensures Moves(s, Step(0, Go), m1) && Moves(m1, Step(0, Go), m2) && Moves(m2, Step(0, Lock(0)), t)
  {
    m1 := Next(s, Step(0, Go)).value;
    assert Matches(m1, WOKEN.(p0 := Proc(Running, NoChan, LockFreed(0))));
    m2 := Next(m1, Step(0, Go)).value;
    assert Matches(m2, WOKEN.(held := Locks(None, None, None, None), p0 := Proc(Running, NoChan, Work)));
    t := Next(m2, Step(0, Lock(0))).value;
  }

  lemma InitLocksAgain(s: State) returns (m: State, t: State)
    requires Matches(s, RELOCKING)
    ensures Matches(t, RELOCKED) && Moves(s, Step(0, Go), m) && Moves(m, Step(0, Unlock(0)), t)
  {
    m := Next(s, Step(0, Go)).value;
    assert Matches(m, RELOCKING.(held := Locks(None, None, None, None), p0 := Proc(Running, NoChan, Work),
                                 rest := Rest(Some(0), 2, true, true)));
    t := Next(m, Step(0, Unlock(0))).value;
  }

  lemma ReachesChild(s: State) returns (m: State, t: State)
    requires Matches(s, RELOCKED)
    ensures Matches(t, REACHING) && Moves(s, Step(0, Go), m) && Moves(m, Step(1, Go), t)
  {
    m := Next(s, Step(0, Go)).value;
    assert Matches(m, RELOCKED.(p0 := Proc(Running, NoChan, Waking(1, LockOf(0), LockFreed(0)))));
    t := Next(m, Step(1, Go)).value;
  }

  lemma ChildReturns(s: State) returns (m: State, t: State)
    requires Matches(s, REACHING)
    ensures Matches(t, FACING) && Moves(s, Step(1, Go), m) && Moves(m, Step(1, Go), t)
  {
    m := Next(s, Step(1, Go)).value;
    assert Matches(m, REACHING.(mode1 := Picked(1), p1 := Proc(Allocated, LockOf(0), Parked(RELOCK))));
    t := Next(m, Step(1, Go)).value;
  }

  lemma ChildRetakes(s: State) returns (m: State, t: State)
    requires Matches(s, FACING)
    ensures Matches(t, STUCK) && Moves(s, Step(1, Go), m) && Moves(m, Step(1, Go), t)
  {
    m := Next(s, Step(1, Go)).value;
    assert Matches(m, FACING.(mode1 := Exec(1), p1 := Proc(Running, LockOf(0), Resumed(RELOCK))));
    t := Next(m, Step(1, Go)).value;
  }

  /** The child sleeps on the sleep lock of `init`, and is woken while `init` takes it and gives it back once more. */
  lemma BothStop(r: iset<State>, s: State) returns (t: State)
    requires Closed(r) && s in r && Matches(s, RECORDED)
    ensures t in r && Matches(t, STUCK)
  {
    var m: State, m1: State, m2: State;
    m, t := LockStarts(s);
    m, t := InitLocks(t);
    m, t := ChildLoads(t);
    m1, m2, t := ChildLocks(t);
    m, t := ChildSleeps(t);
    m, t := ChildSaved(t);
    m, t := InitUnlocks(t);
    m, t := ChildWoken(t);
    m1, m2, t := UnlockEnds(t);
    m, t := InitLocksAgain(t);
    m, t := ReachesChild(t);
    m, t := ChildReturns(t);
    m, t := ChildRetakes(t);
  }

  lemma NoStep(s: State, e: Step)
    requires Matches(s, STUCK)
    ensures Next(s, e) == None
  {
  }

  /**
    A reachable state without a panic in which no CPU can do a step: one is in the second `wakeup` of the sleep lock and
    waits for the lock of the child; the other runs the child, which holds that lock, and waits at the end of `sleep`
    for the spin lock of the sleep lock.
  */
  lemma Deadlock() returns (s: State)
    ensures Reachable(s) && WellFormed(s) && !s.bad && |s.mode| == 2
    ensures forall e: Step :: Next(s, e) == None
  {
    s := Forked();
    ReachableClosed();
    s := BothStop(Reached(), s);
    forall e: Step ensures Next(s, e) == None { NoStep(s, e); }
  }
}
