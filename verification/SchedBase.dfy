/** Every step keeps track of where each process is and who holds which spin lock; no check in the code fails. */
module SchedBase {
  import opened Prelude
  import opened Sched
  import opened SchedInv

  // ---- What one CPU and its process do leaves the others alone ----

  /** `b` is `a` except possibly at `p`. */
  ghost predicate SameBut<T(!new)>(a: seq<T>, b: seq<T>, p: nat) {
    |a| == |b| && forall q: nat {:trigger b[q]} :: q < |a| && q != p ==> b[q] == a[q]
  }

  /** CPU `c` has process `p`, or is about to have it. */
  predicate OnCpu(mode: seq<Mode>, on: seq<Option<nat>>, c: nat, p: nat) {
    c < |mode| && p < |on| && (on[p] == Some(c) || on[p] == None) && (mode[c].Scan? || mode[c].p == p)
  }

  /** In `t`, process `p` is where its CPU says. */
  predicate Settled(t: State, c: nat, p: nat)
    requires Sizes(t) && c < |t.mode| && p < |t.on|
  {
    && PlaceOk(t.on[p], t.mode, p, t.st[p], t.chan[p], t.life[p], t.pc[p], |t.on|, |t.locked|)
    && if t.mode[c].Scan? then t.on[p] == None && t.mode[c].i <= |t.on| else t.on[p] == Some(c) && t.mode[c].p == p
  }

  lemma PlacedAfter(s: State, t: State, c: nat, p: nat)
    requires Sizes(s) && Sizes(t) && |t.locked| == |s.locked|
             && Places(s.mode, s.on, s.st, s.chan, s.life, s.pc, |s.locked|)
    requires OnCpu(s.mode, s.on, c, p) && SameBut(s.mode, t.mode, c) && SameBut(s.on, t.on, p) && SameBut(s.st, t.st, p)
    requires SameBut(s.chan, t.chan, p) && SameBut(s.life, t.life, p) && SameBut(s.pc, t.pc, p)
    requires Settled(t, c, p)
    ensures Places(t.mode, t.on, t.st, t.chan, t.life, t.pc, |t.locked|)
  {
    forall q: nat | q < |t.on|
      ensures PlaceOk(t.on[q], t.mode, q, t.st[q], t.chan[q], t.life[q], t.pc[q], |t.on|, |t.locked|) {
      assert q != p ==> s.on[q] == t.on[q];
    }
    forall d: nat | d < |t.mode| && !t.mode[d].Scan? ensures t.mode[d].p < |t.on| && t.on[t.mode[d].p] == Some(d) {
      if d != c { assert s.mode[d] == t.mode[d]; assert s.on[s.mode[d].p] == Some(d); }
    }
    forall d: nat | d < |t.mode| && t.mode[d].Scan? ensures t.mode[d].i <= |t.on| {
      if d != c { assert s.mode[d] == t.mode[d]; }
    }
  }

  /** A critical section on the entry of another process, with its lock free. */
  lemma PlacedOther(s: State, t: State, i: nat)
    requires Sizes(s) && Sizes(t) && |t.locked| == |s.locked|
             && Places(s.mode, s.on, s.st, s.chan, s.life, s.pc, |s.locked|)
    requires i < |s.on| && t.mode == s.mode && t.on == s.on && SameBut(s.st, t.st, i)
    requires SameBut(s.chan, t.chan, i) && SameBut(s.life, t.life, i) && SameBut(s.pc, t.pc, i)
    requires PlaceOk(t.on[i], t.mode, i, t.st[i], t.chan[i], t.life[i], t.pc[i], |t.on|, |t.locked|)
    ensures Places(t.mode, t.on, t.st, t.chan, t.life, t.pc, |t.locked|)
  {
  }

  lemma HoldingOthers(s: State, t: State, c: nat, p: nat, d: nat, lk: Lock)
    requires Sizes(s) && Sizes(t) && Places(s.mode, s.on, s.st, s.chan, s.life, s.pc, |s.locked|)
    requires OnCpu(s.mode, s.on, c, p) && SameBut(s.mode, t.mode, c) && SameBut(s.pc, t.pc, p) && d != c
    ensures Holding(t.mode, t.pc, d, lk) <==> Holding(s.mode, s.pc, d, lk)
    ensures d < |s.mode| ==> Depth(t.mode[d], t.pc) == Depth(s.mode[d], s.pc)
  {
    if d < |s.mode| {
      assert t.mode[d] == s.mode[d];
      if s.mode[d].Exec? { assert s.on[s.mode[d].p] == Some(d); }
    }
  }

  lemma LocksSame(s: State, t: State, c: nat, p: nat)
    requires Sizes(s) && Sizes(t) && Places(s.mode, s.on, s.st, s.chan, s.life, s.pc, |s.locked|)
    requires LocksOk(s.mode, s.pc, s.held, s.noff)
    requires OnCpu(s.mode, s.on, c, p) && SameBut(s.mode, t.mode, c) && SameBut(s.pc, t.pc, p)
    requires t.held == s.held && t.noff == s.noff
    requires forall lk :: Holding(t.mode, t.pc, c, lk) <==> Holding(s.mode, s.pc, c, lk)
    requires Depth(t.mode[c], t.pc) == Depth(s.mode[c], s.pc)
    ensures LocksOk(t.mode, t.pc, t.held, t.noff)
  {
    forall d: nat, lk
      ensures d != c ==>
                (Holding(t.mode, t.pc, d, lk) <==> Holding(s.mode, s.pc, d, lk))
                    && (d < |s.mode| ==> Depth(t.mode[d], t.pc) == Depth(s.mode[d], s.pc)) {
      if d != c { HoldingOthers(s, t, c, p, d, lk); }
    }
  }

  lemma LocksTaken(s: State, t: State, c: nat, p: nat, lk: Lock)
    requires Sizes(s) && Sizes(t) && Places(s.mode, s.on, s.st, s.chan, s.life, s.pc, |s.locked|)
    requires LocksOk(s.mode, s.pc, s.held, s.noff)
    requires OnCpu(s.mode, s.on, c, p) && SameBut(s.mode, t.mode, c) && SameBut(s.pc, t.pc, p)
    requires lk !in s.held && t.held == s.held[lk := c] && t.noff == s.noff[c := s.noff[c] + 1]
    requires forall x :: Holding(t.mode, t.pc, c, x) <==> Holding(s.mode, s.pc, c, x) || x == lk
    requires Depth(t.mode[c], t.pc) == Depth(s.mode[c], s.pc) + 1
    ensures LocksOk(t.mode, t.pc, t.held, t.noff)
  {
    forall d: nat, x
      ensures d != c ==>
                (Holding(t.mode, t.pc, d, x) <==> Holding(s.mode, s.pc, d, x))
                    && (d < |s.mode| ==> Depth(t.mode[d], t.pc) == Depth(s.mode[d], s.pc)) {
      if d != c { HoldingOthers(s, t, c, p, d, x); }
    }
  }

  lemma LocksGiven(s: State, t: State, c: nat, p: nat, lk: Lock)
    requires Sizes(s) && Sizes(t) && Places(s.mode, s.on, s.st, s.chan, s.life, s.pc, |s.locked|)
    requires LocksOk(s.mode, s.pc, s.held, s.noff)
    requires OnCpu(s.mode, s.on, c, p) && SameBut(s.mode, t.mode, c) && SameBut(s.pc, t.pc, p)
    requires Holding(s.mode, s.pc, c, lk) && t.held == s.held - {lk} && s.noff[c] > 0
             && t.noff == s.noff[c := s.noff[c] - 1]
    requires forall x :: Holding(t.mode, t.pc, c, x) <==> Holding(s.mode, s.pc, c, x) && x != lk
    requires Depth(t.mode[c], t.pc) + 1 == Depth(s.mode[c], s.pc)
    ensures LocksOk(t.mode, t.pc, t.held, t.noff)
  {
    forall d: nat, x
      ensures d != c ==>
                (Holding(t.mode, t.pc, d, x) <==> Holding(s.mode, s.pc, d, x))
                    && (d < |s.mode| ==> Depth(t.mode[d], t.pc) == Depth(s.mode[d], s.pc)) {
      if d != c { HoldingOthers(s, t, c, p, d, x); }
    }
  }

  /** The spin locks of the CPUs other than `c` are the same. */
  ghost predicate HeldElse(a: map<Lock, nat>, b: map<Lock, nat>, c: nat) {
    && (forall lk {:trigger lk in a} :: lk in a && a[lk] != c ==> lk in b && b[lk] == a[lk])
    && (forall lk {:trigger lk in b} :: lk in b && b[lk] != c ==> lk in a && a[lk] == b[lk])
  }

  /** What the other CPUs do, hold and run is the same in `s` and `t`. */
  ghost predicate Elsewhere(s: State, t: State, c: nat) {
    && Sizes(s) && Sizes(t) && |t.mode| == |s.mode| && |t.st| == |s.st| && |t.locked| == |s.locked|
    && HeldElse(s.held, t.held, c)
    && (forall d: nat {:trigger t.mode[d]} {:trigger s.mode[d]} :: d < |s.mode| && d != c ==> t.mode[d] == s.mode[d])
    && (forall d: nat {:trigger s.mode[d]} :: d < |s.mode| && d != c && s.mode[d].Exec? && s.mode[d].p < |s.pc| ==>
          t.pc[s.mode[d].p] == s.pc[s.mode[d].p])
  }

  /** A step of process `p` on CPU `c`. */
  lemma ExecElsewhere(s: State, t: State, c: nat, p: nat)
    requires Base(s) && Runs(s, c, p) && Sizes(t) && t.mode == s.mode && |t.st| == |s.st| && |t.locked| == |s.locked|
             && HeldElse(s.held, t.held, c)
    requires forall q: nat {:trigger t.pc[q]} :: q < |s.pc| && q != p && s.on[q].Some? ==> t.pc[q] == s.pc[q]
    ensures Elsewhere(s, t, c)
  {
    assert s.on[s.mode[c].p] == Some(c);
    forall d: nat | d < |s.mode| && d != c && s.mode[d].Exec? && s.mode[d].p < |s.pc|
      ensures t.pc[s.mode[d].p] == s.pc[s.mode[d].p] {
      assert s.on[s.mode[d].p] == Some(d);
    }
  }

  lemma ModeElsewhere(s: State, t: State, c: nat, p: nat)
    requires Base(s) && OnCpu(s.mode, s.on, c, p) && Sizes(t) && |t.st| == |s.st| && |t.locked| == |s.locked|
    requires SameBut(s.mode, t.mode, c) && SameBut(s.pc, t.pc, p) && HeldElse(s.held, t.held, c)
    ensures Elsewhere(s, t, c)
  {
    forall d: nat | d < |s.mode| && d != c && s.mode[d].Exec? && s.mode[d].p < |s.pc|
      ensures t.pc[s.mode[d].p] == s.pc[s.mode[d].p] {
      assert s.on[s.mode[d].p] == Some(d);
    }
  }

  // ---- A step of the kernel thread of `p` on CPU `c` ----

  /** `p` and its own data apart, `t` is as `s`. */
  ghost predicate OwnStep(s: State, t: State, c: nat, p: nat) {
    && Sizes(s) && Sizes(t) && |t.locked| == |s.locked| && |t.st| == |s.st| && !t.bad && Runs(s, c, p)
    && t.mode == s.mode && t.on == s.on
    && SameBut(s.st, t.st, p) && SameBut(s.chan, t.chan, p) && SameBut(s.life, t.life, p) && SameBut(s.pc, t.pc, p)
    && ExecOk(p, t.st[p], t.chan[p], t.life[p], t.pc[p], |t.on|, |t.locked|)
  }

  lemma OwnSame(s: State, t: State, c: nat, p: nat)
    requires Base(s) && OwnStep(s, t, c, p) && t.held == s.held && t.noff == s.noff
    requires OwnHeld(t.pc[p]) == OwnHeld(s.pc[p]) && OtherHeld(t.pc[p]) == OtherHeld(s.pc[p])
    ensures Base(t) && Elsewhere(s, t, c)
  {
    assert s.on[s.mode[c].p] == Some(c);
    PlacedAfter(s, t, c, p);
    LocksSame(s, t, c, p);
    ExecElsewhere(s, t, c, p);
  }

  lemma OwnTakes(s: State, t: State, c: nat, p: nat, lk: Lock)
    requires Base(s) && OwnStep(s, t, c, p) && lk !in s.held && t.held == s.held[lk := c]
             && t.noff == s.noff[c := s.noff[c] + 1]
    requires if lk == ProcLock(p) then !OwnHeld(s.pc[p]) && OwnHeld(t.pc[p]) && OtherHeld(t.pc[p]) == OtherHeld(s.pc[p])
             else OwnHeld(t.pc[p]) == OwnHeld(s.pc[p]) && OtherHeld(s.pc[p]).None? && OtherHeld(t.pc[p]) == Some(lk)
    ensures Base(t) && Elsewhere(s, t, c)
  {
    assert s.on[s.mode[c].p] == Some(c);
    PlacedAfter(s, t, c, p);
    LocksTaken(s, t, c, p, lk);
    ExecElsewhere(s, t, c, p);
  }

  lemma OwnGives(s: State, t: State, c: nat, p: nat, lk: Lock)
    requires Base(s) && OwnStep(s, t, c, p) && t.held == s.held - {lk} && s.noff[c] > 0
             && t.noff == s.noff[c := s.noff[c] - 1]
    requires if lk == ProcLock(p) then
               OwnHeld(s.pc[p]) && !OwnHeld(t.pc[p]) && OtherHeld(t.pc[p]) == OtherHeld(s.pc[p])
                   && OtherHeld(s.pc[p]) != Some(lk)
             else OwnHeld(t.pc[p]) == OwnHeld(s.pc[p]) && OtherHeld(s.pc[p]) == Some(lk) && OtherHeld(t.pc[p]).None?
    ensures Base(t) && Elsewhere(s, t, c)
  {
    assert s.on[s.mode[c].p] == Some(c);
    PlacedAfter(s, t, c, p);
    assert Holding(s.mode, s.pc, c, lk);
    LocksGiven(s, t, c, p, lk);
    ExecElsewhere(s, t, c, p);
  }

  lemma OwnPlace(s: State, c: nat, p: nat)
    requires Base(s) && Runs(s, c, p)
    ensures s.on[p] == Some(c) && ExecOk(p, s.st[p], s.chan[p], s.life[p], s.pc[p], |s.on|, |s.locked|)
  {
    assert s.on[s.mode[c].p] == Some(c);
  }

  /** What `p` needs is not held by its own CPU, and what it gives back is. */
  lemma OwnLocks(s: State, c: nat, p: nat)
    requires Base(s) && Runs(s, c, p)
    ensures s.on[p] == Some(c) && ExecOk(p, s.st[p], s.chan[p], s.life[p], s.pc[p], |s.on|, |s.locked|)
    ensures forall lk :: lk in s.held && s.held[lk] == c <==> PcHolds(p, s.pc[p], lk)
    ensures s.noff[c] == (if OwnHeld(s.pc[p]) then 1 else 0) + (if OtherHeld(s.pc[p]).Some? then 1 else 0)
  {
    assert s.on[s.mode[c].p] == Some(c);
    forall lk ensures lk in s.held && s.held[lk] == c <==> PcHolds(p, s.pc[p], lk) {
      assert Holding(s.mode, s.pc, c, lk) <==> PcHolds(p, s.pc[p], lk);
    }
  }

  // ---- The steps of the scheduler ----

  /** With its lock free, a process is off, or picked, or runs without its own lock. */
  lemma LockFreeMeans(s: State, i: nat)
    requires Base(s) && i < |s.on| && ProcLock(i) !in s.held
    ensures s.on[i].Some? ==> s.mode[s.on[i].value].Picked? || (s.mode[s.on[i].value].Exec? && !OwnHeld(s.pc[i]))
    ensures s.st[i] in {Unused, Runnable, Sleeping, Zombie} ==> s.on[i] == None
  {
    if s.on[i].Some? {
      assert !Holding(s.mode, s.pc, s.on[i].value, ProcLock(i));
    }
  }

  lemma ScanKeeps(s: State, c: nat)
    requires Base(s) && c < |s.mode| && s.mode[c].Scan? && ScanStep(s, c).Some?
    ensures Base(ScanStep(s, c).value) && Elsewhere(s, ScanStep(s, c).value, c)
  {
    var t, i := ScanStep(s, c).value, s.mode[c].i;
    assert s.mode[c].i <= |s.on|;
    if i < |s.st| {
      assert !Holding(s.mode, s.pc, c, ProcLock(i));
      LockFreeMeans(s, i);
    }
    if i < |s.st| && s.st[i] == Runnable {
      PlacedAfter(s, t, c, i);
      LocksSame(s, t, c, i);
      ModeElsewhere(s, t, c, i);
    } else {
      ScanOn(s, t, c);
    }
  }

  lemma ScanOn(s: State, t: State, c: nat)
    requires Base(s) && c < |s.mode| && s.mode[c].Scan? && t == s.(mode := t.mode) && SameBut(s.mode, t.mode, c)
    requires t.mode[c].Scan? && t.mode[c].i <= |s.on|
    ensures Base(t) && Elsewhere(s, t, c)
  {
    forall p: nat | p < |t.on|
      ensures PlaceOk(t.on[p], t.mode, p, t.st[p], t.chan[p], t.life[p], t.pc[p], |t.on|, |t.locked|) {
      assert PlaceOk(s.on[p], s.mode, p, s.st[p], s.chan[p], s.life[p], s.pc[p], |s.on|, |s.locked|);
    }
    forall d: nat, lk
      ensures (Holding(t.mode, t.pc, d, lk) <==> Holding(s.mode, s.pc, d, lk))
              && (d < |s.mode| ==> Depth(t.mode[d], t.pc) == Depth(s.mode[d], s.pc)) {
      assert d != c && d < |s.mode| ==> t.mode[d] == s.mode[d];
    }
  }

  lemma DispatchKeeps(s: State, c: nat)
    requires Base(s) && c < |s.mode| && s.mode[c].Picked? && s.mode[c].p < |s.st| && DispatchStep(s, c).Some?
    ensures Base(DispatchStep(s, c).value) && Elsewhere(s, DispatchStep(s, c).value, c)
  {
    var t, p := DispatchStep(s, c).value, s.mode[c].p;
    assert s.on[p] == Some(c);
    assert ProcLock(p) in s.held ==> Holding(s.mode, s.pc, s.held[ProcLock(p)], ProcLock(p));
    PlacedAfter(s, t, c, p);
    LocksTaken(s, t, c, p, ProcLock(p));
    ModeElsewhere(s, t, c, p);
  }

  lemma LoadKeeps(s: State, c: nat)
    requires Base(s) && c < |s.mode| && s.mode[c].Ready? && s.mode[c].p < |s.pc|
    ensures Base(LoadStep(s, c)) && Elsewhere(s, LoadStep(s, c), c)
  {
    var t, p := LoadStep(s, c), s.mode[c].p;
    assert s.on[p] == Some(c);
    PlacedAfter(s, t, c, p);
    LocksSame(s, t, c, p);
    ModeElsewhere(s, t, c, p);
  }

  lemma ReturnKeeps(s: State, c: nat)
    requires Base(s) && c < |s.mode| && s.mode[c].Saved?
    ensures Base(ReturnStep(s, c)) && Elsewhere(s, ReturnStep(s, c), c)
  {
    var t, p := ReturnStep(s, c), s.mode[c].p;
    assert s.on[p] == Some(c);
    PlacedAfter(s, t, c, p);
    LocksSame(s, t, c, p);
    ModeElsewhere(s, t, c, p);
  }

  lemma ReleaseKeeps(s: State, c: nat)
    requires Base(s) && c < |s.mode| && s.mode[c].Back? && s.mode[c].p < |s.on|
    ensures Base(ReleaseStep(s, c)) && Elsewhere(s, ReleaseStep(s, c), c)
  {
    var t, p := ReleaseStep(s, c), s.mode[c].p;
    assert s.on[p] == Some(c);
    assert Holding(s.mode, s.pc, c, ProcLock(p)) && s.noff[c] == 1;
    PlacedAfter(s, t, c, p);
    LocksGiven(s, t, c, p, ProcLock(p));
    ModeElsewhere(s, t, c, p);
  }

  // ---- The steps of a kernel thread ----

  lemma YieldKeeps(s: State, c: nat, p: nat)
    requires Base(s) && Runs(s, c, p) && LockFree(s.pc[p]) && YieldStep(s, c, p).Some?
    ensures Base(YieldStep(s, c, p).value) && Elsewhere(s, YieldStep(s, c, p).value, c)
  {
    OwnLocks(s, c, p);
    OwnTakes(s, YieldStep(s, c, p).value, c, p, ProcLock(p));
  }

  lemma SaveKeeps(s: State, c: nat, p: nat)
    requires Base(s) && Runs(s, c, p) && s.pc[p].Switching?
    ensures Base(SaveStep(s, c, p)) && Elsewhere(s, SaveStep(s, c, p), c)
  {
    OwnLocks(s, c, p);
    PlacedAfter(s, SaveStep(s, c, p), c, p);
    LocksSame(s, SaveStep(s, c, p), c, p);
    ModeElsewhere(s, SaveStep(s, c, p), c, p);
  }

  lemma ResumeKeeps(s: State, c: nat, p: nat)
    requires Base(s) && Runs(s, c, p) && s.pc[p].Resumed?
    ensures Base(ResumeStep(s, c, p)) && Elsewhere(s, ResumeStep(s, c, p), c)
  {
    OwnLocks(s, c, p);
    if s.pc[p].k.Reacquire? { OwnSame(s, ResumeStep(s, c, p), c, p); }
    else { OwnGives(s, ResumeStep(s, c, p), c, p, ProcLock(p)); }
  }

  lemma SleepKeeps(s: State, c: nat, p: nat, ch: Chan, lk: Lock, k: Pc)
    requires Base(s) && Runs(s, c, p) && SleepStart(s, c, p, ch, lk, k).Some?
    requires SleepPair(lk, k, |s.locked|) && ch == ChanOf(p, lk) && OtherHeld(s.pc[p]) == Some(lk) && !OwnHeld(s.pc[p])
    requires s.st[p] == Running && s.life[p] == Alive
    ensures Base(SleepStart(s, c, p, ch, lk, k).value) && Elsewhere(s, SleepStart(s, c, p, ch, lk, k).value, c)
  {
    OwnLocks(s, c, p);
    OwnTakes(s, SleepStart(s, c, p, ch, lk, k).value, c, p, ProcLock(p));
  }

  lemma SleepUnlockKeeps(s: State, c: nat, p: nat)
    requires Base(s) && Runs(s, c, p) && s.pc[p].SleepUnlock?
    ensures Base(SleepUnlockStep(s, c, p)) && Elsewhere(s, SleepUnlockStep(s, c, p), c)
  {
    OwnLocks(s, c, p);
    OwnGives(s, SleepUnlockStep(s, c, p), c, p, s.pc[p].lk);
  }

  lemma ReacquireKeeps(s: State, c: nat, p: nat)
    requires Base(s) && Runs(s, c, p) && s.pc[p].Reacquire? && ReacquireStep(s, c, p).Some?
    ensures Base(ReacquireStep(s, c, p).value) && Elsewhere(s, ReacquireStep(s, c, p).value, c)
  {
    OwnLocks(s, c, p);
    OwnTakes(s, ReacquireStep(s, c, p).value, c, p, s.pc[p].lk);
  }

  lemma AwakeKeeps(s: State, c: nat, p: nat)
    requires Base(s) && Runs(s, c, p) && s.pc[p].Awake?
    ensures Base(AwakeStep(s, c, p)) && Elsewhere(s, AwakeStep(s, c, p), c)
  {
    OwnLocks(s, c, p);
    OwnGives(s, AwakeStep(s, c, p), c, p, ProcLock(p));
  }

  lemma WakeKeeps(s: State, c: nat, p: nat)
    requires Base(s) && Runs(s, c, p) && s.pc[p].Waking? && WakeStep(s, c, p).Some?
    ensures Base(WakeStep(s, c, p).value) && Elsewhere(s, WakeStep(s, c, p).value, c)
  {
    OwnLocks(s, c, p);
    var t, i := WakeStep(s, c, p).value, s.pc[p].i;
    if i < |s.st| && i != p {
      LockFreeMeans(s, i);
      var m := s.(st := t.st);
      PlacedOther(s, m, i);
      OwnSame(m, t, c, p);
      ExecElsewhere(s, t, c, p);
    } else {
      OwnSame(s, t, c, p);
    }
  }

  lemma LockStartKeeps(s: State, c: nat, p: nat, l: nat)
    requires Base(s) && Runs(s, c, p) && s.pc[p].Work? && l < |s.locked| && LockStart(s, c, p, l).Some?
    ensures Base(LockStart(s, c, p, l).value) && Elsewhere(s, LockStart(s, c, p, l).value, c)
  {
    OwnLocks(s, c, p);
    OwnTakes(s, LockStart(s, c, p, l).value, c, p, Inner(l));
  }

  lemma LockCheckKeeps(s: State, c: nat, p: nat)
    requires Base(s) && Runs(s, c, p) && s.pc[p].LockCheck? && s.pc[p].l < |s.locked| && LockCheckStep(s, c, p).Some?
    ensures Base(LockCheckStep(s, c, p).value) && Elsewhere(s, LockCheckStep(s, c, p).value, c)
  {
    OwnLocks(s, c, p);
    var l := s.pc[p].l;
    if s.locked[l] { SleepKeeps(s, c, p, LockOf(l), Inner(l), LockCheck(l)); }
    else { OwnGives(s, LockCheckStep(s, c, p).value, c, p, Inner(l)); }
  }

  lemma UnlockStartKeeps(s: State, c: nat, p: nat, l: nat)
    requires Base(s) && Runs(s, c, p) && s.pc[p].Work? && l in s.holds[p] && l < |s.locked|
             && UnlockStart(s, c, p, l).Some?
    ensures Base(UnlockStart(s, c, p, l).value) && Elsewhere(s, UnlockStart(s, c, p, l).value, c)
  {
    OwnLocks(s, c, p);
    OwnTakes(s, UnlockStart(s, c, p, l).value, c, p, Inner(l));
  }

  lemma UnlockEndKeeps(s: State, c: nat, p: nat)
    requires Base(s) && Runs(s, c, p) && s.pc[p].LockFreed?
    ensures Base(UnlockEnd(s, c, p)) && Elsewhere(s, UnlockEnd(s, c, p), c)
  {
    OwnLocks(s, c, p);
    OwnGives(s, UnlockEnd(s, c, p), c, p, Inner(s.pc[p].l));
  }

  lemma ParentsStartKeeps(s: State, c: nat, p: nat, pc: Pc)
    requires Base(s) && Runs(s, c, p) && s.pc[p].Work? && ParentsStart(s, c, p, pc).Some?
    requires pc == WaitScan(0, false) || (pc == ExitScan(1) && p != 0)
    ensures Base(ParentsStart(s, c, p, pc).value) && Elsewhere(s, ParentsStart(s, c, p, pc).value, c)
  {
    OwnLocks(s, c, p);
    OwnTakes(s, ParentsStart(s, c, p, pc).value, c, p, Parents);
  }

  lemma ParentsEndKeeps(s: State, c: nat, p: nat, pc: Pc)
    requires Base(s) && Runs(s, c, p) && OtherHeld(s.pc[p]) == Some(Parents)
    requires if pc == Work then !OwnHeld(s.pc[p]) && s.st[p] == Running && s.life[p] == Alive
             else pc == Switching(Dead) && s.pc[p].ExitUnlock?
    ensures Base(ParentsEnd(s, c, p, pc)) && Elsewhere(s, ParentsEnd(s, c, p, pc), c)
  {
    OwnLocks(s, c, p);
    OwnGives(s, ParentsEnd(s, c, p, pc), c, p, Parents);
  }

  lemma WaitScanKeeps(s: State, t: State, c: nat, p: nat)
    requires Base(s) && Runs(s, c, p) && s.pc[p].WaitScan? && s.pc[p].i < |s.st|
    requires t == Jump(s, p, WaitScan(s.pc[p].i + 1, true)) || t == Jump(s, p, WaitScan(s.pc[p].i + 1, s.pc[p].kids))
    ensures Base(t) && Elsewhere(s, t, c)
  {
    OwnPlace(s, c, p);
    OwnSame(s, t, c, p);
  }

  /** `Proc::free` of another process that no CPU has. */
  lemma FreeKeeps(s: State, t: State, c: nat, p: nat, i: nat)
    requires Base(s) && Runs(s, c, p) && i < |s.st| && i != p && ProcLock(i) !in s.held
             && s.st[i] in {Zombie, Allocated}
    requires s.st[i] == Allocated ==> s.life[i].Embryo?
    requires |t.pc| == |s.pc| && t == Freed(Jump(s, p, t.pc[p]), i)
    requires OwnHeld(t.pc[p]) == OwnHeld(s.pc[p]) && OtherHeld(t.pc[p]) == OtherHeld(s.pc[p])
    requires ExecOk(p, s.st[p], s.chan[p], s.life[p], t.pc[p], |s.on|, |s.locked|)
    ensures Base(t) && Elsewhere(s, t, c)
  {
    LockFreeMeans(s, i);
    var m := Freed(s, i);
    PlacedOther(s, m, i);
    OwnSame(m, t, c, p);
    ExecElsewhere(s, t, c, p);
  }

  lemma WaitReapKeeps(s: State, c: nat, p: nat)
    requires Base(s) && Runs(s, c, p) && s.pc[p].WaitReap? && s.pc[p].i < |s.parents|
    ensures Base(WaitReapStep(s, c, p).value) && Elsewhere(s, WaitReapStep(s, c, p).value, c)
  {
    OwnLocks(s, c, p);
    ParentsEndKeeps(s, c, p, Work);
  }

  lemma ExitScanKeeps(s: State, c: nat, p: nat)
    requires Base(s) && Runs(s, c, p) && s.pc[p].ExitScan? && s.parents[p].Some?
    ensures Base(ExitScanStep(s, c, p)) && Elsewhere(s, ExitScanStep(s, c, p), c)
  {
    OwnLocks(s, c, p);
    OwnSame(s, ExitScanStep(s, c, p), c, p);
  }

  lemma ExitZombieKeeps(s: State, c: nat, p: nat)
    requires Base(s) && Runs(s, c, p) && s.pc[p].ExitZombie? && ExitZombieStep(s, c, p).Some?
    ensures Base(ExitZombieStep(s, c, p).value) && Elsewhere(s, ExitZombieStep(s, c, p).value, c)
  {
    OwnLocks(s, c, p);
    OwnTakes(s, ExitZombieStep(s, c, p).value, c, p, ProcLock(p));
  }

  lemma ForkStartKeeps(s: State, c: nat, p: nat)
    requires Base(s) && Runs(s, c, p) && s.pc[p].Work?
    ensures Base(ForkStart(s, c, p)) && Elsewhere(s, ForkStart(s, c, p), c)
  {
    OwnLocks(s, c, p);
    OwnSame(s, ForkStart(s, c, p), c, p);
  }

  lemma ForkFindKeeps(s: State, c: nat, p: nat, ok: bool)
    requires Base(s) && Runs(s, c, p) && s.pc[p].ForkFind? && ForkFindStep(s, c, p, ok).Some?
    ensures Base(ForkFindStep(s, c, p, ok).value) && Elsewhere(s, ForkFindStep(s, c, p, ok).value, c)
  {
    if s.pc[p].i < |s.st| && s.st[s.pc[p].i] == Unused && ok {
      ForkTakes(s, c, p);
    } else {
      OwnLocks(s, c, p);
      OwnSame(s, ForkFindStep(s, c, p, ok).value, c, p);
    }
  }

  /** `alloc_proc` takes the entry it has found. */
  lemma ForkTakes(s: State, c: nat, p: nat)
    requires Base(s) && Runs(s, c, p) && s.pc[p].ForkFind? && ForkFindStep(s, c, p, true).Some?
    requires s.pc[p].i < |s.st| && s.st[s.pc[p].i] == Unused
    ensures Base(ForkFindStep(s, c, p, true).value) && Elsewhere(s, ForkFindStep(s, c, p, true).value, c)
  {
    OwnLocks(s, c, p);
    var t, i := ForkFindStep(s, c, p, true).value, s.pc[p].i;
    LockFreeMeans(s, i);
    var m := Jump(s, i, Parked(Work)).(st := t.st, pid := t.pid, life := t.life);
    PlacedOther(s, m, i);
    LocksElsewhere(s, m, i);
    OwnSame(m, t, c, p);
    ExecElsewhere(s, t, c, p);
  }

  /** What a process that no CPU has is said to do matters to no lock. */
  lemma LocksElsewhere(s: State, m: State, i: nat)
    requires Base(s) && i < |s.on| && s.on[i] == None && m == s.(pc := m.pc, st := m.st, pid := m.pid, life := m.life)
             && SameBut(s.pc, m.pc, i)
    ensures LocksOk(m.mode, m.pc, m.held, m.noff)
  {
    forall d: nat, lk
      ensures (Holding(m.mode, m.pc, d, lk) <==> Holding(s.mode, s.pc, d, lk))
              && (d < |s.mode| ==> Depth(m.mode[d], m.pc) == Depth(s.mode[d], s.pc)) {
      if d < |s.mode| && s.mode[d].Exec? { assert s.on[s.mode[d].p] == Some(d); }
    }
  }

  lemma ForkCopyKeeps(s: State, c: nat, p: nat, ok: bool)
    requires Base(s) && Runs(s, c, p) && s.pc[p].ForkCopy? && s.pc[p].child < |s.st| && ForkCopyStep(s, c, p, ok).Some?
    requires s.life[s.pc[p].child] == Embryo(p)
    ensures Base(ForkCopyStep(s, c, p, ok).value) && Elsewhere(s, ForkCopyStep(s, c, p, ok).value, c)
  {
    OwnLocks(s, c, p);
    var t, i := ForkCopyStep(s, c, p, ok).value, s.pc[p].child;
    LockFreeMeans(s, i);
    if ok { OwnSame(s, t, c, p); } else { FreeKeeps(s, t, c, p, i); }
  }

  lemma ForkParentKeeps(s: State, c: nat, p: nat)
    requires Base(s) && Runs(s, c, p) && s.pc[p].ForkParent? && s.pc[p].child < |s.st| && ForkParentStep(s, c, p).Some?
    ensures Base(ForkParentStep(s, c, p).value) && Elsewhere(s, ForkParentStep(s, c, p).value, c)
  {
    OwnLocks(s, c, p);
    OwnSame(s, ForkParentStep(s, c, p).value, c, p);
  }

  lemma ForkRunKeeps(s: State, c: nat, p: nat)
    requires Base(s) && Runs(s, c, p) && s.pc[p].ForkRun? && s.pc[p].child < |s.st| && ForkRunStep(s, c, p).Some?
    requires s.life[s.pc[p].child] == Embryo(p)
    ensures Base(ForkRunStep(s, c, p).value) && Elsewhere(s, ForkRunStep(s, c, p).value, c)
  {
    OwnLocks(s, c, p);
    var t, i := ForkRunStep(s, c, p).value, s.pc[p].child;
    LockFreeMeans(s, i);
    var m := s.(st := t.st, life := t.life);
    PlacedOther(s, m, i);
    OwnSame(m, t, c, p);
    ExecElsewhere(s, t, c, p);
  }
}
