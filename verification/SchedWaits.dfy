/** Every step keeps `wait` from sleeping through the exit of a child. */
module SchedWaits {
  import opened Prelude
  import opened Sched
  import opened SchedInv
  import opened SchedBase
  import opened SchedLocks

  /** Past the wakeup of its parent, or in it. */
  predicate Exiting(pc: Pc) {
    pc.ExitZombie? || (pc.Waking? && pc.k.ExitZombie?)
  }

  /** Nobody new sleeps in `wait`, is a zombie, scans further or comes to the end of an exit. */
  ghost predicate NoNews(s: State, t: State)
    requires Sizes(s) && Sizes(t) && |t.st| == |s.st|
  {
    && (forall p: nat, i: nat {:trigger ZombieChild(t, p, i)} :: ZombieChild(t, p, i) ==> ZombieChild(s, p, i))
    && (forall p: nat, x: nat {:trigger SleepsOn(t, p, ChildOf(x))} :: SleepsOn(t, p, ChildOf(x)) ==>
          SleepsOn(s, p, ChildOf(x)))
    && (forall p: nat {:trigger t.pc[p]} :: p < |s.st| && t.life[p] == Alive && t.pc[p].WaitScan? && t.pc[p].i > 0 ==>
          s.life[p] == Alive && s.pc[p] == t.pc[p])
    && (forall p: nat {:trigger t.pc[p]} :: p < |s.st| && t.life[p] == Alive && Exiting(t.pc[p]) ==>
          s.life[p] == Alive && s.pc[p] == t.pc[p] && s.parents[p] == t.parents[p])
  }

  lemma WaitsFrame(s: State, t: State, c: nat)
    requires Elsewhere(s, t, c) && !Wakes(s, c) && Waits(s) && NoNews(s, t)
    ensures Waits(t)
  {
    forall p: nat, i: nat | ZombieChild(t, p, i) && SleepsOn(t, p, ChildOf(p))
      ensures WakingAt(t, Parents, ChildOf(p), p) {
      assert ZombieChild(s, p, i) && SleepsOn(s, p, ChildOf(p));
      WakingKept(s, t, c, Parents, ChildOf(p), p);
    }
    forall p: nat, i: nat | ZombieChild(t, p, i) && p < |t.st| && t.life[p] == Alive && t.pc[p].WaitScan?
      ensures t.pc[p].i <= i {
      assert ZombieChild(s, p, i);
    }
    forall p: nat | p < |t.st| && t.life[p] == Alive ensures ScanOk(t, p) {
      if Exiting(t.pc[p]) { assert ScanOk(s, p); }
    }
  }

  /** Only the holder of `parents` can be where the holder of `parents` is. */
  lemma OneInParents(s: State, c: nat, p: nat, q: nat)
    requires Base(s) && Runs(s, c, p) && Parents in s.held && s.held[Parents] == c && q < |s.st| && q != p
             && s.life[q] == Alive
    ensures !Exiting(s.pc[q]) && !s.pc[q].WaitScan?
  {
    assert PlaceOk(s.on[q], s.mode, q, s.st[q], s.chan[q], s.life[q], s.pc[q], |s.on|, |s.locked|);
    assert s.on[s.mode[c].p] == Some(c);
    assert s.on[q].Some? && s.on[q].value != c ==> !Holding(s.mode, s.pc, s.on[q].value, Parents);
  }

  /** No wakeup in `exit` is going on while another thread has `parents`. */
  lemma NoWakingFor(s: State, c: nat, p: nat)
    requires Base(s) && Runs(s, c, p) && OtherHeld(s.pc[p]) == Some(Parents) && !s.pc[p].Waking?
    ensures Parents in s.held && s.held[Parents] == c
    ensures forall ch: Chan, x: nat {:trigger WakingAt(s, Parents, ch, x)} :: !WakingAt(s, Parents, ch, x)
  {
    OwnLocks(s, c, p);
  }

  /** `wait` goes to the next entry. */
  lemma WaitScanWaits(s: State, t: State, c: nat, p: nat)
    requires Base(s) && Waits(s) && Runs(s, c, p) && s.pc[p].WaitScan? && s.pc[p].i < |s.st|
    requires t == Jump(s, p, WaitScan(s.pc[p].i + 1, true)) || t == Jump(s, p, WaitScan(s.pc[p].i + 1, s.pc[p].kids))
    requires !ZombieChild(s, p, s.pc[p].i)
    ensures Waits(t)
  {
    OwnLocks(s, c, p);
    ExecElsewhere(s, t, c, p);
    forall q: nat, i: nat | ZombieChild(t, q, i)
      ensures (SleepsOn(t, q, ChildOf(q)) ==> WakingAt(t, Parents, ChildOf(q), q))
              && (q < |t.st| && t.life[q] == Alive && t.pc[q].WaitScan? ==> t.pc[q].i <= i) {
      assert ZombieChild(s, q, i);
      if SleepsOn(t, q, ChildOf(q)) { assert SleepsOn(s, q, ChildOf(q)); WakingKept(s, t, c, Parents, ChildOf(q), q); }
    }
    forall q: nat | q < |t.st| && t.life[q] == Alive ensures ScanOk(t, q) { assert ScanOk(s, q); }
  }

  /** `wait` goes to sleep: it has seen every child, and none was a zombie. */
  lemma WaitSleepWaits(s: State, c: nat, p: nat)
    requires Base(s) && Waits(s) && Runs(s, c, p) && s.pc[p].WaitScan? && s.pc[p].i >= |s.st|
    requires SleepStart(s, c, p, ChildOf(p), Parents, WaitScan(0, false)).Some?
    ensures Waits(SleepStart(s, c, p, ChildOf(p), Parents, WaitScan(0, false)).value)
  {
    var t := SleepStart(s, c, p, ChildOf(p), Parents, WaitScan(0, false)).value;
    OwnLocks(s, c, p);
    NoWakingFor(s, c, p);
    forall q: nat, i: nat | ZombieChild(t, q, i)
      ensures (SleepsOn(t, q, ChildOf(q)) ==> WakingAt(t, Parents, ChildOf(q), q))
              && (q < |t.st| && t.life[q] == Alive && t.pc[q].WaitScan? ==> t.pc[q].i <= i) {
      assert ZombieChild(s, q, i);
      assert q != p && SleepsOn(t, q, ChildOf(q)) ==> SleepsOn(s, q, ChildOf(q));
    }
    forall q: nat | q < |t.st| && t.life[q] == Alive ensures ScanOk(t, q) {
      if q != p { OneInParents(s, c, p, q); }
    }
  }

  /** `wakeup` comes to its next entry, or to its end. */
  lemma WakePast(s: State, t: State, c: nat, p: nat)
    requires Elsewhere(s, t, c) && Waits(s) && Runs(s, c, p) && s.st[p] == Running && s.pc[p].Waking?
             && t.mode == s.mode
    requires t.held == s.held && t.parents == s.parents && t.life == s.life && t.chan == s.chan
             && SameBut(s.pc, t.pc, p)
    requires var w := s.pc[p];
             && (w.k.LockFreed? || w.k.ExitScan? || w.k.ExitZombie?)
             && if w.i >= |s.st| then t.pc[p] == w.k && t.st == s.st
                else
                  && t.pc[p] == Waking(w.i + 1, w.ch, w.k) && SameBut(s.st, t.st, w.i)
                  && t.st[w.i] == if SleepsOn(s, w.i, w.ch) then Runnable else s.st[w.i]
    ensures Waits(t)
  {
    forall q: nat, i: nat | ZombieChild(t, q, i)
      ensures (SleepsOn(t, q, ChildOf(q)) ==> WakingAt(t, Parents, ChildOf(q), q))
              && (q < |t.st| && t.life[q] == Alive && t.pc[q].WaitScan? ==> t.pc[q].i <= i) {
      assert ZombieChild(s, q, i);
      if SleepsOn(t, q, ChildOf(q)) {
        assert SleepsOn(s, q, ChildOf(q));
        if s.held[Parents] != c { WakingKept(s, t, c, Parents, ChildOf(q), q); }
      }
    }
    forall q: nat | q < |t.st| && t.life[q] == Alive ensures ScanOk(t, q) { assert ScanOk(s, q); }
  }

  lemma WakeWaits(s: State, c: nat, p: nat)
    requires Base(s) && Waits(s) && Runs(s, c, p) && s.pc[p].Waking? && WakeStep(s, c, p).Some?
    ensures Waits(WakeStep(s, c, p).value)
  {
    OwnLocks(s, c, p);
    ExecElsewhere(s, WakeStep(s, c, p).value, c, p);
    WakePast(s, WakeStep(s, c, p).value, c, p);
  }

  /** `exit` gives a child to `init` and sets out to wake it, or goes on. */
  lemma ExitScanWaits(s: State, c: nat, p: nat)
    requires Base(s) && Waits(s) && Runs(s, c, p) && s.pc[p].ExitScan? && s.parents[p].Some?
    ensures Waits(ExitScanStep(s, c, p))
  {
    var t := ExitScanStep(s, c, p);
    OwnLocks(s, c, p);
    NoWakingFor(s, c, p);
    forall q: nat, i: nat | ZombieChild(t, q, i)
      ensures (SleepsOn(t, q, ChildOf(q)) ==> WakingAt(t, Parents, ChildOf(q), q))
              && (q < |t.st| && t.life[q] == Alive && t.pc[q].WaitScan? ==> t.pc[q].i <= i) {
      assert ZombieChild(s, q, i) || (q == 0 && ZombieChild(s, p, i));
      if SleepsOn(t, q, ChildOf(q)) { assert SleepsOn(s, q, ChildOf(q)); }
      if q < |t.st| && q != p && s.life[q] == Alive { OneInParents(s, c, p, q); }
    }
    forall q: nat | q < |t.st| && t.life[q] == Alive ensures ScanOk(t, q) {
      if q != p { OneInParents(s, c, p, q); }
    }
  }

  /** `exit` makes a zombie, of which the parent has been told. */
  lemma ExitZombieWaits(s: State, c: nat, p: nat)
    requires Base(s) && Waits(s) && Runs(s, c, p) && s.pc[p].ExitZombie? && ExitZombieStep(s, c, p).Some?
    ensures Waits(ExitZombieStep(s, c, p).value)
  {
    var t := ExitZombieStep(s, c, p).value;
    OwnLocks(s, c, p);
    NoWakingFor(s, c, p);
    assert ScanOk(s, p);
    forall q: nat, i: nat | ZombieChild(t, q, i)
      ensures (SleepsOn(t, q, ChildOf(q)) ==> WakingAt(t, Parents, ChildOf(q), q))
              && (q < |t.st| && t.life[q] == Alive && t.pc[q].WaitScan? ==> t.pc[q].i <= i) {
      assert i != p ==> ZombieChild(s, q, i);
      if SleepsOn(t, q, ChildOf(q)) { assert SleepsOn(s, q, ChildOf(q)); }
      if q < |t.st| && q != p && s.life[q] == Alive { OneInParents(s, c, p, q); }
    }
    forall q: nat | q < |t.st| && t.life[q] == Alive ensures ScanOk(t, q) {
      if q != p { OneInParents(s, c, p, q); }
    }
  }
}
