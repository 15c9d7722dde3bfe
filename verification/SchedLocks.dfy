/** Every step keeps sleep locks exclusive and loses no wakeup of one. */
module SchedLocks {
  import opened Prelude
  import opened Sched
  import opened SchedInv
  import opened SchedBase

  predicate Wakes(s: State, c: nat) {
    c < |s.mode| && s.mode[c].Exec? && s.mode[c].p < |s.pc| && s.pc[s.mode[c].p].Waking?
  }

  lemma WakingKept(s: State, t: State, c: nat, lk: Lock, ch: Chan, x: nat)
    requires Elsewhere(s, t, c) && WakingAt(s, lk, ch, x) && (s.held[lk] != c || !Wakes(s, c))
    ensures WakingAt(t, lk, ch, x)
  {
    assert s.held[lk] != c;
    assert t.mode[s.held[lk]] == s.mode[s.held[lk]];
  }

  lemma SleepersFrame(s: State, t: State, c: nat)
    requires Elsewhere(s, t, c) && Sleepers(s) && !Wakes(s, c) && t.locked == s.locked
    requires forall p: nat, l: nat {:trigger SleepsOn(t, p, LockOf(l))} ::
               l < |s.locked| && SleepsOn(t, p, LockOf(l)) ==> SleepsOn(s, p, LockOf(l)) || s.locked[l]
    ensures Sleepers(t)
  {
    forall p: nat, l: nat | l < |t.locked| && SleepsOn(t, p, LockOf(l))
      ensures t.locked[l] || WakingAt(t, Inner(l), LockOf(l), p) {
      if !s.locked[l] {
        assert SleepsOn(s, p, LockOf(l));
        WakingKept(s, t, c, Inner(l), LockOf(l), p);
      }
    }
  }

  /** The lock `l` changes hands. */
  lemma SleepersLock(s: State, t: State, c: nat, l: nat)
    requires Elsewhere(s, t, c) && Sleepers(s) && !Wakes(s, c) && l < |s.locked| && SameBut(s.locked, t.locked, l)
    requires t.locked[l] || forall q: nat :: WakingAt(t, Inner(l), LockOf(l), q)
    requires t.st == s.st && t.chan == s.chan
    ensures Sleepers(t)
  {
    forall q: nat, m: nat | m < |t.locked| && SleepsOn(t, q, LockOf(m))
      ensures t.locked[m] || WakingAt(t, Inner(m), LockOf(m), q) {
      assert SleepsOn(s, q, LockOf(m));
      if m != l && !s.locked[m] { WakingKept(s, t, c, Inner(m), LockOf(m), q); }
    }
  }

  lemma LockTakenLocks(s: State, c: nat, p: nat)
    requires Base(s) && Guarded(s.holds, s.locked, s.life) && Sleepers(s) && Runs(s, c, p)
    requires s.pc[p].LockCheck? && s.pc[p].l < |s.locked| && !s.locked[s.pc[p].l]
    ensures var t := LockCheckStep(s, c, p).value; Guarded(t.holds, t.locked, t.life) && Sleepers(t)
  {
    var t, l := LockCheckStep(s, c, p).value, s.pc[p].l;
    OwnLocks(s, c, p);
    ExecElsewhere(s, t, c, p);
    SleepersLock(s, t, c, l);
    forall q: nat, m: nat | q < |t.st| && m in t.holds[q] ensures m in s.holds[q] || (q == p && m == l) {
    }
  }

  lemma UnlockStartLocks(s: State, c: nat, p: nat, l: nat)
    requires Base(s) && Guarded(s.holds, s.locked, s.life) && Sleepers(s) && Runs(s, c, p)
    requires s.pc[p].Work? && l in s.holds[p] && l < |s.locked| && UnlockStart(s, c, p, l).Some?
    ensures var t := UnlockStart(s, c, p, l).value; Guarded(t.holds, t.locked, t.life) && Sleepers(t)
  {
    var t := UnlockStart(s, c, p, l).value;
    OwnLocks(s, c, p);
    ExecElsewhere(s, t, c, p);
    SleepersLock(s, t, c, l);
    forall q: nat, m: nat | q < |t.st| && m in t.holds[q] ensures m in s.holds[q] && m != l {
      assert m in s.holds[q] && l in s.holds[p];
    }
  }

  lemma WakeLocks(s: State, c: nat, p: nat)
    requires Base(s) && Sleepers(s) && Runs(s, c, p) && s.pc[p].Waking? && WakeStep(s, c, p).Some?
    ensures Sleepers(WakeStep(s, c, p).value)
  {
    var t, w := WakeStep(s, c, p).value, s.pc[p];
    OwnLocks(s, c, p);
    ExecElsewhere(s, t, c, p);
    forall q: nat, m: nat | m < |t.locked| && SleepsOn(t, q, LockOf(m))
      ensures t.locked[m] || WakingAt(t, Inner(m), LockOf(m), q) {
      assert SleepsOn(s, q, LockOf(m));
      if !s.locked[m] && s.held[Inner(m)] != c { WakingKept(s, t, c, Inner(m), LockOf(m), q); }
    }
  }
}
