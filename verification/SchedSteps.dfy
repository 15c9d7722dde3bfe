/** The invariant, step by step. */
module SchedSteps {
  import opened Prelude
  import opened Sched
  import opened SchedInv
  import opened SchedBase
  import opened SchedLocks
  import opened SchedFamily
  import opened SchedWaits

  /** A step that only moves process `p` and CPU `c`, and touches no family, guard or sleep lock. */
  ghost predicate Plain(s: State, t: State, c: nat, p: nat) {
    && Sizes(s) && Sizes(t) && |t.mode| == |s.mode| && OnCpu(s.mode, s.on, c, p)
    && t.life == s.life && t.pid == s.pid && t.next == s.next && t.parents == s.parents && t.holds == s.holds
        && t.locked == s.locked
    && SameBut(s.mode, t.mode, c) && SameBut(s.st, t.st, p) && SameBut(s.chan, t.chan, p) && SameBut(s.pc, t.pc, p)
    && Elsewhere(s, t, c) && !Wakes(s, c) && !Reaps(s, c) && !Reaps(t, c)
    && PlainAt(s, t, p)
  }

  predicate PlainAt(s: State, t: State, p: nat)
    requires Sizes(s) && Sizes(t) && |t.st| == |s.st| && p < |s.st| && t.locked == s.locked
  {
    && (s.life[p] == Alive ==> SameKin(s.pc[p], t.pc[p], |s.st|))
    && (t.st[p] == Zombie ==> s.st[p] == Zombie)
    && (t.st[p] == Sleeping ==>
          (s.st[p] == Sleeping && t.chan[p] == s.chan[p])
              || (t.chan[p].LockOf? && t.chan[p].l < |s.locked| && s.locked[t.chan[p].l]))
    && (t.pc[p].WaitScan? ==> t.pc[p].i == 0) && !Exiting(t.pc[p])
  }

  lemma PlainNews(s: State, t: State, c: nat, p: nat)
    requires Plain(s, t, c, p)
    ensures NoNews(s, t)
    ensures forall q: nat, l: nat {:trigger SleepsOn(t, q, LockOf(l))} ::
              l < |s.locked| && SleepsOn(t, q, LockOf(l)) ==> SleepsOn(s, q, LockOf(l)) || s.locked[l]
  {
  }

  lemma PlainKeeps(s: State, t: State, c: nat, p: nat)
    requires Inv(s) && Base(t) && Plain(s, t, c, p)
    ensures Inv(t)
  {
    PlainNews(s, t, c, p);
    SleepersFrame(s, t, c);
    WaitsFrame(s, t, c);
    FamilyFrame(s, t, c);
  }

  // ---- The scheduler ----

  lemma ScanInv(s: State, c: nat)
    requires Inv(s) && c < |s.mode| && s.mode[c].Scan? && ScanStep(s, c).Some?
    ensures Inv(ScanStep(s, c).value)
  {
    ScanKeeps(s, c);
    var t, i := ScanStep(s, c).value, s.mode[c].i;
    if i < |s.st| && s.st[i] == Runnable {
      LockFreeMeans(s, i);
      PlainKeeps(s, t, c, i);
    } else {
      ScanOnInv(s, t, c);
    }
  }

  lemma ScanOnInv(s: State, t: State, c: nat)
    requires Inv(s) && Base(t) && c < |s.mode| && s.mode[c].Scan? && t == s.(mode := t.mode)
             && SameBut(s.mode, t.mode, c) && t.mode[c].Scan?
    ensures Inv(t)
  {
    assert Elsewhere(s, t, c);
    SleepersFrame(s, t, c);
    WaitsFrame(s, t, c);
    FamilyFrame(s, t, c);
  }

  lemma DispatchInv(s: State, c: nat)
    requires Inv(s) && c < |s.mode| && s.mode[c].Picked? && s.mode[c].p < |s.st| && DispatchStep(s, c).Some?
    ensures Inv(DispatchStep(s, c).value)
  {
    assert s.on[s.mode[c].p] == Some(c);
    DispatchKeeps(s, c);
    PlainKeeps(s, DispatchStep(s, c).value, c, s.mode[c].p);
  }

  lemma LoadInv(s: State, c: nat)
    requires Inv(s) && c < |s.mode| && s.mode[c].Ready? && s.mode[c].p < |s.pc|
    ensures Inv(LoadStep(s, c))
  {
    assert s.on[s.mode[c].p] == Some(c);
    LoadKeeps(s, c);
    PlainKeeps(s, LoadStep(s, c), c, s.mode[c].p);
  }

  lemma ReturnInv(s: State, c: nat)
    requires Inv(s) && c < |s.mode| && s.mode[c].Saved?
    ensures Inv(ReturnStep(s, c))
  {
    assert s.on[s.mode[c].p] == Some(c);
    ReturnKeeps(s, c);
    PlainKeeps(s, ReturnStep(s, c), c, s.mode[c].p);
  }

  lemma ReleaseInv(s: State, c: nat)
    requires Inv(s) && c < |s.mode| && s.mode[c].Back? && s.mode[c].p < |s.on|
    ensures Inv(ReleaseStep(s, c))
  {
    assert s.on[s.mode[c].p] == Some(c);
    ReleaseKeeps(s, c);
    PlainKeeps(s, ReleaseStep(s, c), c, s.mode[c].p);
  }

  // ---- Kernel threads: steps that are plain ----

  lemma YieldInv(s: State, c: nat, p: nat)
    requires Inv(s) && Runs(s, c, p) && LockFree(s.pc[p]) && YieldStep(s, c, p).Some?
    ensures Inv(YieldStep(s, c, p).value)
  {
    OwnPlace(s, c, p);
    YieldKeeps(s, c, p);
    PlainKeeps(s, YieldStep(s, c, p).value, c, p);
  }

  lemma SaveInv(s: State, c: nat, p: nat)
    requires Inv(s) && Runs(s, c, p) && s.pc[p].Switching?
    ensures Inv(SaveStep(s, c, p))
  {
    OwnPlace(s, c, p);
    SaveKeeps(s, c, p);
    PlainKeeps(s, SaveStep(s, c, p), c, p);
  }

  lemma ResumeInv(s: State, c: nat, p: nat)
    requires Inv(s) && Runs(s, c, p) && s.pc[p].Resumed?
    ensures Inv(ResumeStep(s, c, p))
  {
    OwnPlace(s, c, p);
    ResumeKeeps(s, c, p);
    PlainKeeps(s, ResumeStep(s, c, p), c, p);
  }

  lemma SleepUnlockInv(s: State, c: nat, p: nat)
    requires Inv(s) && Runs(s, c, p) && s.pc[p].SleepUnlock?
    ensures Inv(SleepUnlockStep(s, c, p))
  {
    OwnPlace(s, c, p);
    SleepUnlockKeeps(s, c, p);
    PlainKeeps(s, SleepUnlockStep(s, c, p), c, p);
  }

  lemma ReacquireInv(s: State, c: nat, p: nat)
    requires Inv(s) && Runs(s, c, p) && s.pc[p].Reacquire? && ReacquireStep(s, c, p).Some?
    ensures Inv(ReacquireStep(s, c, p).value)
  {
    OwnPlace(s, c, p);
    ReacquireKeeps(s, c, p);
    PlainKeeps(s, ReacquireStep(s, c, p).value, c, p);
  }

  lemma AwakeInv(s: State, c: nat, p: nat)
    requires Inv(s) && Runs(s, c, p) && s.pc[p].Awake?
    ensures Inv(AwakeStep(s, c, p))
  {
    OwnPlace(s, c, p);
    AwakeKeeps(s, c, p);
    PlainKeeps(s, AwakeStep(s, c, p), c, p);
  }

  lemma LockStartInv(s: State, c: nat, p: nat, l: nat)
    requires Inv(s) && Runs(s, c, p) && s.pc[p].Work? && l < |s.locked| && LockStart(s, c, p, l).Some?
    ensures Inv(LockStart(s, c, p, l).value)
  {
    OwnPlace(s, c, p);
    LockStartKeeps(s, c, p, l);
    PlainKeeps(s, LockStart(s, c, p, l).value, c, p);
  }

  lemma UnlockEndInv(s: State, c: nat, p: nat)
    requires Inv(s) && Runs(s, c, p) && s.pc[p].LockFreed?
    ensures Inv(UnlockEnd(s, c, p))
  {
    OwnPlace(s, c, p);
    UnlockEndKeeps(s, c, p);
    PlainKeeps(s, UnlockEnd(s, c, p), c, p);
  }

  lemma WaitStartInv(s: State, c: nat, p: nat)
    requires Inv(s) && Runs(s, c, p) && s.pc[p].Work? && ParentsStart(s, c, p, WaitScan(0, false)).Some?
    ensures Inv(ParentsStart(s, c, p, WaitScan(0, false)).value)
  {
    OwnPlace(s, c, p);
    ParentsStartKeeps(s, c, p, WaitScan(0, false));
    PlainKeeps(s, ParentsStart(s, c, p, WaitScan(0, false)).value, c, p);
  }

  lemma ParentsEndInv(s: State, c: nat, p: nat, pc: Pc)
    requires Inv(s) && Runs(s, c, p)
             && (if s.pc[p].ExitUnlock? then pc == Switching(Dead) else pc == Work && s.pc[p].WaitScan?)
    ensures Inv(ParentsEnd(s, c, p, pc))
  {
    OwnPlace(s, c, p);
    ParentsEndKeeps(s, c, p, pc);
    PlainKeeps(s, ParentsEnd(s, c, p, pc), c, p);
  }

  // ---- Sleep locks ----

  lemma LockCheckInv(s: State, c: nat, p: nat)
    requires Inv(s) && Runs(s, c, p) && s.pc[p].LockCheck? && s.pc[p].l < |s.locked| && LockCheckStep(s, c, p).Some?
    ensures Inv(LockCheckStep(s, c, p).value)
  {
    var t := LockCheckStep(s, c, p).value;
    OwnPlace(s, c, p);
    LockCheckKeeps(s, c, p);
    if s.locked[s.pc[p].l] {
      PlainKeeps(s, t, c, p);
    } else {
      LockTakenLocks(s, c, p);
      WaitsFrame(s, t, c);
      FamilyFrame(s, t, c);
    }
  }

  lemma UnlockStartInv(s: State, c: nat, p: nat, l: nat)
    requires Inv(s) && Runs(s, c, p) && s.pc[p].Work? && l in s.holds[p] && l < |s.locked|
             && UnlockStart(s, c, p, l).Some?
    ensures Inv(UnlockStart(s, c, p, l).value)
  {
    var t := UnlockStart(s, c, p, l).value;
    OwnPlace(s, c, p);
    UnlockStartKeeps(s, c, p, l);
    UnlockStartLocks(s, c, p, l);
    WaitsFrame(s, t, c);
    FamilyFrame(s, t, c);
  }

  lemma WakeInv(s: State, c: nat, p: nat)
    requires Inv(s) && Runs(s, c, p) && s.pc[p].Waking? && WakeStep(s, c, p).Some?
    ensures Inv(WakeStep(s, c, p).value)
  {
    var t := WakeStep(s, c, p).value;
    OwnPlace(s, c, p);
    WakeKeeps(s, c, p);
    WakeLocks(s, c, p);
    WakeWaits(s, c, p);
    FamilyFrame(s, t, c);
  }

  // ---- wait ----

  lemma WaitInv(s: State, c: nat, p: nat, fails: bool, killed: bool)
    requires Inv(s) && Runs(s, c, p) && s.pc[p].WaitScan? && WaitStep(s, c, p, fails, killed).Some?
    ensures Inv(WaitStep(s, c, p, fails, killed).value)
  {
    OwnLocks(s, c, p);
    if s.pc[p].i >= |s.st| {
      if !s.pc[p].kids || killed { ParentsEndInv(s, c, p, Work); } else { WaitSleepInv(s, c, p); }
    } else if s.parents[s.pc[p].i] == Some(p) && s.st[s.pc[p].i] == Zombie {
      if fails { ParentsEndInv(s, c, p, Work); } else { ReapInv(s, c, p); }
    } else {
      WaitScanInv(s, WaitStep(s, c, p, fails, killed).value, c, p);
    }
  }

  lemma WaitScanInv(s: State, t: State, c: nat, p: nat)
    requires Inv(s) && Runs(s, c, p) && s.pc[p].WaitScan? && s.pc[p].i < |s.st|
    requires t == Jump(s, p, WaitScan(s.pc[p].i + 1, true)) || t == Jump(s, p, WaitScan(s.pc[p].i + 1, s.pc[p].kids))
    requires !ZombieChild(s, p, s.pc[p].i)
    ensures Inv(t)
  {
    WaitScanKeeps(s, t, c, p);
    WaitScanWaits(s, t, c, p);
    SleepersFrame(s, t, c);
    FamilyFrame(s, t, c);
  }

  lemma WaitSleepInv(s: State, c: nat, p: nat)
    requires Inv(s) && Runs(s, c, p) && s.pc[p].WaitScan? && s.pc[p].i >= |s.st|
    requires SleepStart(s, c, p, ChildOf(p), Parents, WaitScan(0, false)).Some?
    ensures Inv(SleepStart(s, c, p, ChildOf(p), Parents, WaitScan(0, false)).value)
  {
    var t := SleepStart(s, c, p, ChildOf(p), Parents, WaitScan(0, false)).value;
    OwnPlace(s, c, p);
    SleepKeeps(s, c, p, ChildOf(p), Parents, WaitScan(0, false));
    WaitSleepWaits(s, c, p);
    SleepersFrame(s, t, c);
    FamilyFrame(s, t, c);
  }

  lemma ReapInv(s: State, c: nat, p: nat)
    requires Inv(s) && Runs(s, c, p) && s.pc[p].WaitScan? && s.pc[p].i < |s.st| && WaitStep(s, c, p, false, false).Some?
    requires s.parents[s.pc[p].i] == Some(p) && s.st[s.pc[p].i] == Zombie
    ensures Inv(WaitStep(s, c, p, false, false).value)
  {
    var t := WaitStep(s, c, p, false, false).value;
    OwnPlace(s, c, p);
    OwnLocks(s, c, p);
    FreeKeeps(s, t, c, p, s.pc[p].i);
    ReapFamily(s, c, p);
    SleepersFrame(s, t, c);
    WaitsFrame(s, t, c);
    GuardsLess(s, t, s.pc[p].i);
  }

  lemma GuardsLess(s: State, t: State, i: nat)
    requires Sizes(s) && Sizes(t) && |t.st| == |s.st| && Guarded(s.holds, s.locked, s.life) && i < |s.st|
    requires t.holds == s.holds[i := {}] && t.locked == s.locked && t.life == s.life[i := Free]
    ensures Guarded(t.holds, t.locked, t.life)
  {
    forall p: nat, l: nat | p < |t.holds| && l in t.holds[p] ensures p != i && l in s.holds[p] {
    }
  }

  lemma WaitReapInv(s: State, c: nat, p: nat)
    requires Inv(s) && Runs(s, c, p) && s.pc[p].WaitReap? && s.pc[p].i < |s.parents|
    ensures Inv(WaitReapStep(s, c, p).value)
  {
    var t := WaitReapStep(s, c, p).value;
    OwnPlace(s, c, p);
    WaitReapKeeps(s, c, p);
    WaitReapFamily(s, c, p);
    assert Reaping(s, s.pc[p].i) && ParentOk(s, s.pc[p].i);
    SleepersFrame(s, t, c);
    WaitsFrame(s, t, c);
  }

  // ---- exit ----

  lemma ExitStartInv(s: State, c: nat, p: nat)
    requires Inv(s) && Runs(s, c, p) && s.pc[p].Work? && p != 0 && ParentsStart(s, c, p, ExitScan(1)).Some?
    ensures Inv(ParentsStart(s, c, p, ExitScan(1)).value)
  {
    var t := ParentsStart(s, c, p, ExitScan(1)).value;
    OwnPlace(s, c, p);
    ParentsStartKeeps(s, c, p, ExitScan(1));
    ExitStartFamily(s, c, p);
    SleepersFrame(s, t, c);
    WaitsFrame(s, t, c);
  }

  lemma ExitScanInv(s: State, c: nat, p: nat)
    requires Inv(s) && Runs(s, c, p) && s.pc[p].ExitScan?
    ensures Inv(ExitScanStep(s, c, p))
  {
    var t := ExitScanStep(s, c, p);
    OwnPlace(s, c, p);
    ExitScanFamily(s, c, p);
    ExitScanKeeps(s, c, p);
    ExitScanWaits(s, c, p);
    SleepersFrame(s, t, c);
  }

  lemma ExitZombieInv(s: State, c: nat, p: nat)
    requires Inv(s) && Runs(s, c, p) && s.pc[p].ExitZombie? && ExitZombieStep(s, c, p).Some?
    ensures Inv(ExitZombieStep(s, c, p).value)
  {
    var t := ExitZombieStep(s, c, p).value;
    OwnPlace(s, c, p);
    ExitZombieFamily(s, c, p);
    ExitZombieKeeps(s, c, p);
    ExitZombieWaits(s, c, p);
    SleepersFrame(s, t, c);
  }

  // ---- fork ----

  lemma ForkStartInv(s: State, c: nat, p: nat)
    requires Inv(s) && Runs(s, c, p) && s.pc[p].Work?
    ensures Inv(ForkStart(s, c, p))
  {
    var t := ForkStart(s, c, p);
    OwnPlace(s, c, p);
    ForkStartKeeps(s, c, p);
    ForkStartFamily(s, c, p);
    SleepersFrame(s, t, c);
    WaitsFrame(s, t, c);
  }

  /** A fork moves on, and entry `z` with it. */
  lemma ForkNews(s: State, t: State, p: nat, z: nat)
    requires Sizes(s) && Sizes(t) && |t.st| == |s.st| && p < |s.st| && t.parents == s.parents && t.chan == s.chan
    requires LockFree(t.pc[p]) && SameBut(s.st, t.st, z) && (z < |s.st| ==> t.st[z] == Allocated || t.st[z] == s.st[z])
    requires forall q: nat {:trigger t.pc[q]} :: q < |s.st| && q != p && t.life[q] == Alive ==>
               t.pc[q] == s.pc[q] && s.life[q] == Alive
    ensures NoNews(s, t)
    ensures forall q: nat, ch: Chan {:trigger SleepsOn(t, q, ch)} :: SleepsOn(t, q, ch) ==> SleepsOn(s, q, ch)
  {
  }

  lemma ForkFindInv(s: State, c: nat, p: nat, ok: bool)
    requires Inv(s) && Runs(s, c, p) && s.pc[p].ForkFind? && ForkFindStep(s, c, p, ok).Some?
    ensures Inv(ForkFindStep(s, c, p, ok).value)
  {
    var t, z := ForkFindStep(s, c, p, ok).value, s.pc[p].i;
    ForkFindKeeps(s, c, p, ok);
    ForkFindFamily(s, c, p, ok);
    ForkFindPlace(s, c, p, ok);
    ForkNews(s, t, p, z);
    SleepersFrame(s, t, c);
    WaitsFrame(s, t, c);
  }

  lemma ForkFindPlace(s: State, c: nat, p: nat, ok: bool)
    requires Inv(s) && Runs(s, c, p) && s.pc[p].ForkFind? && ForkFindStep(s, c, p, ok).Some?
             && !ForkFindStep(s, c, p, ok).value.bad
    ensures s.pc[p].i < |s.st| && s.st[s.pc[p].i] == Unused ==> s.life[s.pc[p].i] == Free
    ensures var t := ForkFindStep(s, c, p, ok).value; Guarded(t.holds, t.locked, t.life)
  {
    if s.pc[p].i < |s.st| && s.st[s.pc[p].i] == Unused { LockFreeMeans(s, s.pc[p].i); }
  }

  lemma ForkCopyInv(s: State, c: nat, p: nat, ok: bool)
    requires Inv(s) && Runs(s, c, p) && s.pc[p].ForkCopy? && s.pc[p].child < |s.st| && ForkCopyStep(s, c, p, ok).Some?
    ensures Inv(ForkCopyStep(s, c, p, ok).value)
  {
    var t, z := ForkCopyStep(s, c, p, ok).value, s.pc[p].child;
    OwnPlace(s, c, p);
    ForkCopyFamily(s, c, p, ok);
    ForkCopyKeeps(s, c, p, ok);
    SleepersFrame(s, t, c);
    WaitsFrame(s, t, c);
    if !ok { GuardsLess(s, t, z); }
  }

  lemma ForkParentInv(s: State, c: nat, p: nat)
    requires Inv(s) && Runs(s, c, p) && s.pc[p].ForkParent? && s.pc[p].child < |s.st| && ForkParentStep(s, c, p).Some?
    ensures Inv(ForkParentStep(s, c, p).value)
  {
    var t, z := ForkParentStep(s, c, p).value, s.pc[p].child;
    OwnPlace(s, c, p);
    assert EmbryoOk(s, p) && PlaceOk(s.on[z], s.mode, z, s.st[z], s.chan[z], s.life[z], s.pc[z], |s.on|, |s.locked|);
    ForkParentKeeps(s, c, p);
    ForkParentFamily(s, c, p);
    SleepersFrame(s, t, c);
    WaitsFrame(s, t, c);
  }

  lemma ForkRunInv(s: State, c: nat, p: nat)
    requires Inv(s) && Runs(s, c, p) && s.pc[p].ForkRun? && s.pc[p].child < |s.st| && ForkRunStep(s, c, p).Some?
    ensures Inv(ForkRunStep(s, c, p).value)
  {
    var t, z := ForkRunStep(s, c, p).value, s.pc[p].child;
    OwnPlace(s, c, p);
    ForkRunFamily(s, c, p);
    ForkRunKeeps(s, c, p);
    LockFreeMeans(s, z);
    SleepersFrame(s, t, c);
    WaitsFrame(s, t, c);
  }
}
