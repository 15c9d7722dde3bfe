/** Every step keeps parents, children and pids in order. */
module SchedFamily {
  import opened Prelude
  import opened Sched
  import opened SchedInv
  import opened SchedBase
  import opened SchedLocks

  /** The two points mean the same to parents and children. */
  predicate SameKin(a: Pc, b: Pc, n: nat) {
    ChildIn(a) == ChildIn(b) && Drawn(a) == Drawn(b) && At(a).ForkRun? == At(b).ForkRun?
        && Cleared(a, n) == Cleared(b, n)
  }

  predicate Reaps(s: State, c: nat) {
    c < |s.mode| && s.mode[c].Exec? && s.mode[c].p < |s.pc| && s.pc[s.mode[c].p].WaitReap?
  }

  lemma ReapingSame(s: State, t: State, c: nat, i: nat)
    requires Elsewhere(s, t, c) && !Reaps(s, c) && !Reaps(t, c)
    ensures Reaping(t, i) <==> Reaping(s, i)
  {
    if Reaping(s, i) { assert t.mode[s.held[Parents]] == s.mode[s.held[Parents]]; }
    if Reaping(t, i) { assert t.mode[t.held[Parents]] == s.mode[t.held[Parents]]; }
  }

  lemma FamilyFrame(s: State, t: State, c: nat)
    requires Elsewhere(s, t, c) && !Reaps(s, c) && !Reaps(t, c) && Family(s)
    requires t.life == s.life && t.pid == s.pid && t.next == s.next && t.parents == s.parents
    requires forall p: nat {:trigger t.pc[p]} :: p < |s.pc| && s.life[p] == Alive ==> SameKin(s.pc[p], t.pc[p], |s.st|)
    ensures Family(t)
  {
    forall p: nat | p < |t.st| ensures PidOk(t, p) && EmbryoOk(t, p) && ParentOk(t, p) {
      assert PidOk(s, p) && EmbryoOk(s, p) && ParentOk(s, p);
      ReapingSame(s, t, c, p);
    }
  }

  /** `exit` starts: `init` has no parent. */
  lemma ExitStartFamily(s: State, c: nat, p: nat)
    requires Base(s) && Family(s) && Runs(s, c, p) && s.pc[p].Work? && ParentsStart(s, c, p, ExitScan(1)).Some?
    ensures Family(ParentsStart(s, c, p, ExitScan(1)).value)
  {
    var t := ParentsStart(s, c, p, ExitScan(1)).value;
    OwnLocks(s, c, p);
    ExecElsewhere(s, t, c, p);
    forall i: nat ensures Reaping(t, i) <==> Reaping(s, i) { ReapingSame(s, t, c, i); }
    ScanStarts(s, t, p);
  }

  /** A thread that begins to give its children away has given none away. */
  lemma ScanStarts(s: State, t: State, p: nat)
    requires Sizes(s) && Sizes(t) && Family(s) && p < |s.st| && s.pc[p].Work?
    requires t == s.(pc := s.pc[p := ExitScan(1)], held := t.held, noff := t.noff)
    requires forall i: nat {:trigger Reaping(t, i)} :: Reaping(t, i) <==> Reaping(s, i)
    ensures Family(t)
  {
    forall i: nat | i < |t.st| ensures PidOk(t, i) && EmbryoOk(t, i) && ParentOk(t, i) {
      assert PidOk(s, i) && EmbryoOk(s, i) && ParentOk(s, i);
    }
  }

  /** Zombie `z` is freed by its parent. */
  lemma Bury(s: State, t: State, p: nat, z: nat)
    requires Sizes(s) && Sizes(t) && |t.st| == |s.st| && Family(s) && p < |s.st| && z < |s.st| && s.pc[p].WaitScan?
    requires s.life[z] == Gone && s.parents[z] == Some(p) && t.life == s.life[z := Free] && t.pid == s.pid[z := 0]
    requires t.next == s.next && t.parents == s.parents && t.pc == s.pc[p := WaitReap(z)]
    requires forall i: nat {:trigger Reaping(s, i)} :: !Reaping(s, i)
    requires forall i: nat {:trigger Reaping(t, i)} :: Reaping(t, i) <==> i == z
    ensures Family(t)
  {
    assert ParentOk(s, z);
    forall i: nat | i < |t.st| ensures PidOk(t, i) && EmbryoOk(t, i) && ParentOk(t, i) {
      assert PidOk(s, i) && EmbryoOk(s, i) && ParentOk(s, i);
    }
  }

  /** `wait` frees a zombie. */
  lemma ReapFamily(s: State, c: nat, p: nat)
    requires Base(s) && Family(s) && Runs(s, c, p) && s.pc[p].WaitScan? && s.pc[p].i < |s.st|
             && WaitStep(s, c, p, false, false).Some?
    requires s.parents[s.pc[p].i] == Some(p) && s.st[s.pc[p].i] == Zombie
    ensures Family(WaitStep(s, c, p, false, false).value)
  {
    OwnLocks(s, c, p);
    LockFreeMeans(s, s.pc[p].i);
    assert Parents in s.held && s.held[Parents] == c;
    Bury(s, WaitStep(s, c, p, false, false).value, p, s.pc[p].i);
  }

  /** `wait` forgets the child. */
  lemma WaitReapFamily(s: State, c: nat, p: nat)
    requires Base(s) && Family(s) && Runs(s, c, p) && s.pc[p].WaitReap? && s.pc[p].i < |s.parents|
    ensures Family(WaitReapStep(s, c, p).value)
  {
    var t, z := WaitReapStep(s, c, p).value, s.pc[p].i;
    OwnLocks(s, c, p);
    assert Reaping(s, z);
    forall i: nat | i < |t.st| ensures PidOk(t, i) && EmbryoOk(t, i) && ParentOk(t, i) {
      assert PidOk(s, i) && EmbryoOk(s, i) && ParentOk(s, i) && ParentOk(s, z);
      assert !Reaping(t, i) && (Reaping(s, i) <==> i == z);
    }
  }

  /** `p` has looked at entry `j`, and given it to `init` if it was a child. */
  lemma GiveAway(s: State, t: State, p: nat, j: nat)
    requires Sizes(s) && Sizes(t) && |t.st| == |s.st| && Family(s) && p < |s.st| && p != 0
    requires t.life == s.life && t.pid == s.pid && t.next == s.next && SameBut(s.pc, t.pc, p)
    requires s.pc[p] == ExitScan(j) && ChildIn(t.pc[p]) == None && Drawn(t.pc[p]) == None && !At(t.pc[p]).ForkRun?
    requires Cleared(s.pc[0], |s.st|) == 0
    requires if j < |s.st| && s.parents[j] == Some(p) then t.parents == s.parents[j := Some(0)]
             else t.parents == s.parents
    requires if j < |s.st| then Cleared(t.pc[p], |s.st|) == j + 1 else Cleared(t.pc[p], |s.st|) == j
    requires forall i: nat {:trigger Reaping(t, i)} :: Reaping(t, i) <==> Reaping(s, i)
    requires forall i: nat {:trigger Reaping(s, i)} :: !Reaping(s, i)
    ensures Family(t)
  {
    forall i: nat | i < |t.st| ensures PidOk(t, i) && EmbryoOk(t, i) && ParentOk(t, i) {
      assert PidOk(s, i) && EmbryoOk(s, i) && ParentOk(s, i);
    }
  }

  /** `exit` gives a child to `init`, or goes on. */
  lemma ExitScanFamily(s: State, c: nat, p: nat)
    requires Base(s) && Family(s) && Runs(s, c, p) && s.pc[p].ExitScan?
    ensures s.parents[p].Some? && Family(ExitScanStep(s, c, p))
  {
    assert ParentOk(s, p);
    OwnLocks(s, c, p);
    InitNotExiting(s);
    assert Parents in s.held && s.held[Parents] == c;
    GiveAway(s, ExitScanStep(s, c, p), p, s.pc[p].i);
  }

  lemma InitNotExiting(s: State)
    requires Base(s) && s.life[0] == Alive
    ensures Cleared(s.pc[0], |s.st|) == 0
  {
    assert PlaceOk(s.on[0], s.mode, 0, s.st[0], s.chan[0], s.life[0], s.pc[0], |s.on|, |s.locked|);
  }

  lemma PassAway(s: State, t: State, p: nat)
    requires Sizes(s) && Sizes(t) && |t.st| == |s.st| && Family(s) && p < |s.st| && p != 0 && s.pc[p].ExitZombie?
    requires s.life[p] == Alive && t.life == s.life[p := Gone] && t.pid == s.pid && t.next == s.next
             && t.parents == s.parents
    requires SameBut(s.pc, t.pc, p) && !At(t.pc[p]).ForkRun?
    requires forall i: nat {:trigger Reaping(t, i)} :: !Reaping(t, i)
    requires forall i: nat {:trigger Reaping(s, i)} :: !Reaping(s, i)
    ensures Family(t)
  {
    assert EmbryoOk(s, p) && ParentOk(s, p);
    forall i: nat | i < |t.st| ensures PidOk(t, i) && EmbryoOk(t, i) && ParentOk(t, i) {
      assert PidOk(s, i) && EmbryoOk(s, i) && ParentOk(s, i);
    }
  }

  lemma ExitZombieFamily(s: State, c: nat, p: nat)
    requires Base(s) && Family(s) && Runs(s, c, p) && s.pc[p].ExitZombie? && ExitZombieStep(s, c, p).Some?
    ensures Family(ExitZombieStep(s, c, p).value)
  {
    OwnLocks(s, c, p);
    assert Parents in s.held && s.held[Parents] == c;
    PassAway(s, ExitZombieStep(s, c, p).value, p);
  }

  lemma ForkStartFamily(s: State, c: nat, p: nat)
    requires Base(s) && Family(s) && Runs(s, c, p) && s.pc[p].Work?
    ensures Family(ForkStart(s, c, p))
  {
    OwnLocks(s, c, p);
    var t := ForkStart(s, c, p);
    ExecElsewhere(s, t, c, p);
    forall i: nat | i < |t.st| ensures PidOk(t, i) && EmbryoOk(t, i) && ParentOk(t, i) {
      assert PidOk(s, i) && EmbryoOk(s, i) && ParentOk(s, i);
      ReapingSame(s, t, c, i);
    }
  }

  /** Entry `z` becomes the embryo of a fork by `p`. */
  lemma Conceive(s: State, t: State, p: nat, z: nat)
    requires Sizes(s) && Sizes(t) && |t.st| == |s.st| && Family(s) && p < |s.st| && z < |s.st| && z != p
    requires s.life[p] == Alive && s.life[z] == Free && Drawn(s.pc[p]).Some?
    requires t.life == s.life[z := Embryo(p)] && t.pid == s.pid[z := Drawn(s.pc[p]).value] && t.next == s.next
             && t.parents == s.parents
    requires t.pc == s.pc[p := ForkCopy(z)][z := Parked(Work)]
    requires forall i: nat {:trigger Reaping(t, i)} :: Reaping(t, i) <==> Reaping(s, i)
    ensures Family(t)
  {
    assert PidOk(s, p) && EmbryoOk(s, p) && ParentOk(s, z);
    forall i: nat | i < |t.st| ensures PidOk(t, i) && EmbryoOk(t, i) && ParentOk(t, i) {
      assert PidOk(s, i) && EmbryoOk(s, i) && ParentOk(s, i);
    }
  }

  /** `p` is at a point without a child, a pid or an exit in the making. */
  lemma Settle(s: State, t: State, p: nat)
    requires Sizes(s) && Sizes(t) && |t.st| == |s.st| && Family(s) && p < |s.st|
    requires t.life == s.life && t.pid == s.pid && t.next == s.next && t.parents == s.parents && SameBut(s.pc, t.pc, p)
    requires s.pc[p].ForkFind? && (t.pc[p].Work? || (t.pc[p].ForkFind? && t.pc[p].pid == s.pc[p].pid))
    requires forall i: nat {:trigger Reaping(t, i)} :: Reaping(t, i) <==> Reaping(s, i)
    ensures Family(t)
  {
    assert PidOk(s, p) && EmbryoOk(s, p);
    forall i: nat | i < |t.st| ensures PidOk(t, i) && EmbryoOk(t, i) && ParentOk(t, i) {
      assert PidOk(s, i) && EmbryoOk(s, i) && ParentOk(s, i);
    }
  }

  lemma ReapingElsewhere(s: State, t: State, c: nat)
    requires Elsewhere(s, t, c) && !Reaps(s, c) && !Reaps(t, c)
    ensures forall i: nat {:trigger Reaping(t, i)} :: Reaping(t, i) <==> Reaping(s, i)
  {
    forall i: nat ensures Reaping(t, i) <==> Reaping(s, i) { ReapingSame(s, t, c, i); }
  }

  lemma ForkFindFamily(s: State, c: nat, p: nat, ok: bool)
    requires Base(s) && Family(s) && Runs(s, c, p) && s.pc[p].ForkFind? && ForkFindStep(s, c, p, ok).Some?
    ensures Family(ForkFindStep(s, c, p, ok).value)
  {
    OwnLocks(s, c, p);
    var t, z := ForkFindStep(s, c, p, ok).value, s.pc[p].i;
    if z < |s.st| && s.st[z] == Unused { LockFreeMeans(s, z); }
    ExecElsewhere(s, t, c, p);
    ReapingElsewhere(s, t, c);
    if z < |s.st| && s.st[z] == Unused && ok { Conceive(s, t, p, z); } else { Settle(s, t, p); }
  }

  /** The embryo of `p` is given up, or lives on. */
  lemma Miscarry(s: State, t: State, p: nat, z: nat, ok: bool)
    requires Sizes(s) && Sizes(t) && |t.st| == |s.st| && Family(s) && p < |s.st| && z < |s.st| && z != p
             && s.pc[p] == ForkCopy(z)
    requires s.life[p] == Alive && s.life[z] == Embryo(p) && t.next == s.next && t.parents == s.parents
    requires if ok then t.life == s.life && t.pid == s.pid && t.pc == s.pc[p := ForkParent(z)]
             else t.life == s.life[z := Free] && t.pid == s.pid[z := 0] && t.pc == s.pc[p := Work]
    requires z != 0
    requires forall i: nat {:trigger Reaping(t, i)} :: Reaping(t, i) <==> Reaping(s, i)
    ensures Family(t)
  {
    assert EmbryoOk(s, z) && ParentOk(s, z) && EmbryoOk(s, p);
    forall i: nat | i < |t.st| ensures PidOk(t, i) && EmbryoOk(t, i) && ParentOk(t, i) {
      assert PidOk(s, i) && EmbryoOk(s, i) && ParentOk(s, i);
    }
  }

  lemma ForkCopyFamily(s: State, c: nat, p: nat, ok: bool)
    requires Base(s) && Family(s) && Runs(s, c, p) && s.pc[p].ForkCopy? && s.pc[p].child < |s.st|
             && ForkCopyStep(s, c, p, ok).Some?
    ensures s.life[s.pc[p].child] == Embryo(p) && Family(ForkCopyStep(s, c, p, ok).value)
  {
    OwnLocks(s, c, p);
    var t, z := ForkCopyStep(s, c, p, ok).value, s.pc[p].child;
    assert EmbryoOk(s, p);
    ExecElsewhere(s, t, c, p);
    ReapingElsewhere(s, t, c);
    Miscarry(s, t, p, z, ok);
  }

  /** `p` records itself as the parent of its embryo. */
  lemma Adopt(s: State, t: State, p: nat, z: nat)
    requires Sizes(s) && Sizes(t) && |t.st| == |s.st| && Family(s) && p < |s.st| && z < |s.st| && z != p
             && s.pc[p] == ForkParent(z)
    requires s.life[p] == Alive && s.life[z] == Embryo(p) && t.life == s.life && t.pid == s.pid && t.next == s.next
    requires t.parents == s.parents[z := Some(p)] && t.pc == s.pc[p := ForkRun(z)]
    requires forall i: nat {:trigger Reaping(s, i)} :: !Reaping(s, i)
    requires forall i: nat {:trigger Reaping(t, i)} :: !Reaping(t, i)
    ensures Family(t)
  {
    assert EmbryoOk(s, z) && EmbryoOk(s, p) && ParentOk(s, z);
    forall i: nat | i < |t.st| ensures PidOk(t, i) && EmbryoOk(t, i) && ParentOk(t, i) {
      assert PidOk(s, i) && EmbryoOk(s, i) && ParentOk(s, i);
    }
  }

  lemma ForkParentFamily(s: State, c: nat, p: nat)
    requires Base(s) && Family(s) && Runs(s, c, p) && s.pc[p].ForkParent? && s.pc[p].child < |s.st|
             && ForkParentStep(s, c, p).Some?
    ensures Family(ForkParentStep(s, c, p).value)
  {
    OwnLocks(s, c, p);
    assert EmbryoOk(s, p);
    Adopt(s, ForkParentStep(s, c, p).value, p, s.pc[p].child);
  }

  /** The embryo of `p` is set going. */
  lemma Deliver(s: State, t: State, p: nat, z: nat)
    requires Sizes(s) && Sizes(t) && |t.st| == |s.st| && Family(s) && p < |s.st| && z < |s.st| && z != p
             && s.pc[p] == ForkRun(z)
    requires s.life[p] == Alive && s.life[z] == Embryo(p) && s.pc[z] == Parked(Work) && t.life == s.life[z := Alive]
             && t.pid == s.pid && t.next == s.next
    requires t.parents == s.parents && t.pc == s.pc[p := Work]
    requires forall i: nat {:trigger Reaping(t, i)} :: Reaping(t, i) <==> Reaping(s, i)
    ensures Family(t)
  {
    assert EmbryoOk(s, z) && EmbryoOk(s, p) && ParentOk(s, z);
    forall i: nat | i < |t.st| ensures PidOk(t, i) && EmbryoOk(t, i) && ParentOk(t, i) {
      assert PidOk(s, i) && EmbryoOk(s, i) && ParentOk(s, i);
    }
  }

  lemma ForkRunFamily(s: State, c: nat, p: nat)
    requires Base(s) && Family(s) && Runs(s, c, p) && s.pc[p].ForkRun? && s.pc[p].child < |s.st|
             && ForkRunStep(s, c, p).Some?
    ensures s.life[s.pc[p].child] == Embryo(p) && Family(ForkRunStep(s, c, p).value)
  {
    OwnLocks(s, c, p);
    var t, z := ForkRunStep(s, c, p).value, s.pc[p].child;
    assert EmbryoOk(s, p);
    LockFreeMeans(s, z);
    ExecElsewhere(s, t, c, p);
    ReapingElsewhere(s, t, c);
    Deliver(s, t, p, z);
  }
}
