/** What every step of the process machine keeps, part by part. */
module SchedInv {
  import opened Prelude
  import opened Sched

  // ---- Where a process is ----

  /** `sleep` is called from two places. */
  predicate SleepPair(lk: Lock, k: Pc, locks: nat) {
    (lk == Parents && k == WaitScan(0, false)) || (lk.Inner? && lk.l < locks && k == LockCheck(lk.l))
  }

  function ChanOf(p: nat, lk: Lock): Chan {
    if lk.Inner? then LockOf(lk.l) else ChildOf(p)
  }

  predicate Asleep(k: Pc, locks: nat) {
    k.Reacquire? && SleepPair(k.lk, k.k, locks)
  }

  predicate Interrupted(k: Pc, n: nat) {
    LockFree(k) && (k.ForkCopy? || k.ForkParent? || k.ForkRun? ==> k.child < n) && (k.ForkFind? ==> k.i <= n)
  }

  /** On the way to `swtch`, marked for what comes after it. */
  predicate Leaving(p: nat, st: ProcState, ch: Chan, life: Life, k: Pc, n: nat, locks: nat) {
    || (Interrupted(k, n) && st == Runnable && life == Alive)
    || (Asleep(k, locks) && st == Sleeping && ch == ChanOf(p, k.lk) && life == Alive)
    || (k.Dead? && st == Zombie && life == Gone)
  }

  predicate WakeOk(ch: Chan, k: Pc, n: nat, locks: nat) {
    || (k.LockFreed? && k.l < locks && ch == LockOf(k.l))
    || (k.ExitScan? && k.i <= n && ch == ChildOf(0))
    || (k.ExitZombie? && ch.ChildOf?)
  }

  /** The kernel thread of `p` runs. */
  predicate ExecOk(p: nat, st: ProcState, ch: Chan, life: Life, pc: Pc, n: nat, locks: nat) {
    match pc
    case Parked(_) => false
    case Dead => false
    case Switching(k) => Leaving(p, st, ch, life, k, n, locks)
    case SleepUnlock(lk, k) => st == Sleeping && life == Alive && ch == ChanOf(p, lk) && SleepPair(lk, k, locks)
    case ExitUnlock => st == Zombie && life == Gone && p != 0
    case _ =>
      && st == Running && life == Alive
      && match pc
         case Resumed(k) => Interrupted(k, n) || Asleep(k, locks)
         case Reacquire(lk, k) => SleepPair(lk, k, locks)
         case Awake(lk, k) => SleepPair(lk, k, locks)
         case Waking(i, ch', k) => i <= n && WakeOk(ch', k, n, locks) && (!k.LockFreed? ==> p != 0)
         case LockCheck(l) => l < locks
         case LockFreed(l) => l < locks
         case WaitScan(i, _) => i <= n
         case WaitReap(i) => i < n
         case ExitScan(i) => i <= n && p != 0
         case ExitZombie => p != 0
         case _ => Interrupted(pc, n)
  }

  /** No CPU runs `p`. */
  predicate OffOk(p: nat, st: ProcState, ch: Chan, life: Life, pc: Pc, n: nat, locks: nat) {
    match life
    case Free => st == Unused
    case Embryo(_) => st == Allocated && pc == Parked(Work)
    case Gone => st == Zombie && pc == Parked(Dead)
    case Alive =>
      && pc.Parked?
      && ((Interrupted(pc.k, n) && st == Runnable)
          || (Asleep(pc.k, locks) && (st == Runnable || (st == Sleeping && ch == ChanOf(p, pc.k.lk)))))
  }

  predicate ModeOk(m: Mode, p: nat, st: ProcState, ch: Chan, life: Life, pc: Pc, n: nat, locks: nat) {
    !m.Scan? && m.p == p &&
    match m
    case Scan(_) => false
    case Picked(_) => st == Allocated && life == Alive && pc.Parked? && (Interrupted(pc.k, n) || Asleep(pc.k, locks))
    case Ready(_) => st == Running && life == Alive && pc.Parked? && (Interrupted(pc.k, n) || Asleep(pc.k, locks))
    case Exec(_) => ExecOk(p, st, ch, life, pc, n, locks)
    case Saved(_) => pc.Parked? && Leaving(p, st, ch, life, pc.k, n, locks)
    case Back(_) => pc.Parked? && Leaving(p, st, ch, life, pc.k, n, locks)
  }

  predicate PlaceOk(on: Option<nat>, mode: seq<Mode>, p: nat, st: ProcState, ch: Chan, life: Life, pc: Pc,
                    n: nat, locks: nat) {
    match on
    case None => OffOk(p, st, ch, life, pc, n, locks)
    case Some(c) => c < |mode| && ModeOk(mode[c], p, st, ch, life, pc, n, locks)
  }

  ghost predicate Places(mode: seq<Mode>, on: seq<Option<nat>>, st: seq<ProcState>, chan: seq<Chan>, life: seq<Life>,
                         pc: seq<Pc>, locks: nat)
    requires |on| == |st| == |chan| == |life| == |pc|
  {
    && (forall p: nat {:trigger on[p]} :: p < |on| ==>
          PlaceOk(on[p], mode, p, st[p], chan[p], life[p], pc[p], |on|, locks))
    && (forall c: nat {:trigger mode[c]} :: c < |mode| && !mode[c].Scan? ==>
          mode[c].p < |on| && on[mode[c].p] == Some(c))
    && (forall c: nat {:trigger mode[c]} :: c < |mode| && mode[c].Scan? ==> mode[c].i <= |on|)
  }

  // ---- Who holds which spin lock ----

  /** A kernel thread at `pc` holds the lock of its process. */
  predicate OwnHeld(pc: Pc) {
    pc.Switching? || pc.Resumed? || pc.SleepUnlock? || pc.Reacquire? || pc.Awake? || pc.ExitUnlock?
  }

  /** The other lock it holds, if any. */
  function OtherHeld(pc: Pc): Option<Lock> {
    match pc
    case SleepUnlock(lk, _) => Some(lk)
    case Awake(lk, _) => Some(lk)
    case Waking(_, _, k) => if k.LockFreed? then Some(Inner(k.l)) else Some(Parents)
    case LockCheck(l) => Some(Inner(l))
    case LockFreed(l) => Some(Inner(l))
    case WaitScan(_, _) => Some(Parents)
    case WaitReap(_) => Some(Parents)
    case ExitScan(_) => Some(Parents)
    case ExitZombie => Some(Parents)
    case ExitUnlock => Some(Parents)
    case _ => None
  }

  predicate PcHolds(p: nat, pc: Pc, lk: Lock) {
    (lk == ProcLock(p) && OwnHeld(pc)) || OtherHeld(pc) == Some(lk)
  }

  /** CPU `c` holds `lk`, going by what it is doing. */
  predicate Holding(mode: seq<Mode>, pc: seq<Pc>, c: nat, lk: Lock) {
    c < |mode| &&
    match mode[c]
    case Scan(_) => false
    case Picked(_) => false
    case Exec(p) => p < |pc| && PcHolds(p, pc[p], lk)
    case _ => lk == ProcLock(mode[c].p)
  }

  function Depth(m: Mode, pc: seq<Pc>): nat {
    match m
    case Scan(_) => 0
    case Picked(_) => 0
    case Exec(p) => if p < |pc| then (if OwnHeld(pc[p]) then 1 else 0) + (if OtherHeld(pc[p]).Some? then 1 else 0)
        else 0
    case _ => 1
  }

  ghost predicate LocksOk(mode: seq<Mode>, pc: seq<Pc>, held: map<Lock, nat>, noff: seq<nat>)
    requires |noff| == |mode|
  {
    && (forall c: nat, lk {:trigger Holding(mode, pc, c, lk)} :: Holding(mode, pc, c, lk) ==>
          lk in held && held[lk] == c)
    && (forall lk {:trigger lk in held} :: lk in held ==> Holding(mode, pc, held[lk], lk))
    && (forall c: nat {:trigger noff[c]} :: c < |mode| ==> noff[c] == Depth(mode[c], pc))
  }

  ghost predicate Base(s: State) {
    && Sizes(s) && !s.bad && |s.st| > 0
    && Places(s.mode, s.on, s.st, s.chan, s.life, s.pc, |s.locked|)
    && LocksOk(s.mode, s.pc, s.held, s.noff)
  }

  // ---- Parents and children ----

  /** Where a kernel thread goes on, whether or not it is interrupted. */
  function At(pc: Pc): Pc {
    match pc
    case Switching(k) => k
    case Parked(k) => k
    case Resumed(k) => k
    case _ => pc
  }

  /** The child a fork has allocated and not yet set going. */
  function ChildIn(pc: Pc): Option<nat> {
    match At(pc)
    case ForkCopy(i) => Some(i)
    case ForkParent(i) => Some(i)
    case ForkRun(i) => Some(i)
    case _ => None
  }

  /** The pid a fork has drawn. */
  function Drawn(pc: Pc): Option<nat> {
    if At(pc).ForkFind? then Some(At(pc).pid) else None
  }

  /** How far an exit has come in giving its children away. */
  function Cleared(pc: Pc, n: nat): nat {
    match pc
    case ExitScan(i) => i
    case ExitZombie => n
    case Waking(_, _, k) => if k.ExitScan? then k.i else if k.ExitZombie? then n else 0
    case _ => 0
  }

  /** The holder of `parents` is in `wait` and has just freed process `i`. */
  predicate Reaping(s: State, i: nat) {
    && Parents in s.held && s.held[Parents] < |s.mode| && s.mode[s.held[Parents]].Exec?
    && var p := s.mode[s.held[Parents]].p; p < |s.pc| && s.pc[p] == WaitReap(i)
  }

  predicate PidOk(s: State, p: nat)
    requires Sizes(s) && p < |s.st|
  {
    && (if s.life[p] == Free then s.pid[p] == 0 else s.pid[p] < s.next && (p != 0 ==> 0 < s.pid[p]))
    && (s.life[p] == Alive && Drawn(s.pc[p]).Some? ==> s.pid[p] < Drawn(s.pc[p]).value < s.next)
  }

  /** An embryo and the fork that makes it know each other. */
  predicate EmbryoOk(s: State, p: nat)
    requires Sizes(s) && p < |s.st|
  {
    && (s.life[p].Embryo? ==>
          var q := s.life[p].forker;
          q < |s.st| && s.life[q] == Alive && ChildIn(s.pc[q]) == Some(p) && s.pid[q] < s.pid[p])
    && (s.life[p] == Alive && ChildIn(s.pc[p]).Some? ==>
          var i := ChildIn(s.pc[p]).value;
          i < |s.st| && s.life[i] == Embryo(p) && (At(s.pc[p]).ForkRun? ==> s.parents[i] == Some(p)))
  }

  /** The fork that makes embryo `i` has not recorded itself as its parent yet. */
  predicate Unrecorded(s: State, i: nat)
    requires Sizes(s) && i < |s.st|
  {
    s.life[i].Embryo? ==> s.life[i].forker < |s.pc| && !At(s.pc[s.life[i].forker]).ForkRun?
  }

  predicate ParentOk(s: State, i: nat)
    requires Sizes(s) && i < |s.st|
  {
    && (s.parents[i].Some? ==>
          var q := s.parents[i].value;
          && i != 0 && q < |s.st| && s.life[q] == Alive && i >= Cleared(s.pc[q], |s.st|)
          && (if s.life[i] == Free || (s.life[i].Embryo? && Unrecorded(s, i)) then Reaping(s, i)
              else s.pid[q] < s.pid[i]))
    && (i != 0 && (s.life[i] == Alive || s.life[i] == Gone) ==> s.parents[i].Some?)
    && (Reaping(s, i) ==> s.life[i] == Free || (s.life[i].Embryo? && Unrecorded(s, i)))
  }

  ghost predicate Family(s: State)
    requires Sizes(s)
  {
    && |s.st| > 0 && s.life[0] == Alive && s.pid[0] == 0 && s.next > 0
    && (forall p: nat {:trigger PidOk(s, p)} :: p < |s.st| ==> PidOk(s, p))
    && (forall p: nat {:trigger EmbryoOk(s, p)} :: p < |s.st| ==> EmbryoOk(s, p))
    && (forall i: nat {:trigger ParentOk(s, i)} :: i < |s.st| ==> ParentOk(s, i))
  }

  // ---- Nothing is slept through ----

  /** The holder of `lk` is in `wakeup` on `ch` and has yet to come to process `x`. */
  predicate WakingAt(s: State, lk: Lock, ch: Chan, x: nat) {
    && lk in s.held && s.held[lk] < |s.mode| && s.mode[s.held[lk]].Exec?
    && var p := s.mode[s.held[lk]].p; p < |s.pc| && s.pc[p].Waking? && s.pc[p].ch == ch && s.pc[p].i <= x
  }

  predicate SleepsOn(s: State, p: nat, ch: Chan) {
    p < |s.st| && p < |s.chan| && s.st[p] == Sleeping && s.chan[p] == ch
  }

  predicate ZombieChild(s: State, p: nat, i: nat) {
    i < |s.st| && i < |s.parents| && s.st[i] == Zombie && s.parents[i] == Some(p)
  }

  /** What a thread that holds `parents` relies on. */
  predicate ScanOk(s: State, p: nat)
    requires Sizes(s) && p < |s.st|
  {
    match s.pc[p]
    case Waking(j, ch, ExitZombie) => ch.ChildOf? && s.parents[p] == Some(ch.p) && (SleepsOn(s, ch.p, ch) ==> j <= ch.p)
    case ExitZombie => s.parents[p].Some? ==> !SleepsOn(s, s.parents[p].value, ChildOf(s.parents[p].value))
    case _ => true
  }

  ghost predicate Waits(s: State)
    requires Sizes(s)
  {
    && (forall p: nat, i: nat {:trigger ZombieChild(s, p, i)} ::
          ZombieChild(s, p, i) && SleepsOn(s, p, ChildOf(p)) ==> WakingAt(s, Parents, ChildOf(p), p))
    && (forall p: nat, i: nat {:trigger ZombieChild(s, p, i)} ::
          ZombieChild(s, p, i) && p < |s.st| && s.life[p] == Alive && s.pc[p].WaitScan? ==> s.pc[p].i <= i)
    && (forall p: nat {:trigger ScanOk(s, p)} :: p < |s.st| && s.life[p] == Alive ==> ScanOk(s, p))
  }

  // ---- Sleep locks ----

  /** A guard stands for a locked sleep lock, and for no other guard's. */
  ghost predicate Guarded(holds: seq<set<nat>>, locked: seq<bool>, life: seq<Life>)
    requires |life| == |holds|
  {
    && (forall p: nat, l: nat {:trigger l in holds[p]} :: p < |holds| && l in holds[p] ==>
          l < |locked| && locked[l] && (life[p] == Alive || life[p] == Gone))
    && (forall p: nat, q: nat, l: nat {:trigger l in holds[p], l in holds[q]} ::
          p < |holds| && q < |holds| && l in holds[p] && l in holds[q] ==> p == q)
  }

  /** A process sleeps on a sleep lock that is locked, or that is just being unlocked. */
  ghost predicate Sleepers(s: State)
    requires Sizes(s)
  {
    forall p: nat, l: nat {:trigger SleepsOn(s, p, LockOf(l))} :: l < |s.locked| && SleepsOn(s, p, LockOf(l)) ==>
      s.locked[l] || WakingAt(s, Inner(l), LockOf(l), p)
  }

  ghost predicate Inv(s: State) {
    Base(s) && Family(s) && Waits(s) && Guarded(s.holds, s.locked, s.life) && Sleepers(s)
  }
}
