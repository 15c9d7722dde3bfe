/**
  Processes on several CPUs: the scheduler loop, the context switch, yield, sleep and wakeup, sleep locks,
  fork, exit and wait (kernel/src/cpu.rs, process.rs, proc.rs, sleeplock.rs, spinlock.rs).

  A step is what one CPU does between two points where another could interfere: it takes or gives back
  a spin lock, switches stacks, or runs a critical section that is one lock, one update, one unlock.
  A step that needs a lock another CPU holds is disabled.  Where the code would panic, `bad` is set.
*/
module Sched {
  import opened Prelude

  datatype Lock = ProcLock(p: nat) | Parents | Inner(l: nat)

  /** What a process sleeps on: its own entry in `wait`, the `locked` flag in `SleepLock::lock`. */
  datatype Chan = NoChan | ChildOf(p: nat) | LockOf(l: nat)

  datatype ProcState = Unused | Allocated | Runnable | Running | Sleeping | Zombie

  /** Where the kernel thread of a process is; `k` is where it goes on. */
  datatype Pc =
    | Work // no spin lock held, possibly in user mode
    | Switching(k: Pc) // in `sched`, before `swtch`
    | Parked(k: Pc) // its context is saved
    | Resumed(k: Pc) // just switched to, holding its own lock
    | SleepUnlock(lk: Lock, k: Pc) // in `sleep`, marked as sleeping, before `weak`
    | Reacquire(lk: Lock, k: Pc) // in `sleep`, woken up, before `weaked.lock()`
    | Awake(lk: Lock, k: Pc) // at the end of `sleep`, both locks held
    | Waking(i: nat, ch: Chan, k: Pc) // in `wakeup`, at process `i`
    | LockCheck(l: nat) // the loop head of `SleepLock::lock`
    | LockFreed(l: nat) // the end of `SleepLock::unlock`
    | WaitScan(i: nat, kids: bool) // the loop of `wait`, at process `i`
    | WaitReap(i: nat) // in `wait`, child `i` freed
    | ExitScan(i: nat) // the loop of `exit`, at process `i`
    | ExitZombie // in `exit`, before its own lock
    | ExitUnlock // in `exit`, a zombie still holding `parents`
    | Dead
    | ForkFind(i: nat, pid: nat) // in `alloc_proc`, at process `i`
    | ForkCopy(child: nat)
    | ForkParent(child: nat)
    | ForkRun(child: nat)

  /** What a CPU runs: its scheduler loop, or the kernel thread of a process. */
  datatype Mode =
    | Scan(i: nat) // `find_runnable`, at process `i`
    | Picked(p: nat) // `cpu.proc` is set, the process marked as allocated
    | Ready(p: nat) // its lock taken, before `swtch`
    | Exec(p: nat) // on the stack of the process
    | Saved(p: nat) // in `swtch`, the context of the process saved
    | Back(p: nat) // in the scheduler again, the lock still held

  /** Whose a table entry is: nobody's, a fork's that is not done, a process's, a zombie's. */
  datatype Life = Free | Embryo(forker: nat) | Alive | Gone

  /**
    One entry per CPU in `mode` and `noff`, per process in `st` to `holds`, per sleep lock in `locked`.
    `held` gives the CPU that holds a spin lock.  `life` and `on`, the CPU a process is on, are history.
  */
  datatype State = State(
    mode: seq<Mode>, noff: seq<nat>, held: map<Lock, nat>,
    st: seq<ProcState>, chan: seq<Chan>, pid: seq<nat>, pc: seq<Pc>, life: seq<Life>, on: seq<Option<nat>>,
        holds: seq<set<nat>>,
    locked: seq<bool>, parents: seq<Option<nat>>, next: nat, bad: bool)

  ghost predicate Sizes(s: State) {
    && |s.noff| == |s.mode|
    && |s.st| == |s.chan| == |s.pid| == |s.pc| == |s.life| == |s.on| == |s.holds| == |s.parents|
  }

  // ---- Spin locks ----

  /** `acquire`: disabled while another CPU has the lock, a panic if this one has it. */
  function Take(s: State, c: nat, lk: Lock): Option<State>
    requires c < |s.noff|
  {
    if lk !in s.held then Some(s.(held := s.held[lk := c], noff := s.noff[c := s.noff[c] + 1]))
    else if s.held[lk] == c then Some(s.(bad := true))
    else None
  }

  /** `release`: a panic if this CPU does not have the lock. */
  function Give(s: State, c: nat, lk: Lock): State
    requires c < |s.noff|
  {
    if lk in s.held && s.held[lk] == c
        && s.noff[c] > 0 then s.(held := s.held - {lk}, noff := s.noff[c := s.noff[c] - 1])
    else s.(bad := true)
  }

  /** A critical section of one update, which leads to `t`. */
  function Brief(s: State, c: nat, lk: Lock, t: State): Option<State> {
    if lk !in s.held then Some(t) else if s.held[lk] == c then Some(s.(bad := true)) else None
  }

  function Jump(s: State, p: nat, pc: Pc): State
    requires p < |s.pc|
  {
    s.(pc := s.pc[p := pc])
  }

  // ---- The scheduler ----

  function ScanStep(s: State, c: nat): Option<State>
    requires Sizes(s) && c < |s.mode| && s.mode[c].Scan?
  {
    var i := s.mode[c].i;
    if i >= |s.st| then Some(s.(mode := s.mode[c := Scan(0)]))
    else Brief(s, c, ProcLock(i),
      if s.st[i] == Runnable then
            s.(st := s.st[i := Allocated], mode := s.mode[c := Picked(i)], on := s.on[i := Some(c)])
      else s.(mode := s.mode[c := Scan(i + 1)]))
  }

  function DispatchStep(s: State, c: nat): Option<State>
    requires Sizes(s) && c < |s.mode| && s.mode[c].Picked? && s.mode[c].p < |s.st|
  {
    var p := s.mode[c].p;
    var t := Take(s, c, ProcLock(p));
    if t.None? || t.value.bad then t else Some(t.value.(st := s.st[p := Running], mode := s.mode[c := Ready(p)]))
  }

  /** The load half of `swtch`: what is loaded had better be saved. */
  function LoadStep(s: State, c: nat): State
    requires Sizes(s) && c < |s.mode| && s.mode[c].Ready? && s.mode[c].p < |s.pc|
  {
    var p := s.mode[c].p;
    if s.pc[p].Parked? then Jump(s, p, Resumed(s.pc[p].k)).(mode := s.mode[c := Exec(p)])
    else s.(bad := true)
  }

  function ReturnStep(s: State, c: nat): State
    requires Sizes(s) && c < |s.mode| && s.mode[c].Saved?
  {
    s.(mode := s.mode[c := Back(s.mode[c].p)])
  }

  function ReleaseStep(s: State, c: nat): State
    requires Sizes(s) && c < |s.mode| && s.mode[c].Back? && s.mode[c].p < |s.on|
  {
    var p := s.mode[c].p;
    var t := Give(s, c, ProcLock(p));
    if t.bad then t else t.(mode := s.mode[c := Scan(0)], on := s.on[p := None])
  }

  // ---- Giving up the CPU ----

  /** Points where the timer may interrupt a kernel thread. */
  predicate LockFree(pc: Pc) {
    pc.Work? || pc.ForkFind? || pc.ForkCopy? || pc.ForkParent? || pc.ForkRun?
  }

  predicate Runs(s: State, c: nat, p: nat) {
    c < |s.mode| && p < |s.st| && s.mode[c] == Exec(p)
  }

  function YieldStep(s: State, c: nat, p: nat): Option<State>
    requires Sizes(s) && Runs(s, c, p) && LockFree(s.pc[p])
  {
    var t := Take(s, c, ProcLock(p));
    if t.None? || t.value.bad then t
    else if s.st[p] == Running then Some(Jump(t.value, p, Switching(s.pc[p])).(st := s.st[p := Runnable]))
    else Some(s)
  }

  /** `sched` up to the save half of `swtch`. */
  function SaveStep(s: State, c: nat, p: nat): State
    requires Sizes(s) && Runs(s, c, p) && s.pc[p].Switching?
  {
    if s.noff[c] != 1 || s.st[p] == Running then s.(bad := true)
    else Jump(s, p, Parked(s.pc[p].k)).(mode := s.mode[c := Saved(p)])
  }

  /** Back in `yield_process`, in `sleep`, or for the first time in `forkret`. */
  function ResumeStep(s: State, c: nat, p: nat): State
    requires Sizes(s) && Runs(s, c, p) && s.pc[p].Resumed?
  {
    var k := s.pc[p].k;
    if k.Reacquire? then Jump(s, p, k).(chan := s.chan[p := NoChan])
    else
      var t := Give(s, c, ProcLock(p));
      if t.bad then t else Jump(t, p, k)
  }

  // ---- Sleep and wakeup ----

  /** The first half of `sleep`, called with `lk` held. */
  function SleepStart(s: State, c: nat, p: nat, ch: Chan, lk: Lock, k: Pc): Option<State>
    requires Sizes(s) && Runs(s, c, p)
  {
    var t := Take(s, c, ProcLock(p));
    if t.None? || t.value.bad then t
    else Some(Jump(t.value, p, SleepUnlock(lk, k)).(chan := s.chan[p := ch], st := s.st[p := Sleeping]))
  }

  function SleepUnlockStep(s: State, c: nat, p: nat): State
    requires Sizes(s) && Runs(s, c, p) && s.pc[p].SleepUnlock?
  {
    var t := Give(s, c, s.pc[p].lk);
    if t.bad then t else Jump(t, p, Switching(Reacquire(s.pc[p].lk, s.pc[p].k)))
  }

  function ReacquireStep(s: State, c: nat, p: nat): Option<State>
    requires Sizes(s) && Runs(s, c, p) && s.pc[p].Reacquire?
  {
    var t := Take(s, c, s.pc[p].lk);
    if t.None? || t.value.bad then t else Some(Jump(t.value, p, Awake(s.pc[p].lk, s.pc[p].k)))
  }

  function AwakeStep(s: State, c: nat, p: nat): State
    requires Sizes(s) && Runs(s, c, p) && s.pc[p].Awake?
  {
    var t := Give(s, c, ProcLock(p));
    if t.bad then t else Jump(t, p, s.pc[p].k)
  }

  function WakeStep(s: State, c: nat, p: nat): Option<State>
    requires Sizes(s) && Runs(s, c, p) && s.pc[p].Waking?
  {
    var w := s.pc[p];
    if w.i >= |s.st| then Some(Jump(s, p, w.k))
    else
      var t := Jump(s, p, Waking(w.i + 1, w.ch, w.k));
      if w.i == p then Some(t)
      else Brief(s, c, ProcLock(w.i), if s.st[w.i] == Sleeping
                 && s.chan[w.i] == w.ch then t.(st := s.st[w.i := Runnable]) else t)
  }

  // ---- Sleep locks ----

  function LockStart(s: State, c: nat, p: nat, l: nat): Option<State>
    requires Sizes(s) && Runs(s, c, p) && s.pc[p].Work? && l < |s.locked|
  {
    var t := Take(s, c, Inner(l));
    if t.None? || t.value.bad then t else Some(Jump(t.value, p, LockCheck(l)))
  }

  function LockCheckStep(s: State, c: nat, p: nat): Option<State>
    requires Sizes(s) && Runs(s, c, p) && s.pc[p].LockCheck? && s.pc[p].l < |s.locked|
  {
    var l := s.pc[p].l;
    if s.locked[l] then SleepStart(s, c, p, LockOf(l), Inner(l), LockCheck(l))
    else
      var t := Give(s, c, Inner(l));
      Some(if t.bad then t
           else Jump(t, p, Work).(locked := s.locked[l := true], holds := s.holds[p := s.holds[p] + {l}]))
  }

  function UnlockStart(s: State, c: nat, p: nat, l: nat): Option<State>
    requires Sizes(s) && Runs(s, c, p) && s.pc[p].Work? && l in s.holds[p] && l < |s.locked|
  {
    var t := Take(s, c, Inner(l));
    if t.None? || t.value.bad then t
    else Some(Jump(t.value, p, Waking(0, LockOf(l), LockFreed(l))).(locked := s.locked[l := false],
                                                                    holds := s.holds[p := s.holds[p] - {l}]))
  }

  function UnlockEnd(s: State, c: nat, p: nat): State
    requires Sizes(s) && Runs(s, c, p) && s.pc[p].LockFreed?
  {
    var t := Give(s, c, Inner(s.pc[p].l));
    if t.bad then t else Jump(t, p, Work)
  }

  // ---- wait ----

  function ParentsStart(s: State, c: nat, p: nat, pc: Pc): Option<State>
    requires Sizes(s) && Runs(s, c, p) && s.pc[p].Work?
  {
    var t := Take(s, c, Parents);
    if t.None? || t.value.bad then t else Some(Jump(t.value, p, pc))
  }

  function ParentsEnd(s: State, c: nat, p: nat, pc: Pc): State
    requires Sizes(s) && Runs(s, c, p)
  {
    var t := Give(s, c, Parents);
    if t.bad then t else Jump(t, p, pc)
  }

  /** `Proc::free`, for what the process table shows of it. */
  function Freed(s: State, p: nat): State
    requires Sizes(s) && p < |s.st|
  {
    s.(st := s.st[p := Unused], chan := s.chan[p := NoChan], pid := s.pid[p := 0], life := s.life[p := Free],
       holds := s.holds[p := {}])
  }

  /** `fails`: the exit status cannot be copied out. */
  function WaitStep(s: State, c: nat, p: nat, fails: bool, killed: bool): Option<State>
    requires Sizes(s) && Runs(s, c, p) && s.pc[p].WaitScan?
  {
    var i, kids := s.pc[p].i, s.pc[p].kids;
    if i >= |s.st| then
      if !kids || killed then
        if ProcLock(p) in s.held then Brief(s, c, ProcLock(p), s) else Some(ParentsEnd(s, c, p, Work))
      else SleepStart(s, c, p, ChildOf(p), Parents, WaitScan(0, false))
    else if s.parents[i] != Some(p) then Some(Jump(s, p, WaitScan(i + 1, kids)))
    else if s.st[i] != Zombie then Brief(s, c, ProcLock(i), Jump(s, p, WaitScan(i + 1, true)))
    else if fails then Brief(s, c, ProcLock(i), ParentsEnd(s, c, p, Work))
    else Brief(s, c, ProcLock(i), Freed(Jump(s, p, WaitReap(i)), i))
  }

  function WaitReapStep(s: State, c: nat, p: nat): Option<State>
    requires Sizes(s) && Runs(s, c, p) && s.pc[p].WaitReap? && s.pc[p].i < |s.parents|
  {
    var t := ParentsEnd(s, c, p, Work);
    Some(if t.bad then t else t.(parents := s.parents[s.pc[p].i := None]))
  }

  // ---- exit ----

  function ExitScanStep(s: State, c: nat, p: nat): State
    requires Sizes(s) && Runs(s, c, p) && s.pc[p].ExitScan?
  {
    var i := s.pc[p].i;
    if i >= |s.st| then
      if s.parents[p].None? then s.(bad := true)
      else Jump(s, p, Waking(0, ChildOf(s.parents[p].value), ExitZombie))
    else if s.parents[i] == Some(p) then
      Jump(s, p, Waking(0, ChildOf(0), ExitScan(i + 1))).(parents := s.parents[i := Some(0)])
    else Jump(s, p, ExitScan(i + 1))
  }

  function ExitZombieStep(s: State, c: nat, p: nat): Option<State>
    requires Sizes(s) && Runs(s, c, p) && s.pc[p].ExitZombie?
  {
    var t := Take(s, c, ProcLock(p));
    if t.None? || t.value.bad then t
    else Some(Jump(t.value, p, ExitUnlock).(st := s.st[p := Zombie], life := s.life[p := Gone]))
  }

  // ---- fork ----

  function ForkStart(s: State, c: nat, p: nat): State
    requires Sizes(s) && Runs(s, c, p) && s.pc[p].Work?
  {
    Jump(s, p, ForkFind(0, s.next)).(next := s.next + 1)
  }

  /** `ok`: there is memory for the page table. */
  function ForkFindStep(s: State, c: nat, p: nat, ok: bool): Option<State>
    requires Sizes(s) && Runs(s, c, p) && s.pc[p].ForkFind?
  {
    var i := s.pc[p].i;
    if i >= |s.st| then Some(Jump(s, p, Work))
    else if s.st[i] != Unused then Brief(s, c, ProcLock(i), Jump(s, p, ForkFind(i + 1, s.pc[p].pid)))
    else if !ok then Brief(s, c, ProcLock(i), Jump(s, p, Work))
    else Brief(s, c, ProcLock(i),
      Jump(Jump(s, p, ForkCopy(i)), i, Parked(Work)).(
        st := s.st[i := Allocated], pid := s.pid[i := s.pc[p].pid], life := s.life[i := Embryo(p)]))
  }

  /** `ok`: there is memory for the copy. */
  function ForkCopyStep(s: State, c: nat, p: nat, ok: bool): Option<State>
    requires Sizes(s) && Runs(s, c, p) && s.pc[p].ForkCopy? && s.pc[p].child < |s.st|
  {
    var i := s.pc[p].child;
    Brief(s, c, ProcLock(i), if ok then Jump(s, p, ForkParent(i)) else Freed(Jump(s, p, Work), i))
  }

  function ForkParentStep(s: State, c: nat, p: nat): Option<State>
    requires Sizes(s) && Runs(s, c, p) && s.pc[p].ForkParent? && s.pc[p].child < |s.st|
  {
    var i := s.pc[p].child;
    Brief(s, c, Parents, Jump(s, p, ForkRun(i)).(parents := s.parents[i := Some(p)]))
  }

  function ForkRunStep(s: State, c: nat, p: nat): Option<State>
    requires Sizes(s) && Runs(s, c, p) && s.pc[p].ForkRun? && s.pc[p].child < |s.st|
  {
    var i := s.pc[p].child;
    Brief(s, c, ProcLock(i), Jump(s, p, Work).(st := s.st[i := Runnable], life := s.life[i := Alive]))
  }

  // ---- The machine ----

  /** What a kernel thread may start, or how a step turns out. */
  datatype Choice = Go | Yield | Lock(l: nat) | Unlock(l: nat) | Wait | Exit | Fork | Fail | Killed

  datatype Step = Step(c: nat, choice: Choice)

  ghost predicate WellFormed(s: State) {
    && Sizes(s)
    && (forall c: nat {:trigger s.mode[c]} :: c < |s.mode| && !s.mode[c].Scan? ==> s.mode[c].p < |s.st|)
    && (forall c: nat {:trigger s.mode[c]} :: c < |s.mode| && s.mode[c].Exec? ==>
          PcOk(s.pc[s.mode[c].p], |s.st|, |s.locked|))
    && (forall p: nat, l: nat {:trigger l in s.holds[p]} :: p < |s.holds| && l in s.holds[p] ==> l < |s.locked|)
  }

  /** The indices in a `Pc` are in range. */
  predicate PcOk(pc: Pc, n: nat, locks: nat) {
    match pc
    case LockCheck(l) => l < locks
    case WaitReap(i) => i < n
    case ForkCopy(child) => child < n
    case ForkParent(child) => child < n
    case ForkRun(child) => child < n
    case _ => true
  }

  function Next(s: State, e: Step): Option<State>
    requires WellFormed(s)
  {
    if s.bad || e.c >= |s.mode| then None
    else
      match s.mode[e.c]
      case Scan(_) => ScanStep(s, e.c)
      case Picked(_) => DispatchStep(s, e.c)
      case Ready(_) => Some(LoadStep(s, e.c))
      case Saved(_) => Some(ReturnStep(s, e.c))
      case Back(_) => Some(ReleaseStep(s, e.c))
      case Exec(p) => if e.choice == Yield && LockFree(s.pc[p]) then YieldStep(s, e.c, p)
          else ExecStep(s, e.c, p, e.choice)
  }

  /** A step of the kernel thread of `p`. */
  function ExecStep(s: State, c: nat, p: nat, choice: Choice): Option<State>
    requires WellFormed(s) && Runs(s, c, p)
  {
    match s.pc[p]
    case Work => WorkStep(s, c, p, choice)
    case Switching(_) => Some(SaveStep(s, c, p))
    case Resumed(_) => Some(ResumeStep(s, c, p))
    case SleepUnlock(_, _) => Some(SleepUnlockStep(s, c, p))
    case Reacquire(_, _) => ReacquireStep(s, c, p)
    case Awake(_, _) => Some(AwakeStep(s, c, p))
    case Waking(_, _, _) => WakeStep(s, c, p)
    case LockCheck(_) => LockCheckStep(s, c, p)
    case LockFreed(_) => Some(UnlockEnd(s, c, p))
    case WaitScan(_, _) => WaitStep(s, c, p, choice == Fail, choice == Killed)
    case WaitReap(_) => WaitReapStep(s, c, p)
    case ExitScan(_) => Some(ExitScanStep(s, c, p))
    case ExitZombie => ExitZombieStep(s, c, p)
    case ExitUnlock => Some(ParentsEnd(s, c, p, Switching(Dead)))
    case ForkFind(_, _) => ForkFindStep(s, c, p, choice != Fail)
    case ForkCopy(_) => ForkCopyStep(s, c, p, choice != Fail)
    case ForkParent(_) => ForkParentStep(s, c, p)
    case ForkRun(_) => ForkRunStep(s, c, p)
    case _ => Some(s.(bad := true))
  }

  /** `init` never exits. */
  function WorkStep(s: State, c: nat, p: nat, choice: Choice): Option<State>
    requires WellFormed(s) && Runs(s, c, p) && s.pc[p].Work?
  {
    match choice
    case Lock(l) => if l < |s.locked| then LockStart(s, c, p, l) else None
    case Unlock(l) => if l in s.holds[p] then UnlockStart(s, c, p, l) else None
    case Wait => ParentsStart(s, c, p, WaitScan(0, false))
    case Exit => if p != 0 then ParentsStart(s, c, p, ExitScan(1)) else None
    case Fork => Some(ForkStart(s, c, p))
    case _ => None
  }

  /** Boot: `cpus` schedulers, and the first process ready to run. */
  function Boot(cpus: nat, procs: nat, locks: nat): State
    requires procs > 0
  {
    State(
      seq(cpus, _ => Scan(0)), seq(cpus, _ => 0), map[],
      [Runnable] + seq(procs - 1, _ => Unused), seq(procs, _ => NoChan), seq(procs, _ => 0),
          seq(procs, _ => Parked(Work)),
      [Alive] + seq(procs - 1, _ => Free), seq(procs, _ => None), seq(procs, _ => {}),
      seq(locks, _ => false), seq(procs, _ => None), 1, false)
  }
}
