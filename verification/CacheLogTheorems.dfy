/** What holds after every run of the log over the cache, with crashes anywhere. */
module CacheLogTheorems {
  import opened Prelude
  import opened Blocks
  import opened LruList
  import opened LogCore
  import opened CacheLog
  import opened CacheLogInv
  import opened CacheLogSteps
  import opened CacheLogCommit

  /** The machine is switched on: nothing in memory, and a disk whose log recovers to `base`. */
  ghost predicate Start(s: State) {
    && |s.disk| == |s.base| == s.cfg.blocks && s == CrashStep(s) && s.txns == [] && s.nextOp == 0
    && s.cfg.size >= 1 && s.cfg.start + s.cfg.size <= s.cfg.blocks
    && RecoversTo(s.cfg, s.disk, s.base)
  }

  lemma StartInv(s: State)
    requires Start(s)
    ensures Inv(s)
  {
    forall i | 0 <= i < |s.lru.metas| ensures Count(s.guards, i) == 0 { assert On(s.guards, i) == {}; }
  }

  /** The steps of operations and guards. */
  predicate Ordinary(e: Step) {
    e.BeginOp? || e.Get? || e.Lock? || e.Fill? || e.Modify? || e.LogWrite? || e.Unlock? || e.Drop? || e.EndOp?
  }

  lemma OrdinaryKeeps(s: State, e: Step)
    requires Inv(s) && Ordinary(e) && Next(s, e).Some?
    ensures Inv(Next(s, e).value)
  {
    match e
    case BeginOp => BeginKeeps(s);
    case Get(g, owner, b) => GetKeeps(s, g, owner, b);
    case Lock(g) => LockKeeps(s, g);
    case Fill(g) => FillKeeps(s, g);
    case Modify(g, data) => ModifyKeeps(s, g, data);
    case LogWrite(g) => LogWriteKeeps(s, g);
    case Unlock(g) => UnlockKeeps(s, g);
    case Drop(g) => DropKeeps(s, g);
    case EndOp(id) => EndKeeps(s, id);
  }

  /** The steps of commit and recovery, and the crash. */
  lemma LoggerKeeps(s: State, e: Step)
    requires Inv(s) && !Ordinary(e) && Next(s, e).Some?
    ensures Inv(Next(s, e).value)
  {
    match e
    case CopyToLog(from, to) => CopyToLogKeeps(s, from, to);
    case CopyHead(g) => CopyHeadKeeps(s, g);
    case CopyHome(from, to) => CopyHomeKeeps(s, from, to);
    case Bwrite => BwriteKeeps(s);
    case Unpin(g) => UnpinKeeps(s, g);
    case NextPart => NextPartKeeps(s);
    case EndCommit => EndCommitKeeps(s);
    case ReadHead(g) => ReadHeadKeeps(s, g);
    case Crash => CrashKeeps(s);
  }

  lemma NextKeeps(s: State, e: Step)
    requires Inv(s) && Next(s, e).Some?
    ensures Inv(Next(s, e).value)
  {
    if Ordinary(e) { OrdinaryKeeps(s, e); } else { LoggerKeeps(s, e); }
  }

  /** The state after a schedule, or none if one of its steps was disabled. */
  ghost function Run(s: State, es: seq<Step>): (r: Option<State>)
    requires Inv(s)
    ensures r.Some? ==> Inv(r.value)
    decreases es
  {
    if es == [] then Some(s)
    else
      var r := Next(s, es[0]);
      if r.None? then None
      else
        NextKeeps(s, es[0]);
        Run(r.value, es[1..])
  }

  ghost predicate Reaches(s0: State, es: seq<Step>, s: State) {
    Start(s0) && (StartInv(s0); Run(s0, es) == Some(s))
  }

  lemma NextConstants(s: State, e: Step)
    requires WellFormed(s) && Next(s, e).Some?
    ensures var r := Next(s, e).value; r.cfg == s.cfg && r.base == s.base && |r.lru.metas| == |s.lru.metas|
  {
  }

  lemma {:induction false} RunConstants(s: State, es: seq<Step>)
    requires Inv(s) && Run(s, es).Some?
    ensures var r := Run(s, es).value; r.cfg == s.cfg && r.base == s.base && |r.lru.metas| == |s.lru.metas|
    decreases es
  {
    if es != [] {
      NextKeeps(s, es[0]);
      NextConstants(s, es[0]);
      RunConstants(Next(s, es[0]).value, es[1..]);
    }
  }

  /** A disk with a log that can be replayed. */
  ghost predicate Replayable(c: Config, disk: seq<Block>) {
    |disk| == c.blocks && c.start + c.size <= c.blocks && c.size >= 1 && GoodHeader(c, GetHeader(disk[c.start]))
  }

  /** What a replay of the log on the disk would leave in a home block. */
  ghost function Recovered(c: Config, disk: seq<Block>, b: nat): Block
    requires Replayable(c, disk) && b < c.blocks
  {
    var h := GetHeader(disk[c.start]);
    if b in h.Logged() then disk[c.start + 1 + SlotOf(h, b, 0)] else disk[b]
  }

  /**
    Crash safety.  Whatever ran, and wherever it was interrupted, replaying the log gives on every
    home block exactly the effect of the commits whose header write landed, each of them whole.
  */
  lemma RecoveryIsExact(s0: State, es: seq<Step>, s: State, b: nat)
    requires Reaches(s0, es, s) && s0.cfg.Home(b)
    ensures s.cfg == s0.cfg && Replayable(s.cfg, s.disk)
    ensures Recovered(s.cfg, s.disk, b) == AppliedAll(s0.base, s.txns)[b]
  {
    StartInv(s0);
    RunConstants(s0, es);
    RecoveredOf(s, b);
  }

  lemma RecoveredIs(c: Config, disk: seq<Block>, target: seq<Block>, b: nat)
    requires RecoversTo(c, disk, target) && c.Home(b) && |disk| == c.blocks && c.start + c.size <= c.blocks
             && c.size >= 1
    ensures Replayable(c, disk) && b < |target| && Recovered(c, disk, b) == target[b]
  {
    var h := GetHeader(disk[c.start]);
    if b in h.Logged() {
      var i := SlotOf(h, b, 0);
      assert h.Logged()[i] == h.blocknos[i] == b;
    }
  }

  /**
    The commit point.  The first header write of `commit` makes all pending writes durable at once;
    no other step, not even a crash, changes what a replay of the log would leave in any home block.
  */
  lemma CommitPoint(s0: State, es: seq<Step>, s: State, e: Step, b: nat)
    requires Reaches(s0, es, s) && Next(s, e).Some? && s0.cfg.Home(b)
    ensures var r, commits := Next(s, e).value, e.Bwrite? && s.phase.WriteHead?;
            && Replayable(s.cfg, s.disk) && Replayable(s.cfg, r.disk) && b < s.cfg.blocks
            && b < |s0.base| && r.txns == (if commits then s.txns + [s.cur] else s.txns)
            && Recovered(s.cfg, r.disk, b)
               == if commits then Applied(AppliedAll(s0.base, s.txns), s.cur)[b] else Recovered(s.cfg, s.disk, b)
  {
    StartInv(s0);
    RunConstants(s0, es);
    StepCommits(s, e, b);
  }

  lemma StepCommits(s: State, e: Step, b: nat)
    requires Inv(s) && Next(s, e).Some? && s.cfg.Home(b)
    ensures var r, commits := Next(s, e).value, e.Bwrite? && s.phase.WriteHead?;
            && Replayable(s.cfg, s.disk) && Replayable(s.cfg, r.disk) && b < s.cfg.blocks
            && b < |s.base| && r.txns == (if commits then s.txns + [s.cur] else s.txns)
            && Recovered(s.cfg, r.disk, b)
               == if commits then Applied(AppliedAll(s.base, s.txns), s.cur)[b] else Recovered(s.cfg, s.disk, b)
  {
    NextKeeps(s, e);
    NextConstants(s, e);
    NextTxns(s, e);
    RecoveredTo(s, Next(s, e).value, b);
  }

  lemma RecoveredTo(s: State, r: State, b: nat)
    requires Inv(s) && Inv(r) && r.cfg == s.cfg && r.base == s.base && s.cfg.Home(b)
    ensures Replayable(s.cfg, s.disk) && Replayable(s.cfg, r.disk) && b < s.cfg.blocks == |s.base|
    ensures r.txns == s.txns ==> Recovered(s.cfg, r.disk, b) == Recovered(s.cfg, s.disk, b)
    ensures r.txns == s.txns + [s.cur] ==> Recovered(s.cfg, r.disk, b) == Applied(AppliedAll(s.base, s.txns), s.cur)[b]
  {
    RecoveredOf(s, b);
    RecoveredOf(r, b);
    AppliedAllSnoc(s.base, s.txns, s.cur);
  }

  lemma RecoveredOf(s: State, b: nat)
    requires Inv(s) && s.cfg.Home(b)
    ensures Replayable(s.cfg, s.disk) && b < s.cfg.blocks == |s.base|
            && Recovered(s.cfg, s.disk, b) == AppliedAll(s.base, s.txns)[b]
  {
    RecoveredIs(s.cfg, s.disk, Committed(s), b);
  }

  lemma NextTxns(s: State, e: Step)
    requires WellFormed(s) && Next(s, e).Some?
    ensures Next(s, e).value.txns == if e.Bwrite? && s.phase.WriteHead? then s.txns + [s.cur] else s.txns
  {
  }

  /** Durability: what was committed stays committed, in order, through every later run with any crashes. */
  lemma {:induction false} CommitsStay(s: State, es: seq<Step>)
    requires Inv(s) && Run(s, es).Some?
    ensures s.txns <= Run(s, es).value.txns
    decreases es
  {
    if es != [] {
      NextKeeps(s, es[0]);
      NextTxns(s, es[0]);
      CommitsStay(Next(s, es[0]).value, es[1..]);
    }
  }

  /** No operation's writes are split between two commits, or between a commit and what is still pending. */
  lemma OperationsAreWhole(s0: State, es: seq<Step>, s: State, op: nat, i: nat, j: nat)
    requires Reaches(s0, es, s) && i < |s.txns| && op in Ops(s.txns[i])
    ensures j < |s.txns| && op in Ops(s.txns[j]) ==> i == j
    ensures op !in Ops(s.cur) && op !in s.active
  {
    StartInv(s0);
  }

  /** While a commit runs no operation does, and when it ends every logged write is committed. */
  lemma CommitRunsAlone(s0: State, es: seq<Step>, s: State)
    requires Reaches(s0, es, s)
    ensures s.log.committing ==> s.log.outstanding == 0 && s.active == {}
    ensures s.phase.Finish? ==> s.cur == []
  {
    StartInv(s0);
  }

  /**
    Between commits a holder reads what the commits and the writes logged since say, unless an operation is changing
    it.
  */
  lemma ReadsAreCurrent(s0: State, es: seq<Step>, s: State, g: nat)
    requires Reaches(s0, es, s) && s.phase.Idle? && g in s.guards && s.guards[g].stage.Filled?
    requires s.cfg.Home(s.guards[g].blockno) && s.guards[g].blockno !in Dirty(s.guards)
    ensures s.guards[g].slot < |s.bufs| && s.guards[g].blockno < |s0.base|
    ensures s.bufs[s.guards[g].slot].data == Applied(AppliedAll(s0.base, s.txns), s.cur)[s.guards[g].blockno]
  {
    StartInv(s0);
    RunConstants(s0, es);
    HeldBytes(s, g);
  }

  /** Transparency: a holder always sees the bytes last put in its block, and no block is in two buffers. */
  lemma CacheIsTransparent(s0: State, es: seq<Step>, s: State, g: nat)
    requires Reaches(s0, es, s) && g in s.guards && s.guards[g].stage.Filled?
    ensures s.guards[g].slot < |s.bufs| && s.guards[g].blockno < |s.view|
    ensures s.bufs[s.guards[g].slot].data == s.view[s.guards[g].blockno]
    ensures forall i: nat :: Caches(s.lru.metas, i, s.guards[g].blockno) <==> i == s.guards[g].slot
  {
    StartInv(s0);
    HeldBytes(s, g);
  }

  /** Bytes change only under a guard or by losing memory: the view is a plain block map. */
  lemma ViewIsPlain(s: State, e: Step)
    requires Inv(s) && Next(s, e).Some?
    ensures var r := Next(s, e).value;
            match e
            case Modify(g, data) => r.view == s.view[s.guards[g].blockno := data]
            case CopyToLog(from, to) =>
              r.view == s.view[s.guards[to].blockno := s.view[s.guards[from].blockno]]
            case CopyHome(from, to) =>
              r.view == s.view[s.guards[to].blockno := s.view[s.guards[from].blockno]]
            case CopyHead(g) => r.view == s.view[s.cfg.start := PutHeader(s.view[s.cfg.start], s.log.header)]
            case Crash => r.view == s.disk
            case _ => r.view == s.view
  {
    match e
    case CopyToLog(from, to) => CopyToLogView(s, from, to);
    case CopyHome(from, to) => CopyHomeView(s, from, to);
    case CopyHead(g) => CopyHeadView(s, g);
    case Modify(_, _) =>
    case Crash =>
    case _ => ViewKept(s, e);
  }

  lemma ViewKept(s: State, e: Step)
    requires WellFormed(s) && Next(s, e).Some? && !e.Modify? && !e.CopyToLog? && !e.CopyHome? && !e.CopyHead?
             && !e.Crash?
    ensures Next(s, e).value.view == s.view
  {
  }

  lemma CopyHeadView(s: State, g: nat)
    requires Inv(s) && CopyHeadStep(s, g).Some?
    ensures CopyHeadStep(s, g).value.view == s.view[s.cfg.start := PutHeader(s.view[s.cfg.start], s.log.header)]
  {
    HeldBytes(s, g);
  }

  lemma CopyToLogView(s: State, from: nat, to: nat)
    requires Inv(s) && CopyToLogStep(s, from, to).Some?
    ensures from in s.guards && to in s.guards && s.guards[to].blockno < |s.view| && s.guards[from].blockno < |s.view|
    ensures CopyToLogStep(s, from, to).value.view == s.view[s.guards[to].blockno := s.view[s.guards[from].blockno]]
  {
    HeldBytes(s, from);
  }

  lemma CopyHomeView(s: State, from: nat, to: nat)
    requires Inv(s) && CopyHomeStep(s, from, to).Some?
    ensures from in s.guards && to in s.guards && s.guards[to].blockno < |s.view| && s.guards[from].blockno < |s.view|
    ensures CopyHomeStep(s, from, to).value.view == s.view[s.guards[to].blockno := s.view[s.guards[from].blockno]]
  {
    HeldBytes(s, from);
  }

  /** Pin accounting: a buffer's references are its live guards, and one more if the log still needs its block. */
  lemma PinsAreCounted(s0: State, es: seq<Step>, s: State, i: nat)
    requires Reaches(s0, es, s) && i < |s.lru.metas|
    ensures s.log.Valid()
    ensures s.lru.metas[i].refcnt == |set g | g in s.guards && s.guards[g].slot == i|
                                     + Pin(s.lru.metas, i, Pinned(s.log.header, s.phase))
    ensures s.phase.Idle? ==> Pinned(s.log.header, s.phase) == s.log.header.Logged()
    ensures s.phase.Erase? || s.phase.Finish? || s.phase.Recovering() ==> Pinned(s.log.header, s.phase) == []
  {
    StartInv(s0);
    assert On(s.guards, i) == set g | g in s.guards && s.guards[g].slot == i;
  }

  /** `recycle` never takes the buffer of a logged block, nor one whose bytes are not on the disk. */
  lemma VictimIsSafe(s0: State, es: seq<Step>, s: State, b: nat)
    requires Reaches(s0, es, s) && Victim(s.lru).Some? && Caches(s.lru.metas, Victim(s.lru).value, b)
    ensures s.log.Valid() && b !in Pinned(s.log.header, s.phase) && b < |s.disk| == |s.view| && s.disk[b] == s.view[b]
    ensures forall g :: g in s.guards ==> s.guards[g].slot != Victim(s.lru).value
  {
    StartInv(s0);
    FreeBuffer(s, Victim(s.lru).value);
  }

  /** `write_log` copies the bytes the operations last left in each block. */
  lemma LogGetsLatest(s0: State, es: seq<Step>, s: State, from: nat, to: nat)
    requires Reaches(s0, es, s) && s.phase.WriteLog? && s.log.Valid() && CopyToLogStep(s, from, to).Some?
    ensures var b := s.log.header.blocknos[s.phase.tail];
            && b < |s0.base| && s.guards[from].slot < |s.bufs|
            && s.bufs[s.guards[from].slot].data == Applied(AppliedAll(s0.base, s.txns), s.cur)[b]
  {
    StartInv(s0);
    RunConstants(s0, es);
    HeldBytes(s, from);
    OnlyPendingDirty(s.cfg, s.lru.metas, s.bufs, s.guards, s.phase.Pending());
  }

  // ---- Buffers do not run out ----

  lemma {:induction false} InjectiveBound<A(!new), B(!new)>(xs: set<A>, ys: set<B>, f: map<A, B>)
    requires forall x :: x in xs ==> x in f && f[x] in ys
    requires forall x, y :: x in xs && y in xs && f[x] == f[y] ==> x == y
    ensures |xs| <= |ys|
  {
    if xs != {} {
      var x :| x in xs;
      InjectiveBound(xs - {x}, ys - {f[x]}, f);
    }
  }

  ghost function Elems(xs: seq<nat>): set<nat> {
    set x | x in xs
  }

  lemma {:induction false} ElemsBound(xs: seq<nat>)
    ensures |Elems(xs)| <= |xs|
  {
    if xs != [] {
      var last := |xs| - 1;
      ElemsBound(xs[..last]);
      assert Elems(xs) == Elems(xs[..last]) + {xs[last]};
    }
  }

  /** The guards on blocks that the log does not pin. */
  ghost function LooseGuards(guards: map<nat, Guard>, pinned: seq<nat>): set<nat> {
    set g | g in guards && guards[g].blockno !in pinned
  }

  ghost function PinnedSlots(metas: seq<Meta>, pinned: seq<nat>): set<nat> {
    set i | i in Below(|metas|) && metas[i].dev == DEV && metas[i].blockno in pinned
  }

  lemma PinnedSlotsBound(metas: seq<Meta>, blocks: nat, pinned: seq<nat>)
    requires Unique(metas, blocks)
    ensures |PinnedSlots(metas, pinned)| <= |pinned|
  {
    var slots := PinnedSlots(metas, pinned);
    var f := map i | i in slots :: metas[i].blockno;
    forall i, j | i in slots && j in slots && f[i] == f[j] ensures i == j {
      assert Caches(metas, i, f[i]) && Caches(metas, j, f[i]);
    }
    InjectiveBound(slots, Elems(pinned), f);
    ElemsBound(pinned);
  }

  lemma OtherSlotsBound(c: Config, metas: seq<Meta>, bufs: seq<Buf>, guards: map<nat, Guard>, active: set<nat>,
                        pend: Option<nat>, pinned: seq<nat>)
    requires |bufs| == |metas| && Guarded(c, metas, bufs, guards, active, pend) && Counted(metas, guards, pinned)
    requires forall i :: 0 <= i < |metas| ==> metas[i].refcnt > 0
    ensures |Below(|metas|) - PinnedSlots(metas, pinned)| <= |LooseGuards(guards, pinned)|
  {
    var slots := Below(|metas|) - PinnedSlots(metas, pinned);
    forall i | i in slots ensures exists g :: g in LooseGuards(guards, pinned) && guards[g].slot == i {
      assert Pin(metas, i, pinned) == 0;
      assert On(guards, i) != {};
      var g :| g in On(guards, i);
      assert GuardOk(c, metas, bufs, active, pend, g, guards[g]);
      assert g in LooseGuards(guards, pinned);
    }
    var f := map i | i in slots :: var g :| g in LooseGuards(guards, pinned) && guards[g].slot == i; g;
    InjectiveBound(slots, LooseGuards(guards, pinned), f);
  }

  /** If no buffer is free, the pins and the guards on other blocks use up all buffers. */
  lemma FullCache(s: State)
    requires Inv(s) && Victim(s.lru).None?
    ensures |s.lru.metas| <= |Pinned(s.log.header, s.phase)| + |LooseGuards(s.guards, Pinned(s.log.header, s.phase))|
  {
    var metas, pinned := s.lru.metas, Pinned(s.log.header, s.phase);
    PinnedSlotsBound(metas, s.cfg.blocks, pinned);
    OtherSlotsBound(s.cfg, metas, s.bufs, s.guards, s.active, s.phase.Pending(), pinned);
    assert Below(|metas|) == PinnedSlots(metas, pinned) + (Below(|metas|) - PinnedSlots(metas, pinned));
  }

  /**
    A commit takes its one unpinned buffer while it holds no other unpinned one.  When nobody else
    holds any, it finds one if and only if the log pins fewer blocks than there are buffers.
  */
  lemma CommitFindsBuffer(s0: State, es: seq<Step>, s: State)
    requires Reaches(s0, es, s) && s.log.Valid() && LooseGuards(s.guards, Pinned(s.log.header, s.phase)) == {}
    ensures Victim(s.lru).Some? <==> |Pinned(s.log.header, s.phase)| < |s.lru.metas|
    ensures |Pinned(s.log.header, s.phase)| <= s.cfg.size - 1
  {
    StartInv(s0);
    var pinned := Pinned(s.log.header, s.phase);
    if Victim(s.lru).None? {
      FullCache(s);
    } else {
      PinnedLeavesRoom(s, Victim(s.lru).value);
    }
  }

  /**
    Recovery pins nothing and holds up to two buffers at once, a log block and its home block.  It finds a
    buffer whenever fewer are held than there are.
  */
  lemma RecoveryFindsBuffer(s0: State, es: seq<Step>, s: State)
    requires Reaches(s0, es, s) && s.phase.Recovering() && |s.guards| < |s.lru.metas|
    ensures Victim(s.lru).Some?
  {
    StartInv(s0);
    var loose := LooseGuards(s.guards, Pinned(s.log.header, s.phase));
    InjectiveBound(loose, s.guards.Keys, map g | g in loose :: g);
    if Victim(s.lru).None? { FullCache(s); }
  }

  lemma PinnedLeavesRoom(s: State, v: nat)
    requires Inv(s) && v < |s.lru.metas| && s.lru.metas[v].refcnt == 0
    ensures |Pinned(s.log.header, s.phase)| < |s.lru.metas|
  {
    var metas, pinned := s.lru.metas, Pinned(s.log.header, s.phase);
    FreeBuffer(s, v);
    PinnedDistinct(s.cfg, s.log.header, s.phase);
    forall k | k in Below(|pinned|) ensures exists i: nat :: Caches(metas, i, pinned[k]) && i != v {
      assert InCache(metas, s.bufs, pinned[k]);
      var i: nat :| Caches(metas, i, pinned[k]) && s.bufs[i].valid;
      assert i != v;
    }
    SlotsOfPins(metas, pinned, v);
  }

  ghost function SlotFor(metas: seq<Meta>, b: nat, v: nat): (i: nat)
    requires exists i: nat :: Caches(metas, i, b) && i != v
    ensures Caches(metas, i, b) && i != v
  {
    var i: nat :| Caches(metas, i, b) && i != v;
    i
  }

  lemma SlotsOfPins(metas: seq<Meta>, pinned: seq<nat>, v: nat)
    requires v < |metas| && Distinct(pinned)
    requires forall k :: k in Below(|pinned|) ==> exists i: nat :: Caches(metas, i, pinned[k]) && i != v
    ensures |pinned| < |metas|
  {
    var f := map k | k in Below(|pinned|) :: SlotFor(metas, pinned[k], v);
    forall k | k in Below(|pinned|) ensures f[k] in Below(|metas|) - {v} && metas[f[k]].blockno == pinned[k] {
      assert Caches(metas, SlotFor(metas, pinned[k], v), pinned[k]);
    }
    forall j, k | j in Below(|pinned|) && k in Below(|pinned|) && f[j] == f[k] ensures j == k {
      assert pinned[j] == pinned[k];
    }
    InjectiveBound(Below(|pinned|), Below(|metas|) - {v}, f);
  }

  lemma PinnedDistinct(c: Config, h: Header, p: Phase)
    requires GoodHeader(c, h)
    ensures Distinct(Pinned(h, p))
  {
    if p.Install? && p.tail < h.n { PinnedTail(c, h, p.tail, p.written); }
  }

  /** With the shipped sizes (a log of 30 blocks, 30 buffers) a commit never runs out of buffers. */
  lemma ShippedSizesSuffice(s0: State, es: seq<Step>, s: State)
    requires Reaches(s0, es, s) && s.log.Valid() && LooseGuards(s.guards, Pinned(s.log.header, s.phase)) == {}
    requires s.cfg.size == LOGSIZE && |s.lru.metas| == 3 * MAXOPBLOCKS
    ensures Victim(s.lru).Some?
  {
    StartInv(s0);
    CommitFindsBuffer(s0, es, s);
  }
}
