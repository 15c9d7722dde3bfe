/**
  The write-ahead log over the buffer cache (kernel/src/log.rs, kernel/src/bio.rs) as one
  state machine.  Any number of readers, operations and one logger hold buffer guards at the
  same time; a crash may happen between any two steps and loses everything but the disk.

  A step is one critical section or one block transfer.  A step that is disabled stands for
  a caller that waits, or that panics.
*/
module CacheLog {
  import opened Prelude
  import opened Blocks
  import opened LruList
  import opened LogCore

  const DEV: nat := 1 // ROOTDEV

  /** Where the log is: block `start` is its header, the other `size - 1` blocks hold data. */
  datatype Config = Config(start: nat, size: nat, blocks: nat) {
    predicate Home(b: nat) {
      b < blocks && !(start <= b < start + size)
    }
  }

  datatype Buf = Buf(valid: bool, data: Block)

  datatype Owner = Op(id: nat) | Reader | Logger

  /** A `BufGuard`: waiting for the sleep lock, holding it, holding it with the block read, or past it. */
  datatype Stage = Waiting | Locked | Filled | Unlocked

  datatype Guard = Guard(slot: nat, blockno: nat, owner: Owner, stage: Stage, dirty: bool) {
    predicate Holds() { stage.Locked? || stage.Filled? }
  }

  /** What the logger is doing; `pend` is the guard whose block it copied but has not written yet. */
  datatype Phase =
    | Idle
    | WriteLog(tail: nat, pend: Option<nat>)
    | WriteHead(pend: Option<nat>)
    | Install(tail: nat, pend: Option<nat>, written: bool)
    | Erase(pend: Option<nat>)
    | Finish
    | RecRead
    | RecInstall(tail: nat, pend: Option<nat>)
    | RecErase(pend: Option<nat>)
  {
    predicate Recovering() { RecRead? || RecInstall? || RecErase? }

    function Pending(): Option<nat> {
      match this
      case Idle => None
      case Finish => None
      case RecRead => None
      case _ => this.pend
    }
  }

  /** One `LOG.write`: which operation put which bytes in which block. */
  datatype Rec = Rec(op: nat, blockno: nat, data: Block)

  type Txn = seq<Rec>

  /**
    `disk` to `phase` are the system.  The rest is history: `view` is what a plain block map
    would hold, `base` the disk the machine started from, `txns` the writes of every commit
    whose header write landed, `cur` the writes logged since, `active` the running operations.
  */
  datatype State = State(
    cfg: Config, disk: seq<Block>, lru: Lru, bufs: seq<Buf>, guards: map<nat, Guard>, log: Log, phase: Phase,
    view: seq<Block>, base: seq<Block>, txns: seq<Txn>, cur: Txn, active: set<nat>, nextOp: nat)

  function Applied(d: seq<Block>, t: Txn): (r: seq<Block>)
    ensures |r| == |d|
  {
    if t == [] then d
    else
      var r := Applied(d, t[..|t| - 1]);
      var w := t[|t| - 1];
      if w.blockno < |r| then r[w.blockno := w.data] else r
  }

  function AppliedAll(d: seq<Block>, ts: seq<Txn>): (r: seq<Block>)
    ensures |r| == |d|
  {
    if ts == [] then d else Applied(AppliedAll(d, ts[..|ts| - 1]), ts[|ts| - 1])
  }

  // ---- Steps ----

  datatype Step =
    | BeginOp
    | Get(g: nat, owner: Owner, blockno: nat) // `bget` up to the sleep lock
    | Lock(g: nat) // the sleep lock of the buffer
    | Fill(g: nat) // the rest of `bread`
    | Modify(g: nat, data: Block) // an operation changes the bytes it holds
    | LogWrite(g: nat) // `LOG.write`
    | Unlock(g: nat) // the first half of dropping a guard
    | Drop(g: nat) // the second half, `brelse`
    | EndOp(id: nat)
    | CopyToLog(from: nat, to: nat) // the copies of `write_log`, `write_head` and `install_trans`
    | CopyHead(g: nat)
    | CopyHome(from: nat, to: nat)
    | Bwrite // the block write after a copy
    | Unpin(g: nat) // `bunpin` in `install_trans`
    | NextPart // the end of a loop over the header
    | EndCommit // `committing = false`
    | ReadHead(g: nat)
    | Crash

  predicate Has(s: State, g: nat, blockno: nat, owner: Owner) {
    g in s.guards && s.guards[g].stage.Filled? && s.guards[g].blockno == blockno && s.guards[g].owner == owner
    && s.guards[g].slot < |s.bufs| && blockno < |s.disk| == |s.view|
  }

  /** A holder overwrites the bytes of its buffer. */
  function Put(s: State, g: nat, data: Block): (r: State)
    requires g in s.guards && s.guards[g].slot < |s.bufs| && s.guards[g].blockno < |s.view|
  {
    var q := s.guards[g];
    s.(bufs := s.bufs[q.slot := Buf(s.bufs[q.slot].valid, data)],
       view := s.view[q.blockno := data],
       guards := s.guards[g := q.(dirty := true)])
  }

  function BeginStep(s: State): Option<State> {
    if CanBegin(s.log) && !s.phase.Recovering() then
      Some(s.(log := Begin(s.log), active := s.active + {s.nextOp}, nextOp := s.nextOp + 1))
    else None
  }

  /** `bget`: a cached block gains a reference; otherwise the least recently freed buffer is reused. */
  function GetStep(s: State, g: nat, owner: Owner, blockno: nat): Option<State>
    requires s.lru.Valid() && |s.bufs| == |s.lru.metas|
  {
    if g in s.guards || blockno >= s.cfg.blocks then None
    else
      var hit := FindBuf(s.lru, DEV, blockno);
      if hit.Some? then
        Some(s.(lru := Hit(s.lru, hit.value),
                guards := s.guards[g := Guard(hit.value, blockno, owner, Waiting, false)]))
      else
        var v := Victim(s.lru);
        if v.None? then None
        else
          Some(s.(lru := Reuse(s.lru, v.value, DEV, blockno),
                  bufs := s.bufs[v.value := s.bufs[v.value].(valid := false)],
                  guards := s.guards[g := Guard(v.value, blockno, owner, Waiting, false)]))
  }

  function LockStep(s: State, g: nat): Option<State> {
    if g in s.guards && s.guards[g].stage.Waiting?
       && (forall h :: h in s.guards && s.guards[h].slot == s.guards[g].slot ==> !s.guards[h].Holds()) then
      Some(s.(guards := s.guards[g := s.guards[g].(stage := Locked)]))
    else None
  }

  function FillStep(s: State, g: nat): Option<State> {
    if g in s.guards && s.guards[g].stage.Locked? && s.guards[g].slot < |s.bufs| && s.guards[g].blockno < |s.disk| then
      var q := s.guards[g];
      var buf := s.bufs[q.slot];
      Some(s.(bufs := s.bufs[q.slot := if buf.valid then buf else Buf(true, s.disk[q.blockno])],
              guards := s.guards[g := q.(stage := Filled)]))
    else None
  }

  /** Only a running operation changes bytes, only of home blocks, and only under a guard. */
  function ModifyStep(s: State, g: nat, data: Block): Option<State> {
    if g in s.guards && s.guards[g].owner.Op? && s.guards[g].owner.id in s.active && s.cfg.Home(s.guards[g].blockno)
       && Has(s, g, s.guards[g].blockno, s.guards[g].owner) then
      Some(Put(s, g, data))
    else None
  }

  function LogWriteStep(s: State, g: nat): Option<State>
    requires s.log.Valid()
  {
    if g in s.guards && s.guards[g].owner.Op? && s.guards[g].owner.id in s.active && s.cfg.Home(s.guards[g].blockno)
       && Has(s, g, s.guards[g].blockno, s.guards[g].owner) && s.guards[g].slot < |s.lru.metas|
       && !WritePanics(s.log, s.cfg.size) then
      var q := s.guards[g];
      Some(s.(log := Record(s.log, q.blockno),
              lru := if q.blockno in s.log.header.Logged() then s.lru else Hit(s.lru, q.slot), // bpin
              guards := s.guards[g := q.(dirty := false)],
              cur := s.cur + [Rec(q.owner.id, q.blockno, s.bufs[q.slot].data)]))
    else None
  }

  /** A guard whose bytes were changed is not dropped before they are logged or written. */
  function UnlockStep(s: State, g: nat): Option<State> {
    if g in s.guards && s.guards[g].Holds() && !s.guards[g].dirty then
      Some(s.(guards := s.guards[g := s.guards[g].(stage := Unlocked)]))
    else None
  }

  function DropStep(s: State, g: nat): Option<State> {
    if g in s.guards && s.guards[g].stage.Unlocked? && s.guards[g].slot < |s.lru.metas|
       && s.lru.metas[s.guards[g].slot].refcnt > 0 then
      Some(s.(lru := Release(s.lru, s.guards[g].slot), guards := s.guards - {g}))
    else None
  }

  function EndStep(s: State, id: nat): Option<State> {
    if id in s.active && !EndPanics(s.log)
       && (forall g :: g in s.guards && s.guards[g].dirty ==> s.guards[g].owner != Op(id)) then
      var log := End(s.log);
      Some(s.(log := log, active := s.active - {id},
              phase := if !log.committing then s.phase else if log.header.n > 0 then WriteLog(0, None) else Finish))
    else None
  }

  /** The phase once the logger has copied into the buffer of guard `g`. */
  function Copied(p: Phase, g: nat): Phase {
    match p
    case WriteLog(t, _) => WriteLog(t, Some(g))
    case WriteHead(_) => WriteHead(Some(g))
    case Install(t, _, w) => Install(t, Some(g), w)
    case Erase(_) => Erase(Some(g))
    case RecInstall(t, _) => RecInstall(t, Some(g))
    case RecErase(_) => RecErase(Some(g))
    case _ => p
  }

  function CopyToLogStep(s: State, from: nat, to: nat): Option<State>
    requires s.log.Valid()
  {
    if s.phase.WriteLog? && s.phase.pend.None? && s.phase.tail < s.log.header.n && from != to
       && Has(s, from, s.log.header.blocknos[s.phase.tail], Logger)
       && Has(s, to, s.cfg.start + s.phase.tail + 1, Logger) then
      Some(Put(s, to, s.bufs[s.guards[from].slot].data).(phase := WriteLog(s.phase.tail, Some(to))))
    else None
  }

  function CopyHeadStep(s: State, g: nat): Option<State>
    requires s.log.Valid()
  {
    if (s.phase.WriteHead? || s.phase.Erase? || s.phase.RecErase?) && s.phase.pend.None?
        && Has(s, g, s.cfg.start, Logger) then
      Some(Put(s, g, PutHeader(s.bufs[s.guards[g].slot].data, s.log.header)).(phase := Copied(s.phase, g)))
    else None
  }

  function CopyHomeStep(s: State, from: nat, to: nat): Option<State>
    requires s.log.Valid()
  {
    if (s.phase.Install? || s.phase.RecInstall?) && s.phase.pend.None? && s.phase.tail < s.log.header.n && from != to
       && (s.phase.Install? ==> !s.phase.written)
       && Has(s, from, s.cfg.start + s.phase.tail + 1, Logger)
       && Has(s, to, s.log.header.blocknos[s.phase.tail], Logger) then
      Some(Put(s, to, s.bufs[s.guards[from].slot].data).(phase := Copied(s.phase, to)))
    else None
  }

  function AfterBwrite(p: Phase): Phase
    requires p.Pending().Some?
  {
    match p
    case WriteLog(t, _) => WriteLog(t + 1, None)
    case WriteHead(_) => Install(0, None, false)
    case Install(t, _, _) => Install(t, None, true)
    case Erase(_) => Finish
    case RecInstall(t, _) => RecInstall(t + 1, None)
    case RecErase(_) => Idle
  }

  /** One block reaches the disk.  When it is the header of `write_head` in `commit`, that is the commit. */
  function BwriteStep(s: State): Option<State> {
    if s.phase.Pending().Some? && s.phase.Pending().value in s.guards
       && s.guards[s.phase.Pending().value].slot < |s.bufs| && s.guards[s.phase.Pending().value].blockno < |s.disk| then
      var g := s.phase.Pending().value;
      var q := s.guards[g];
      Some(s.(disk := s.disk[q.blockno := s.bufs[q.slot].data],
              guards := s.guards[g := q.(dirty := false)],
              phase := AfterBwrite(s.phase),
              txns := if s.phase.WriteHead? then s.txns + [s.cur] else s.txns,
              cur := if s.phase.WriteHead? then [] else s.cur))
    else None
  }

  function UnpinStep(s: State, g: nat): Option<State>
    requires s.log.Valid()
  {
    if s.phase.Install? && s.phase.pend.None? && s.phase.written && s.phase.tail < s.log.header.n
       && Has(s, g, s.log.header.blocknos[s.phase.tail], Logger)
       && s.guards[g].slot < |s.lru.metas| && s.lru.metas[s.guards[g].slot].refcnt > 0 then
      var i := s.guards[g].slot;
      Some(s.(lru := Unpinned(s.lru, i), phase := Install(s.phase.tail + 1, None, false)))
    else None
  }

  function NextPartStep(s: State): Option<State> {
    var emptied := s.log.(header := s.log.header.(n := 0));
    match s.phase
    case WriteLog(t, None) => if t == s.log.header.n then Some(s.(phase := WriteHead(None))) else None
    case Install(t, None, false) => if t == s.log.header.n then Some(s.(phase := Erase(None), log := emptied)) else None
    case RecInstall(t, None) => if t == s.log.header.n then Some(s.(phase := RecErase(None), log := emptied)) else None
    case _ => None
  }

  function EndCommitStep(s: State): Option<State> {
    if s.phase.Finish? then Some(s.(phase := Idle, log := s.log.(committing := false))) else None
  }

  function ReadHeadStep(s: State, g: nat): Option<State> {
    if s.phase.RecRead? && Has(s, g, s.cfg.start, Logger) then
      Some(s.(phase := RecInstall(0, None), log := s.log.(header := GetHeader(s.bufs[s.guards[g].slot].data))))
    else None
  }

  /** Memory is lost; `init` runs `recover_from_log` on what the disk holds. */
  function CrashStep(s: State): State {
    s.(lru := Boot(|s.lru.metas|).l,
       bufs := seq(|s.lru.metas|, _ => Buf(false, Zeros(BLOCKWORDS))),
       guards := map[], log := FreshLog, phase := RecRead,
       view := s.disk, cur := [], active := {})
  }

  ghost predicate WellFormed(s: State) {
    s.lru.Valid() && |s.bufs| == |s.lru.metas| && s.log.Valid()
  }

  function Next(s: State, e: Step): Option<State>
    requires WellFormed(s)
  {
    match e
    case BeginOp => BeginStep(s)
    case Get(g, owner, b) => GetStep(s, g, owner, b)
    case Lock(g) => LockStep(s, g)
    case Fill(g) => FillStep(s, g)
    case Modify(g, data) => ModifyStep(s, g, data)
    case LogWrite(g) => LogWriteStep(s, g)
    case Unlock(g) => UnlockStep(s, g)
    case Drop(g) => DropStep(s, g)
    case EndOp(id) => EndStep(s, id)
    case CopyToLog(from, to) => CopyToLogStep(s, from, to)
    case CopyHead(g) => CopyHeadStep(s, g)
    case CopyHome(from, to) => CopyHomeStep(s, from, to)
    case Bwrite => BwriteStep(s)
    case Unpin(g) => UnpinStep(s, g)
    case NextPart => NextPartStep(s)
    case EndCommit => EndCommitStep(s)
    case ReadHead(g) => ReadHeadStep(s, g)
    case Crash => Some(CrashStep(s))
  }
}
