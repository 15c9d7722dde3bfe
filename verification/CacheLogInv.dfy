/** The inductive invariant of the log over the cache, as predicates on the parts of the state they read. */
module CacheLogInv {
  import opened Prelude
  import opened Blocks
  import opened LruList
  import opened LogCore
  import opened CacheLog

  // ---- The cache ----

  ghost predicate Caches(metas: seq<Meta>, i: nat, b: nat) {
    i < |metas| && metas[i].dev == DEV && metas[i].blockno == b
  }

  /** No block sits in two buffers. */
  ghost predicate Unique(metas: seq<Meta>, blocks: nat) {
    && (forall i: nat, j: nat, b: nat :: Caches(metas, i, b) && Caches(metas, j, b) ==> i == j)
    && (forall i: nat, b: nat :: Caches(metas, i, b) ==> b < blocks)
  }

  /** A guard sits on the buffer of its block, and who may have changed its bytes. */
  ghost predicate GuardOk(c: Config, metas: seq<Meta>, bufs: seq<Buf>, active: set<nat>, pend: Option<nat>,
                          g: nat, q: Guard)
    requires |bufs| == |metas|
  {
    && Caches(metas, q.slot, q.blockno)
    && (q.stage.Filled? ==> bufs[q.slot].valid)
    && (q.dirty ==> q.stage.Filled?)
    && (q.dirty && q.owner.Op? ==> q.owner.id in active && c.Home(q.blockno))
    && (q.dirty && !q.owner.Op? ==> pend == Some(g))
    && (pend == Some(g) ==> q.dirty && q.owner.Logger?)
  }

  /** At most one of a buffer's guards holds its lock. */
  ghost predicate Exclusive(guards: map<nat, Guard>) {
    forall g, h {:trigger guards[g].Holds(), guards[h].Holds()} ::
      g in guards && h in guards && g != h && guards[g].slot == guards[h].slot ==>
        !(guards[g].Holds() && guards[h].Holds())
  }

  /** A guard that stays on its buffer, and holds its lock or not as before. */
  lemma ExclusiveSet(guards: map<nat, Guard>, g: nat, q: Guard)
    requires Exclusive(guards) && g in guards && q.slot == guards[g].slot && q.Holds() == guards[g].Holds()
    ensures Exclusive(guards[g := q])
  {
    var r := guards[g := q];
    forall a, b | a in r && b in r && a != b && r[a].slot == r[b].slot ensures !(r[a].Holds() && r[b].Holds()) {
      assert !(guards[a].Holds() && guards[b].Holds());
    }
  }

  ghost predicate Guarded(c: Config, metas: seq<Meta>, bufs: seq<Buf>, guards: map<nat, Guard>,
                          active: set<nat>, pend: Option<nat>)
    requires |bufs| == |metas|
  {
    && (forall g :: g in guards ==> GuardOk(c, metas, bufs, active, pend, g, guards[g]))
    && Exclusive(guards)
    && (pend.Some? ==> pend.value in guards)
  }

  ghost function On(guards: map<nat, Guard>, i: nat): set<nat> {
    set g | g in guards && guards[g].slot == i
  }

  ghost function Count(guards: map<nat, Guard>, i: nat): nat {
    |On(guards, i)|
  }

  ghost function Pin(metas: seq<Meta>, i: nat, pinned: seq<nat>): nat
    requires i < |metas|
  {
    if metas[i].dev == DEV && metas[i].blockno in pinned then 1 else 0
  }

  /** A buffer's count is its live guards plus one if the log pins its block. */
  ghost predicate Counted(metas: seq<Meta>, guards: map<nat, Guard>, pinned: seq<nat>) {
    forall i :: 0 <= i < |metas| ==> metas[i].refcnt == Count(guards, i) + Pin(metas, i, pinned)
  }

  ghost predicate InCache(metas: seq<Meta>, bufs: seq<Buf>, b: nat)
    requires |bufs| == |metas|
  {
    exists i: nat :: Caches(metas, i, b) && bufs[i].valid
  }

  /** The blocks whose bytes a holder has changed but not yet logged or written. */
  ghost function Dirty(guards: map<nat, Guard>): set<nat> {
    set g | g in guards && guards[g].dirty :: guards[g].blockno
  }

  /** Valid buffers show the view; where the disk does not, a buffer that cannot be reused does. */
  ghost predicate Coherent(metas: seq<Meta>, bufs: seq<Buf>, disk: seq<Block>, view: seq<Block>,
                           dirty: set<nat>, pinned: seq<nat>)
    requires |bufs| == |metas| && |disk| == |view|
  {
    && (forall i: nat, b: nat :: Caches(metas, i, b) && bufs[i].valid && b < |view| ==> bufs[i].data == view[b])
    && (forall b :: b in pinned ==> InCache(metas, bufs, b))
    && (forall b :: 0 <= b < |view| ==> disk[b] == view[b] || b in pinned || b in dirty)
  }

  // ---- The log ----

  ghost predicate GoodHeader(c: Config, h: Header) {
    && h.Valid() && h.n + 1 <= c.size
    && Distinct(h.Logged())
    && (forall i :: 0 <= i < h.n ==> c.Home(h.blocknos[i]))
  }

  /** The blocks the log keeps in the cache. */
  ghost function Pinned(h: Header, p: Phase): (r: seq<nat>)
    requires h.Valid()
  {
    match p
    case Install(t, _, _) => if t <= h.n then h.blocknos[t..h.n] else []
    case Idle => h.Logged()
    case WriteLog(_, _) => h.Logged()
    case WriteHead(_) => h.Logged()
    case _ => []
  }

  /** Replaying the log found on the disk gives the home blocks of `target`. */
  ghost predicate RecoversTo(c: Config, disk: seq<Block>, target: seq<Block>) {
    && |disk| == |target| == c.blocks && c.start + c.size <= c.blocks && c.size >= 1
    && var h := GetHeader(disk[c.start]);
       && GoodHeader(c, h)
       && (forall i :: 0 <= i < h.n ==> disk[c.start + 1 + i] == target[h.blocknos[i]])
       && (forall b: nat :: c.Home(b) && b !in h.Logged() ==> disk[b] == target[b])
  }

  /** The home blocks show `target`, but for bytes being changed. */
  ghost predicate Shows(c: Config, view: seq<Block>, dirty: set<nat>, target: seq<Block>)
    requires |view| == |target| == c.blocks
  {
    forall b: nat :: c.Home(b) ==> view[b] == target[b] || b in dirty
  }

  ghost predicate SameHeader(h: Header, d: Header)
    requires h.Valid() && d.Valid()
  {
    h.n == d.n && h.Logged() == d.Logged()
  }

  ghost predicate LogHolds(c: Config, disk: seq<Block>, view: seq<Block>, h: Header, k: nat)
    requires GoodHeader(c, h) && |disk| == |view| == c.blocks && c.start + c.size <= c.blocks
  {
    k <= h.n && forall i :: 0 <= i < k ==> disk[c.start + 1 + i] == view[h.blocknos[i]]
  }

  /** What disk and view hold in each phase; `p` is the committed disk, `pb` the block of the pending guard. */
  ghost predicate PhaseOk(c: Config, disk: seq<Block>, view: seq<Block>, dirty: set<nat>, h: Header, phase: Phase,
                          pb: Option<nat>, p: seq<Block>, cur: Txn)
    requires |disk| == |view| == c.blocks && GoodHeader(c, h)
  {
    && RecoversTo(c, disk, p)
    && var d := GetHeader(disk[c.start]);
       match phase
       case Idle => d.n == 0 && Shows(c, view, dirty, Applied(p, cur))
       case WriteLog(t, _) =>
         && d.n == 0 && Shows(c, view, dirty, Applied(p, cur)) && LogHolds(c, disk, view, h, t)
         && (pb.Some? ==> t < h.n && pb.value == c.start + 1 + t && view[c.start + 1 + t] == view[h.blocknos[t]])
       case WriteHead(_) =>
         && d.n == 0 && Shows(c, view, dirty, Applied(p, cur)) && LogHolds(c, disk, view, h, h.n)
         && (pb.Some? ==> pb.value == c.start && GetHeader(view[c.start]) == h)
       case Install(t, _, written) =>
         && SameHeader(h, d) && Shows(c, view, {}, p) && cur == [] && t <= h.n
         && (pb.Some? ==> t < h.n && !written && pb.value == h.blocknos[t])
         && (written ==> t < h.n && disk[h.blocknos[t]] == view[h.blocknos[t]])
       case Erase(_) =>
         && h.n == 0 && Shows(c, view, {}, p) && cur == [] && Shows(c, disk, {}, p)
         && (pb.Some? ==> pb.value == c.start && GetHeader(view[c.start]) == h)
       case Finish => h.n == 0 && d.n == 0 && Shows(c, view, dirty, p) && cur == []
       case RecRead => cur == []
       case RecInstall(t, _) =>
         && SameHeader(h, d) && cur == [] && t <= h.n
         && (forall i :: 0 <= i < t ==> disk[h.blocknos[i]] == p[h.blocknos[i]])
         && (pb.Some? ==> t < h.n && pb.value == h.blocknos[t] && view[h.blocknos[t]] == p[h.blocknos[t]])
       case RecErase(_) =>
         && h.n == 0 && cur == [] && Shows(c, disk, {}, p)
         && (pb.Some? ==> pb.value == c.start && GetHeader(view[c.start]) == h)
  }

  /** A commit and a recovery run only when no operation does; logged writes are of logged blocks. */
  ghost predicate Counters(log: Log, phase: Phase, active: set<nat>, cur: Txn)
    requires log.Valid()
  {
    && log.outstanding == |active| && Few(log)
    && log.committing == !(phase.Idle? || phase.Recovering())
    && (!phase.Idle? ==> active == {})
    && (phase.Idle? || phase.WriteLog? || phase.WriteHead? ==>
          forall k :: 0 <= k < |cur| ==> cur[k].blockno in log.header.Logged())
  }

  /** The operations that wrote in a transaction. */
  ghost function Ops(t: Txn): set<nat> {
    set k | 0 <= k < |t| :: t[k].op
  }

  ghost predicate AllBelow(ids: set<nat>, n: nat) {
    forall id :: id in ids ==> id < n
  }

  /** Operation numbers are not reused, and the operations of a finished commit are over. */
  ghost predicate Unsplit(txns: seq<Txn>, cur: Txn, active: set<nat>, nextOp: nat) {
    && AllBelow(active, nextOp) && AllBelow(Ops(cur), nextOp)
    && (forall i :: 0 <= i < |txns| ==>
          AllBelow(Ops(txns[i]), nextOp) && Ops(txns[i]) !! active && Ops(txns[i]) !! Ops(cur))
    && (forall i, j :: 0 <= i < j < |txns| ==> Ops(txns[i]) !! Ops(txns[j]))
  }

  // ---- All of it ----

  ghost function Committed(s: State): (r: seq<Block>)
    ensures |r| == |s.base|
  {
    AppliedAll(s.base, s.txns)
  }

  ghost function PendBlock(guards: map<nat, Guard>, p: Phase): Option<nat> {
    var g := p.Pending();
    if g.Some? && g.value in guards then Some(guards[g.value].blockno) else None
  }

  ghost predicate Shape(s: State) {
    && |s.disk| == |s.view| == |s.base| == s.cfg.blocks
    && s.cfg.start + s.cfg.size <= s.cfg.blocks && s.cfg.size >= 1
    && WellFormed(s)
    && GoodHeader(s.cfg, s.log.header)
  }

  /** The cache: its buffers, guards and counts agree with each other and with the disk and the view. */
  ghost predicate CacheOk(c: Config, metas: seq<Meta>, bufs: seq<Buf>, guards: map<nat, Guard>, active: set<nat>,
                          pend: Option<nat>, disk: seq<Block>, view: seq<Block>, pinned: seq<nat>)
    requires |bufs| == |metas| && |disk| == |view|
  {
    && Unique(metas, c.blocks)
    && Guarded(c, metas, bufs, guards, active, pend)
    && Counted(metas, guards, pinned)
    && Coherent(metas, bufs, disk, view, Dirty(guards), pinned)
  }

  ghost predicate Inv(s: State) {
    && Shape(s)
    && CacheOk(s.cfg, s.lru.metas, s.bufs, s.guards, s.active, s.phase.Pending(), s.disk, s.view,
               Pinned(s.log.header, s.phase))
    && PhaseOk(s.cfg, s.disk, s.view, Dirty(s.guards), s.log.header, s.phase, PendBlock(s.guards, s.phase),
               Committed(s), s.cur)
    && Counters(s.log, s.phase, s.active, s.cur)
    && Unsplit(s.txns, s.cur, s.active, s.nextOp)
  }

  // ---- Guards coming, going and changing ----

  lemma CountSet(guards: map<nat, Guard>, g: nat, q: Guard, i: nat)
    ensures Count(guards[g := q], i)
         == Count(guards, i) - (if g in guards && guards[g].slot == i then 1 else 0) + (if q.slot == i then 1 else 0)
  {
    var a := On(guards, i);
    assert On(guards[g := q], i) == if q.slot == i then a - {g} + {g} else a - {g};
  }

  lemma CountDrop(guards: map<nat, Guard>, g: nat, i: nat)
    requires g in guards
    ensures Count(guards - {g}, i) == Count(guards, i) - (if guards[g].slot == i then 1 else 0)
  {
    assert On(guards - {g}, i) == On(guards, i) - {g};
  }

  lemma CountPositive(guards: map<nat, Guard>, g: nat)
    requires g in guards
    ensures Count(guards, guards[g].slot) > 0
  {
    assert g in On(guards, guards[g].slot);
  }

  /** Moving a guard that stays on its buffer does not change the counts. */
  lemma CountedSet(metas: seq<Meta>, guards: map<nat, Guard>, pinned: seq<nat>, g: nat, q: Guard)
    requires Counted(metas, guards, pinned) && g in guards && guards[g].slot == q.slot
    ensures Counted(metas, guards[g := q], pinned)
  {
    forall i | 0 <= i < |metas| ensures metas[i].refcnt == Count(guards[g := q], i) + Pin(metas, i, pinned) {
      CountSet(guards, g, q, i);
    }
  }

  lemma DirtySet(guards: map<nat, Guard>, g: nat, q: Guard)
    requires (g in guards ==> !guards[g].dirty) && !q.dirty
    ensures Dirty(guards[g := q]) == Dirty(guards)
  {
    var r := guards[g := q];
    forall b | b in Dirty(guards) ensures b in Dirty(r) {
      var h :| h in guards && guards[h].dirty && guards[h].blockno == b;
      assert h in r && r[h].dirty && r[h].blockno == b;
    }
  }

  lemma DirtyMark(guards: map<nat, Guard>, g: nat)
    requires g in guards
    ensures Dirty(guards[g := guards[g].(dirty := true)]) == Dirty(guards) + {guards[g].blockno}
  {
    var r := guards[g := guards[g].(dirty := true)];
    assert r[g].dirty;
    forall b | b in Dirty(guards) ensures b in Dirty(r) {
      var h :| h in guards && guards[h].dirty && guards[h].blockno == b;
      assert h in r && r[h].dirty && r[h].blockno == b;
    }
  }

  lemma DirtyDrop(guards: map<nat, Guard>, g: nat)
    requires g in guards && !guards[g].dirty
    ensures Dirty(guards - {g}) == Dirty(guards)
  {
    forall b | b in Dirty(guards) ensures b in Dirty(guards - {g}) {
      var h :| h in guards && guards[h].dirty && guards[h].blockno == b;
      assert h in guards - {g};
    }
  }

  /** Writing or logging the bytes of a guard clears its block and no other. */
  lemma DirtyClear(guards: map<nat, Guard>, g: nat, q: Guard)
    requires g in guards && q == guards[g].(dirty := false)
    ensures Dirty(guards) - {q.blockno} <= Dirty(guards[g := q]) <= Dirty(guards)
  {
    var r := guards[g := q];
    forall b | b in Dirty(guards) && b != q.blockno ensures b in Dirty(r) {
      var h :| h in guards && guards[h].dirty && guards[h].blockno == b;
      assert h in r && r[h].dirty && r[h].blockno == b;
    }
    forall b | b in Dirty(r) ensures b in Dirty(guards) {
      var h :| h in r && r[h].dirty && r[h].blockno == b;
      assert h in guards && guards[h].dirty;
    }
  }

  /** A guard moves on while no other guard of its buffer holds the lock, or leaves the lock. */
  lemma GuardedStage(c: Config, metas: seq<Meta>, bufs: seq<Buf>, guards: map<nat, Guard>, active: set<nat>,
                     pend: Option<nat>, g: nat, stage: Stage)
    requires |bufs| == |metas| && Guarded(c, metas, bufs, guards, active, pend)
    requires g in guards && !guards[g].dirty && (stage.Filled? ==> bufs[guards[g].slot].valid)
    requires guards[g].Holds() || stage.Unlocked?
             || (forall h :: h in guards && guards[h].slot == guards[g].slot ==> !guards[h].Holds())
    ensures Guarded(c, metas, bufs, guards[g := guards[g].(stage := stage)], active, pend)
  {
    var r := guards[g := guards[g].(stage := stage)];
    forall h | h in r ensures GuardOk(c, metas, bufs, active, pend, h, r[h]) {
      assert GuardOk(c, metas, bufs, active, pend, h, guards[h]);
    }
  }

  lemma NotPending(s: State, g: nat)
    requires Inv(s) && g in s.guards && !s.guards[g].dirty
    ensures s.phase.Pending() != Some(g)
  {
    assert GuardOk(s.cfg, s.lru.metas, s.bufs, s.active, s.phase.Pending(), g, s.guards[g]);
  }

  ghost predicate SameBlocks(m: seq<Meta>, m': seq<Meta>) {
    |m| == |m'| && forall i :: 0 <= i < |m| ==> m[i].dev == m'[i].dev && m[i].blockno == m'[i].blockno
  }

  /** Only `Counted` looks at reference counts. */
  lemma SameBlocksKeep(c: Config, was: seq<Meta>, m: seq<Meta>, bufs: seq<Buf>, guards: map<nat, Guard>,
                       active: set<nat>, pend: Option<nat>, disk: seq<Block>, view: seq<Block>, pinned: seq<nat>)
    requires |bufs| == |was| && |disk| == |view| && SameBlocks(was, m)
    requires CacheOk(c, was, bufs, guards, active, pend, disk, view, pinned)
    ensures Unique(m, c.blocks) && Guarded(c, m, bufs, guards, active, pend)
    ensures Coherent(m, bufs, disk, view, Dirty(guards), pinned)
  {
    assert forall i: nat, b: nat :: Caches(m, i, b) <==> Caches(was, i, b);
    forall g | g in guards ensures GuardOk(c, m, bufs, active, pend, g, guards[g]) {
      assert GuardOk(c, was, bufs, active, pend, g, guards[g]);
    }
    forall b | b in pinned ensures InCache(m, bufs, b) {
      assert InCache(was, bufs, b);
      var i: nat :| Caches(was, i, b) && bufs[i].valid;
      assert Caches(m, i, b);
    }
  }

  /** A clean waiting guard joins. */
  lemma GuardedAdd(c: Config, metas: seq<Meta>, bufs: seq<Buf>, guards: map<nat, Guard>, active: set<nat>,
                   pend: Option<nat>, g: nat, q: Guard)
    requires |bufs| == |metas| && Guarded(c, metas, bufs, guards, active, pend)
    requires g !in guards && q.stage.Waiting? && !q.dirty && Caches(metas, q.slot, q.blockno)
    ensures Guarded(c, metas, bufs, guards[g := q], active, pend)
  {
    var r := guards[g := q];
    forall h | h in r ensures GuardOk(c, metas, bufs, active, pend, h, r[h]) {
      if h != g { assert GuardOk(c, metas, bufs, active, pend, h, guards[h]); }
    }
  }

  lemma GuardedDrop(c: Config, metas: seq<Meta>, bufs: seq<Buf>, guards: map<nat, Guard>, active: set<nat>,
                    pend: Option<nat>, g: nat)
    requires |bufs| == |metas| && Guarded(c, metas, bufs, guards, active, pend)
    requires g in guards && !guards[g].dirty
    ensures Guarded(c, metas, bufs, guards - {g}, active, pend) && pend != Some(g)
  {
    var r := guards - {g};
    assert GuardOk(c, metas, bufs, active, pend, g, guards[g]);
    forall h | h in r ensures GuardOk(c, metas, bufs, active, pend, h, r[h]) {
      assert GuardOk(c, metas, bufs, active, pend, h, guards[h]);
    }
  }

  /** A holder's new bytes show in the view, and its block becomes dirty. */
  lemma CoherentPut(metas: seq<Meta>, bufs: seq<Buf>, disk: seq<Block>, view: seq<Block>, dirty: set<nat>,
                    pinned: seq<nat>, i: nat, b: nat, data: Block)
    requires |bufs| == |metas| && |disk| == |view| && Unique(metas, |view|)
    requires Coherent(metas, bufs, disk, view, dirty, pinned) && Caches(metas, i, b) && bufs[i].valid && b < |view|
    ensures Coherent(metas, bufs[i := Buf(bufs[i].valid, data)], disk, view[b := data], dirty + {b}, pinned)
  {
    var r := bufs[i := Buf(bufs[i].valid, data)];
    forall x | x in pinned ensures InCache(metas, r, x) {
      assert InCache(metas, bufs, x);
      var j: nat :| Caches(metas, j, x) && bufs[j].valid;
      assert r[j].valid;
    }
  }

  lemma GuardedPut(c: Config, metas: seq<Meta>, bufs: seq<Buf>, guards: map<nat, Guard>, active: set<nat>,
                   pend: Option<nat>, g: nat, data: Block, pend': Option<nat>)
    requires |bufs| == |metas| && Guarded(c, metas, bufs, guards, active, pend)
    requires g in guards && guards[g].stage.Filled?
    requires if guards[g].owner.Op? then guards[g].owner.id in active && c.Home(guards[g].blockno) && pend' == pend
             else guards[g].owner.Logger? && pend.None? && pend' == Some(g)
    ensures var i := guards[g].slot;
            i < |bufs| && Guarded(c, metas, bufs[i := Buf(bufs[i].valid, data)], guards[g := guards[g].(dirty := true)],
                                  active, pend')
  {
    var r := guards[g := guards[g].(dirty := true)];
    ExclusiveSet(guards, g, r[g]);
    assert GuardOk(c, metas, bufs, active, pend, g, guards[g]);
    var bufs' := bufs[guards[g].slot := Buf(bufs[guards[g].slot].valid, data)];
    forall h | h in r ensures GuardOk(c, metas, bufs', active, pend', h, r[h]) {
      assert GuardOk(c, metas, bufs, active, pend, h, guards[h]);
    }
  }

  /** After its bytes were logged or written a guard is clean. */
  lemma GuardedClean(c: Config, metas: seq<Meta>, bufs: seq<Buf>, guards: map<nat, Guard>, active: set<nat>,
                     pend: Option<nat>, g: nat, pend': Option<nat>)
    requires |bufs| == |metas| && Guarded(c, metas, bufs, guards, active, pend)
    requires g in guards && if guards[g].owner.Op? then pend' == pend else pend == Some(g) && pend'.None?
    ensures Guarded(c, metas, bufs, guards[g := guards[g].(dirty := false)], active, pend')
  {
    var r := guards[g := guards[g].(dirty := false)];
    ExclusiveSet(guards, g, r[g]);
    forall h | h in r ensures GuardOk(c, metas, bufs, active, pend', h, r[h]) {
      assert GuardOk(c, metas, bufs, active, pend, h, guards[h]);
    }
    assert GuardOk(c, metas, bufs, active, pend, g, guards[g]);
  }

  /** A new guard adds a reference to its buffer. */
  lemma CountedAdd(metas: seq<Meta>, guards: map<nat, Guard>, pinned: seq<nat>, g: nat, q: Guard)
    requires Counted(metas, guards, pinned) && g !in guards && q.slot < |metas|
    ensures Counted(metas[q.slot := metas[q.slot].(refcnt := metas[q.slot].refcnt + 1)], guards[g := q], pinned)
  {
    var m := metas[q.slot := metas[q.slot].(refcnt := metas[q.slot].refcnt + 1)];
    forall j | 0 <= j < |m| ensures m[j].refcnt == Count(guards[g := q], j) + Pin(m, j, pinned) {
      CountSet(guards, g, q, j);
      assert Pin(m, j, pinned) == Pin(metas, j, pinned);
    }
  }

  lemma CountedDrop(metas: seq<Meta>, guards: map<nat, Guard>, pinned: seq<nat>, g: nat)
    requires Counted(metas, guards, pinned) && g in guards && guards[g].slot < |metas|
    requires metas[guards[g].slot].refcnt > 0
    ensures var i := guards[g].slot;
            Counted(metas[i := metas[i].(refcnt := metas[i].refcnt - 1)], guards - {g}, pinned)
  {
    var i := guards[g].slot;
    var m := metas[i := metas[i].(refcnt := metas[i].refcnt - 1)];
    forall j | 0 <= j < |m| ensures m[j].refcnt == Count(guards - {g}, j) + Pin(m, j, pinned) {
      CountDrop(guards, g, j);
      assert Pin(m, j, pinned) == Pin(metas, j, pinned);
    }
  }

  /** A buffer without references is not held, not pinned, and agrees with the disk. */
  lemma FreeBuffer(s: State, i: nat)
    requires Inv(s) && i < |s.lru.metas| && s.lru.metas[i].refcnt == 0
    ensures forall g :: g in s.guards ==> s.guards[g].slot != i
    ensures forall b: nat :: Caches(s.lru.metas, i, b) ==>
              b !in Pinned(s.log.header, s.phase) && b !in Dirty(s.guards) && s.disk[b] == s.view[b]
  {
    forall g | g in s.guards ensures s.guards[g].slot != i {
      if s.guards[g].slot == i { CountPositive(s.guards, g); }
    }
    forall b: nat | Caches(s.lru.metas, i, b)
      ensures b !in Pinned(s.log.header, s.phase) && b !in Dirty(s.guards) && s.disk[b] == s.view[b]
    {
    }
  }

  /** Giving a free buffer to a block that no buffer holds. */
  lemma CountedReuse(metas: seq<Meta>, guards: map<nat, Guard>, pinned: seq<nat>, i: nat, b: nat, g: nat, q: Guard)
    requires Counted(metas, guards, pinned) && g !in guards && q.slot == i < |metas| && metas[i].refcnt == 0
             && b !in pinned
    ensures Counted(metas[i := Meta(DEV, b, 1)], guards[g := q], pinned)
  {
    var m := metas[i := Meta(DEV, b, 1)];
    forall j | 0 <= j < |m| ensures m[j].refcnt == Count(guards[g := q], j) + Pin(m, j, pinned) {
      CountSet(guards, g, q, j);
      if j != i { assert Pin(m, j, pinned) == Pin(metas, j, pinned); }
    }
  }
}
