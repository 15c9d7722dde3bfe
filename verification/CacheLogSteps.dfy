/** Every step of the log over the cache keeps the invariant. */
module CacheLogSteps {
  import opened Prelude
  import opened Blocks
  import opened LruList
  import opened LogCore
  import opened CacheLog
  import opened CacheLogInv

  lemma BeginKeeps(s: State)
    requires Inv(s) && BeginStep(s).Some?
    ensures Inv(BeginStep(s).value)
  {
    BeginIs(s.log);
  }

  /** What a guard that stays clean and on its buffer can do. */
  lemma StageKeeps(s: State, g: nat, stage: Stage)
    requires Inv(s) && g in s.guards && !s.guards[g].dirty && (stage.Filled? ==> s.bufs[s.guards[g].slot].valid)
    requires s.guards[g].Holds() || stage.Unlocked?
             || (forall h :: h in s.guards && s.guards[h].slot == s.guards[g].slot ==> !s.guards[h].Holds())
    ensures Inv(s.(guards := s.guards[g := s.guards[g].(stage := stage)]))
  {
    var q := s.guards[g].(stage := stage);
    CountedSet(s.lru.metas, s.guards, Pinned(s.log.header, s.phase), g, q);
    DirtySet(s.guards, g, q);
    GuardedStage(s.cfg, s.lru.metas, s.bufs, s.guards, s.active, s.phase.Pending(), g, stage);
    NotPending(s, g);
    assert PendBlock(s.guards[g := q], s.phase) == PendBlock(s.guards, s.phase);
  }

  lemma LockKeeps(s: State, g: nat)
    requires Inv(s) && LockStep(s, g).Some?
    ensures Inv(LockStep(s, g).value)
  {
    assert GuardOk(s.cfg, s.lru.metas, s.bufs, s.active, s.phase.Pending(), g, s.guards[g]);
    StageKeeps(s, g, Locked);
  }

  /** Filling a buffer from the disk keeps the cache in order. */
  lemma LoadCache(c: Config, metas: seq<Meta>, bufs: seq<Buf>, guards: map<nat, Guard>, active: set<nat>,
                  pend: Option<nat>, disk: seq<Block>, view: seq<Block>, pinned: seq<nat>, g: nat)
    requires |bufs| == |metas| && |disk| == |view| == c.blocks
             && CacheOk(c, metas, bufs, guards, active, pend, disk, view, pinned)
    requires g in guards && guards[g].slot < |bufs| && !bufs[guards[g].slot].valid && guards[g].blockno < |disk|
    ensures CacheOk(c, metas, bufs[guards[g].slot := Buf(true, disk[guards[g].blockno])], guards, active, pend, disk,
                    view, pinned)
  {
    var i, b := guards[g].slot, guards[g].blockno;
    var r := bufs[i := Buf(true, disk[b])];
    assert forall h :: h in guards ==> GuardOk(c, metas, bufs, active, pend, h, guards[h]);
    assert Caches(metas, i, b);
    assert !InCache(metas, bufs, b);
    assert b !in Dirty(guards);
    assert disk[b] == view[b];
    forall x | x in pinned ensures InCache(metas, r, x) {
      assert InCache(metas, bufs, x);
      var j: nat :| Caches(metas, j, x) && bufs[j].valid;
      assert r[j].valid;
    }
  }

  /** Reading a block into a buffer that does not hold it yet. */
  lemma LoadKeeps(s: State, g: nat)
    requires Inv(s) && g in s.guards && s.guards[g].slot < |s.bufs| && !s.bufs[s.guards[g].slot].valid
    requires s.guards[g].blockno < |s.disk|
    ensures Inv(s.(bufs := s.bufs[s.guards[g].slot := Buf(true, s.disk[s.guards[g].blockno])]))
  {
    LoadCache(s.cfg, s.lru.metas, s.bufs, s.guards, s.active, s.phase.Pending(), s.disk, s.view,
              Pinned(s.log.header, s.phase), g);
  }

  lemma FillKeeps(s: State, g: nat)
    requires Inv(s) && FillStep(s, g).Some?
    ensures Inv(FillStep(s, g).value)
  {
    var i := s.guards[g].slot;
    assert GuardOk(s.cfg, s.lru.metas, s.bufs, s.active, s.phase.Pending(), g, s.guards[g]);
    if s.bufs[i].valid {
      assert s.bufs[i := s.bufs[i]] == s.bufs;
      StageKeeps(s, g, Filled);
    } else {
      LoadKeeps(s, g);
      StageKeeps(s.(bufs := s.bufs[i := Buf(true, s.disk[s.guards[g].blockno])]), g, Filled);
    }
  }

  lemma UnlockKeeps(s: State, g: nat)
    requires Inv(s) && UnlockStep(s, g).Some?
    ensures Inv(UnlockStep(s, g).value)
  {
    StageKeeps(s, g, Unlocked);
  }

  lemma EndCommitKeeps(s: State)
    requires Inv(s) && EndCommitStep(s).Some?
    ensures Inv(EndCommitStep(s).value)
  {
  }

  lemma EndKeeps(s: State, id: nat)
    requires Inv(s) && EndStep(s, id).Some?
    ensures Inv(EndStep(s, id).value)
  {
    assert |s.active| > 0 by { assert s.active == s.active - {id} + {id}; }
    EndIs(s.log);
  }

  lemma HitKeeps(s: State, i: nat, g: nat, owner: Owner, b: nat)
    requires Inv(s) && g !in s.guards && Caches(s.lru.metas, i, b)
    ensures Inv(s.(lru := Hit(s.lru, i), guards := s.guards[g := Guard(i, b, owner, Waiting, false)]))
  {
    var q, m := Guard(i, b, owner, Waiting, false), Hit(s.lru, i).metas;
    SameBlocksKeep(s.cfg, s.lru.metas, m, s.bufs, s.guards, s.active, s.phase.Pending(), s.disk, s.view,
                   Pinned(s.log.header, s.phase));
    CountedAdd(s.lru.metas, s.guards, Pinned(s.log.header, s.phase), g, q);
    GuardedAdd(s.cfg, m, s.bufs, s.guards, s.active, s.phase.Pending(), g, q);
    DirtySet(s.guards, g, q);
    assert PendBlock(s.guards[g := q], s.phase) == PendBlock(s.guards, s.phase);
  }

  /** Dropping a clean guard: the cache. */
  lemma DropCache(c: Config, metas: seq<Meta>, bufs: seq<Buf>, guards: map<nat, Guard>, active: set<nat>,
                  pend: Option<nat>, disk: seq<Block>, view: seq<Block>, pinned: seq<nat>, g: nat)
    requires |bufs| == |metas| && |disk| == |view| && CacheOk(c, metas, bufs, guards, active, pend, disk, view, pinned)
    requires g in guards && !guards[g].dirty && guards[g].slot < |metas| && metas[guards[g].slot].refcnt > 0
    ensures var i := guards[g].slot;
            CacheOk(c, metas[i := metas[i].(refcnt := metas[i].refcnt - 1)], bufs, guards - {g}, active, pend, disk,
                    view, pinned)
    ensures Dirty(guards - {g}) == Dirty(guards) && pend != Some(g)
  {
    var i := guards[g].slot;
    var m := metas[i := metas[i].(refcnt := metas[i].refcnt - 1)];
    SameBlocksKeep(c, metas, m, bufs, guards, active, pend, disk, view, pinned);
    CountedDrop(metas, guards, pinned, g);
    GuardedDrop(c, m, bufs, guards, active, pend, g);
    DirtyDrop(guards, g);
  }

  lemma DropKeeps(s: State, g: nat)
    requires Inv(s) && DropStep(s, g).Some?
    ensures Inv(DropStep(s, g).value)
  {
    assert GuardOk(s.cfg, s.lru.metas, s.bufs, s.active, s.phase.Pending(), g, s.guards[g]);
    ReleaseValid(s.lru, s.guards[g].slot);
    DropCache(s.cfg, s.lru.metas, s.bufs, s.guards, s.active, s.phase.Pending(), s.disk, s.view,
              Pinned(s.log.header, s.phase), g);
  }

  /** Reusing a free buffer disturbs no guard, no pin and no byte that is only in the cache. */
  lemma ReuseParts(s: State, i: nat, b: nat)
    requires Inv(s) && i < |s.lru.metas| && s.lru.metas[i].refcnt == 0 && b < s.cfg.blocks
    requires forall j: nat :: !Caches(s.lru.metas, j, b)
    ensures var m, bufs := s.lru.metas[i := Meta(DEV, b, 1)], s.bufs[i := s.bufs[i].(valid := false)];
            && Unique(m, s.cfg.blocks)
            && Guarded(s.cfg, m, bufs, s.guards, s.active, s.phase.Pending())
            && Coherent(m, bufs, s.disk, s.view, Dirty(s.guards), Pinned(s.log.header, s.phase))
    ensures b !in Pinned(s.log.header, s.phase)
  {
    var was, m, bufs := s.lru.metas, s.lru.metas[i := Meta(DEV, b, 1)], s.bufs[i := s.bufs[i].(valid := false)];
    FreeBuffer(s, i);
    assert forall j: nat, x: nat :: Caches(m, j, x) <==> if j == i then x == b else Caches(was, j, x);
    forall g | g in s.guards ensures GuardOk(s.cfg, m, bufs, s.active, s.phase.Pending(), g, s.guards[g]) {
      assert GuardOk(s.cfg, was, s.bufs, s.active, s.phase.Pending(), g, s.guards[g]);
    }
    forall x | x in Pinned(s.log.header, s.phase) ensures InCache(m, bufs, x) {
      assert InCache(was, s.bufs, x);
      var j: nat :| Caches(was, j, x) && s.bufs[j].valid;
      assert Caches(m, j, x) && bufs[j].valid;
    }
    assert !InCache(was, s.bufs, b);
  }

  lemma ReuseKeeps(s: State, i: nat, g: nat, owner: Owner, b: nat)
    requires Inv(s) && g !in s.guards && i < |s.lru.metas| && s.lru.metas[i].refcnt == 0 && b < s.cfg.blocks
    requires forall j: nat :: !Caches(s.lru.metas, j, b)
    ensures Inv(s.(lru := Reuse(s.lru, i, DEV, b), bufs := s.bufs[i := s.bufs[i].(valid := false)],
                   guards := s.guards[g := Guard(i, b, owner, Waiting, false)]))
  {
    var q, m, bufs := Guard(i, b, owner, Waiting, false), s.lru.metas[i := Meta(DEV, b, 1)],
        s.bufs[i := s.bufs[i].(valid := false)];
    ReuseParts(s, i, b);
    CountedReuse(s.lru.metas, s.guards, Pinned(s.log.header, s.phase), i, b, g, q);
    GuardedAdd(s.cfg, m, bufs, s.guards, s.active, s.phase.Pending(), g, q);
    DirtySet(s.guards, g, q);
    assert PendBlock(s.guards[g := q], s.phase) == PendBlock(s.guards, s.phase);
  }

  lemma GetKeeps(s: State, g: nat, owner: Owner, b: nat)
    requires Inv(s) && GetStep(s, g, owner, b).Some?
    ensures Inv(GetStep(s, g, owner, b).value)
  {
    var hit := FindBuf(s.lru, DEV, b);
    if hit.Some? {
      HitKeeps(s, hit.value, g, owner, b);
    } else {
      assert forall j: nat :: Caches(s.lru.metas, j, b) ==> Matches(s.lru.metas[j], DEV, b);
      ReuseKeeps(s, Victim(s.lru).value, g, owner, b);
    }
  }

  /** New bytes under a guard: everything but the phase. */
  lemma PutParts(s: State, g: nat, data: Block, phase: Phase)
    requires Inv(s) && g in s.guards && s.guards[g].stage.Filled?
    requires if s.guards[g].owner.Op? then
               s.guards[g].owner.id in s.active && s.cfg.Home(s.guards[g].blockno) && phase == s.phase
             else s.guards[g].owner.Logger? && s.phase.Pending().None? && phase.Pending() == Some(g)
    requires Pinned(s.log.header, phase) == Pinned(s.log.header, s.phase)
    ensures s.guards[g].slot < |s.bufs| && s.guards[g].blockno < |s.view|
    ensures var r, b := Put(s, g, data).(phase := phase), s.guards[g].blockno;
            && Shape(r) && r.view == s.view[b := data] && Dirty(r.guards) == Dirty(s.guards) + {b}
            && PendBlock(r.guards, phase) == (if s.guards[g].owner.Op? then PendBlock(s.guards, s.phase) else Some(b))
            && CacheOk(r.cfg, r.lru.metas, r.bufs, r.guards, r.active, r.phase.Pending(), r.disk, r.view,
                       Pinned(r.log.header, r.phase))
  {
    var q, pinned := s.guards[g], Pinned(s.log.header, s.phase);
    assert GuardOk(s.cfg, s.lru.metas, s.bufs, s.active, s.phase.Pending(), g, q);
    CountedSet(s.lru.metas, s.guards, pinned, g, q.(dirty := true));
    GuardedPut(s.cfg, s.lru.metas, s.bufs, s.guards, s.active, s.phase.Pending(), g, data, phase.Pending());
    CoherentPut(s.lru.metas, s.bufs, s.disk, s.view, Dirty(s.guards), pinned, q.slot, q.blockno, data);
    DirtyMark(s.guards, g);
  }

  /** The logger overwrites a buffer it holds. */
  lemma PutKeeps(s: State, g: nat, data: Block, phase: Phase)
    requires Inv(s) && g in s.guards && s.guards[g].stage.Filled? && s.guards[g].blockno < |s.view|
    requires s.guards[g].owner.Logger? && s.phase.Pending().None? && phase.Pending() == Some(g)
    requires Pinned(s.log.header, phase) == Pinned(s.log.header, s.phase) && Counters(s.log, phase, s.active, s.cur)
    requires var b := s.guards[g].blockno;
             PhaseOk(s.cfg, s.disk, s.view[b := data], Dirty(s.guards) + {b}, s.log.header, phase, Some(b),
                     Committed(s), s.cur)
    ensures s.guards[g].slot < |s.bufs| && Inv(Put(s, g, data).(phase := phase))
  {
    PutParts(s, g, data, phase);
  }

  lemma ModifyKeeps(s: State, g: nat, data: Block)
    requires Inv(s) && ModifyStep(s, g, data).Some?
    ensures Inv(ModifyStep(s, g, data).value)
  {
    PutParts(s, g, data, s.phase);
    var r := ModifyStep(s, g, data).value;
    assert s.phase.Idle?;
    ShowsMark(s.cfg, s.view, Dirty(s.guards), Applied(Committed(s), s.cur), s.guards[g].blockno, data);
  }

  lemma ShowsMark(c: Config, view: seq<Block>, dirty: set<nat>, target: seq<Block>, b: nat, data: Block)
    requires |view| == |target| == c.blocks && Shows(c, view, dirty, target) && b < c.blocks
    ensures Shows(c, view[b := data], dirty + {b}, target)
  {
  }

  // ---- Logging ----

  lemma AppliedSnoc(d: seq<Block>, t: Txn, w: Rec)
    requires w.blockno < |d|
    ensures Applied(d, t + [w]) == Applied(d, t)[w.blockno := w.data]
  {
    assert (t + [w])[..|t|] == t;
  }

  lemma AppliedAllSnoc(d: seq<Block>, ts: seq<Txn>, t: Txn)
    ensures AppliedAll(d, ts + [t]) == Applied(AppliedAll(d, ts), t)
  {
    assert (ts + [t])[..|ts|] == ts;
  }

  lemma OpsSnoc(t: Txn, w: Rec)
    ensures Ops(t + [w]) == Ops(t) + {w.op}
  {
    var r := t + [w];
    assert r[|t|] == w;
    forall id | id in Ops(t) ensures id in Ops(r) {
      var k :| 0 <= k < |t| && t[k].op == id;
      assert r[k].op == id;
    }
  }

  /** Logging a block that was not logged pins its buffer. */
  lemma CountedPin(metas: seq<Meta>, guards: map<nat, Guard>, pinned: seq<nat>, i: nat, b: nat)
    requires Counted(metas, guards, pinned) && Caches(metas, i, b) && b !in pinned
    requires forall j: nat :: Caches(metas, j, b) ==> j == i
    ensures Counted(metas[i := metas[i].(refcnt := metas[i].refcnt + 1)], guards, pinned + [b])
  {
    var m := metas[i := metas[i].(refcnt := metas[i].refcnt + 1)];
    forall j | 0 <= j < |m| ensures m[j].refcnt == Count(guards, j) + Pin(m, j, pinned + [b]) {
      if j != i { assert !Caches(metas, j, b); }
    }
  }

  /** The bytes of a valid buffer are those of the view. */
  lemma HeldBytes(s: State, g: nat)
    requires Inv(s) && g in s.guards && s.guards[g].stage.Filled?
    ensures var q := s.guards[g];
            && Caches(s.lru.metas, q.slot, q.blockno) && q.blockno < s.cfg.blocks
            && s.bufs[q.slot].valid && s.bufs[q.slot].data == s.view[q.blockno]
            && InCache(s.lru.metas, s.bufs, q.blockno)
  {
    assert GuardOk(s.cfg, s.lru.metas, s.bufs, s.active, s.phase.Pending(), g, s.guards[g]);
  }

  lemma GoodRecord(c: Config, l: Log, b: nat)
    requires GoodHeader(c, l.header) && c.Home(b) && !WritePanics(l, c.size)
    ensures GoodHeader(c, Record(l, b).header)
  {
    var h, r := l.header, Record(l, b).header;
    assert r.Logged() == h.Logged() + if b in h.Logged() then [] else [b];
    forall i | 0 <= i < r.n ensures c.Home(r.blocknos[i]) {
      assert r.blocknos[i] == r.Logged()[i];
    }
  }

  /** What logging adds to the history. */
  lemma HistoryParts(s: State, g: nat)
    requires Inv(s) && LogWriteStep(s, g).Some?
    ensures var r, b := LogWriteStep(s, g).value, s.guards[g].blockno;
            && Counters(r.log, r.phase, r.active, r.cur) && Unsplit(r.txns, r.cur, r.active, r.nextOp)
            && Applied(Committed(r), r.cur) == Applied(Committed(s), s.cur)[b := s.view[b]]
  {
    HeldBytes(s, g);
    var r, b := LogWriteStep(s, g).value, s.guards[g].blockno;
    var w := Rec(s.guards[g].owner.id, b, s.view[b]);
    OpsSnoc(s.cur, w);
    AppliedSnoc(Committed(s), s.cur, w);
  }

  /** Once logged, the block shows what was logged. */
  lemma ShowsLogged(c: Config, view: seq<Block>, dirty: set<nat>, dirty': set<nat>, target: seq<Block>, b: nat)
    requires |view| == |target| == c.blocks && Shows(c, view, dirty, target) && dirty - {b} <= dirty' && b < c.blocks
    ensures Shows(c, view, dirty', target[b := view[b]])
  {
    forall x: nat | c.Home(x) && x !in dirty' ensures view[x] == target[b := view[b]][x] {
      if x != b { assert x !in dirty; }
    }
  }

  lemma CoherentLogged(metas: seq<Meta>, bufs: seq<Buf>, disk: seq<Block>, view: seq<Block>, dirty: set<nat>,
                       dirty': set<nat>, pinned: seq<nat>, pinned': seq<nat>, b: nat)
    requires |bufs| == |metas| && |disk| == |view| && Coherent(metas, bufs, disk, view, dirty, pinned)
    requires InCache(metas, bufs, b) && dirty - {b} <= dirty'
    requires forall x :: x in pinned' <==> x in pinned || x == b
    ensures Coherent(metas, bufs, disk, view, dirty', pinned')
  {
    forall x | 0 <= x < |view| ensures disk[x] == view[x] || x in pinned' || x in dirty' {
      if x != b && disk[x] != view[x] && x !in pinned { assert x in dirty; }
    }
  }

  /** Logging the bytes of a guard: the cache. */
  lemma LogWriteCache(c: Config, metas: seq<Meta>, bufs: seq<Buf>, guards: map<nat, Guard>, active: set<nat>,
                      disk: seq<Block>, view: seq<Block>, pinned: seq<nat>, g: nat)
    requires |bufs| == |metas| && |disk| == |view| && CacheOk(c, metas, bufs, guards, active, None, disk, view, pinned)
    requires g in guards && guards[g].stage.Filled? && guards[g].owner.Op? && guards[g].slot < |metas|
    ensures var q := guards[g];
            var r, b, m := guards[g := q.(dirty := false)], q.blockno,
                metas[q.slot := metas[q.slot].(refcnt := metas[q.slot].refcnt + 1)];
            && Dirty(guards) - {b} <= Dirty(r)
            && if b in pinned then CacheOk(c, metas, bufs, r, active, None, disk, view, pinned)
               else CacheOk(c, m, bufs, r, active, None, disk, view, pinned + [b])
  {
    var q := guards[g];
    var r, b, m := guards[g := q.(dirty := false)], q.blockno,
        metas[q.slot := metas[q.slot].(refcnt := metas[q.slot].refcnt + 1)];
    assert GuardOk(c, metas, bufs, active, None, g, q);
    DirtyClear(guards, g, q.(dirty := false));
    SameBlocksKeep(c, metas, m, bufs, guards, active, None, disk, view, pinned);
    CountedSet(metas, guards, pinned, g, q.(dirty := false));
    if b in pinned {
      GuardedClean(c, metas, bufs, guards, active, None, g, None);
      CoherentLogged(metas, bufs, disk, view, Dirty(guards), Dirty(r), pinned, pinned, b);
    } else {
      GuardedClean(c, m, bufs, guards, active, None, g, None);
      CountedPin(metas, r, pinned, q.slot, b);
      assert Caches(m, q.slot, b);
      CoherentLogged(m, bufs, disk, view, Dirty(guards), Dirty(r), pinned, pinned + [b], b);
    }
  }

  lemma LogWriteKeeps(s: State, g: nat)
    requires Inv(s) && LogWriteStep(s, g).Some?
    ensures Inv(LogWriteStep(s, g).value)
  {
    var r, b := LogWriteStep(s, g).value, s.guards[g].blockno;
    assert s.phase.Idle?;
    LogWriteCache(s.cfg, s.lru.metas, s.bufs, s.guards, s.active, s.disk, s.view, s.log.header.Logged(), g);
    HistoryParts(s, g);
    GoodRecord(s.cfg, s.log, b);
    ShowsLogged(s.cfg, s.view, Dirty(s.guards), Dirty(r.guards), Applied(Committed(s), s.cur), b);
  }
}
