/** The steps of a commit and of a recovery keep the invariant of the log over the cache. */
module CacheLogCommit {
  import opened Prelude
  import opened Blocks
  import opened LruList
  import opened LogCore
  import opened CacheLog
  import opened CacheLogInv
  import opened CacheLogSteps

  /** While no operation runs, only the logger's pending block can be dirty. */
  lemma OnlyPendingDirty(c: Config, metas: seq<Meta>, bufs: seq<Buf>, guards: map<nat, Guard>, pend: Option<nat>)
    requires |bufs| == |metas| && Guarded(c, metas, bufs, guards, {}, pend)
    ensures Dirty(guards) == if pend.Some? then {guards[pend.value].blockno} else {}
  {
    forall b | b in Dirty(guards) ensures pend.Some? && guards[pend.value].blockno == b {
      var g :| g in guards && guards[g].dirty && guards[g].blockno == b;
      assert GuardOk(c, metas, bufs, {}, pend, g, guards[g]);
    }
    if pend.Some? {
      assert GuardOk(c, metas, bufs, {}, pend, pend.value, guards[pend.value]);
    }
  }

  /** Blocks outside the pins and the pending block are on the disk as the view shows them. */
  lemma OnDisk(s: State, b: nat)
    requires Inv(s) && s.active == {} && b < s.cfg.blocks
    requires b !in Pinned(s.log.header, s.phase) && PendBlock(s.guards, s.phase) != Some(b)
    ensures s.disk[b] == s.view[b]
  {
    OnlyPendingDirty(s.cfg, s.lru.metas, s.bufs, s.guards, s.phase.Pending());
  }

  lemma LogBlockNotPinned(s: State, b: nat)
    requires Inv(s) && s.cfg.start <= b < s.cfg.start + s.cfg.size
    ensures b !in Pinned(s.log.header, s.phase)
  {
    var h := s.log.header;
    assert forall i :: 0 <= i < h.n ==> h.blocknos[i] != b;
  }

  lemma LogBlockOnDisk(s: State, b: nat)
    requires Inv(s) && s.active == {} && s.cfg.start <= b < s.cfg.start + s.cfg.size && s.phase.Pending().None?
    ensures s.disk[b] == s.view[b]
  {
    LogBlockNotPinned(s, b);
    OnDisk(s, b);
  }

  // ---- What each step does to disk and view ----

  ghost predicate Sized(c: Config, disk: seq<Block>, view: seq<Block>, p: seq<Block>, h: Header) {
    |disk| == |view| == |p| == c.blocks && c.start + c.size <= c.blocks && GoodHeader(c, h)
  }

  lemma PhaseCopyToLog(c: Config, disk: seq<Block>, view: seq<Block>, dirty: set<nat>, h: Header, t: nat, p: seq<Block>,
                       cur: Txn, b: nat, g: nat, data: Block)
    requires Sized(c, disk, view, p, h) && PhaseOk(c, disk, view, dirty, h, WriteLog(t, None), None, p, cur)
    requires t < h.n && data == view[h.blocknos[t]] && b == c.start + 1 + t
    ensures PhaseOk(c, disk, view[b := data], dirty + {b}, h, WriteLog(t, Some(g)), Some(b), p, cur)
  {
    ShowsMark(c, view, dirty, Applied(p, cur), b, data);
    forall i | 0 <= i < t ensures disk[c.start + 1 + i] == view[b := data][h.blocknos[i]] {
      assert c.Home(h.blocknos[i]);
    }
    assert c.Home(h.blocknos[t]);
  }

  lemma PhaseCopyHead(c: Config, disk: seq<Block>, view: seq<Block>, dirty: set<nat>, h: Header, phase: Phase,
                      p: seq<Block>, cur: Txn, g: nat, data: Block)
    requires Sized(c, disk, view, p, h) && PhaseOk(c, disk, view, dirty, h, phase, None, p, cur)
    requires (phase.WriteHead? || phase.Erase? || phase.RecErase?) && GetHeader(data) == h
    ensures PhaseOk(c, disk, view[c.start := data], dirty + {c.start}, h, Copied(phase, g), Some(c.start), p, cur)
  {
    forall i | 0 <= i < h.n ensures view[c.start := data][h.blocknos[i]] == view[h.blocknos[i]] {
      assert c.Home(h.blocknos[i]);
    }
  }

  /** The log block being installed holds the committed bytes of its home block. */
  lemma LoggedIs(c: Config, disk: seq<Block>, target: seq<Block>, h: Header, t: nat)
    requires h.Valid() && RecoversTo(c, disk, target) && SameHeader(h, GetHeader(disk[c.start])) && t < h.n
    ensures c.start + 1 + t < |disk| && h.blocknos[t] < |target| && disk[c.start + 1 + t] == target[h.blocknos[t]]
  {
    assert h.Logged()[t] == GetHeader(disk[c.start]).Logged()[t];
  }

  lemma PhaseCopyHome(c: Config, disk: seq<Block>, view: seq<Block>, dirty: set<nat>, h: Header, phase: Phase,
                      p: seq<Block>, cur: Txn, g: nat, data: Block)
    requires Sized(c, disk, view, p, h) && PhaseOk(c, disk, view, dirty, h, phase, None, p, cur)
    requires (phase.Install? && !phase.written) || phase.RecInstall?
    requires phase.tail < h.n && c.start + 1 + phase.tail < |disk| && data == disk[c.start + 1 + phase.tail]
    ensures var b := h.blocknos[phase.tail];
            PhaseOk(c, disk, view[b := data], dirty + {b}, h, Copied(phase, g), Some(b), p, cur)
  {
    LoggedIs(c, disk, p, h, phase.tail);
  }

  /** Writing a log block while no header names it. */
  lemma PhaseWroteLog(c: Config, disk: seq<Block>, view: seq<Block>, h: Header, t: nat, p: seq<Block>, cur: Txn,
                      b: nat, g: Option<nat>)
    requires Sized(c, disk, view, p, h) && b < c.blocks
             && PhaseOk(c, disk, view, {b}, h, WriteLog(t, g), Some(b), p, cur)
    ensures PhaseOk(c, disk[b := view[b]], view, {}, h, WriteLog(t + 1, None), None, p, cur)
  {
    assert b == c.start + 1 + t;
    assert disk[b := view[b]][c.start] == disk[c.start];
  }

  /** The commit point: the header lands, and the disk now recovers to what the view shows. */
  lemma PhaseWroteHead(c: Config, disk: seq<Block>, view: seq<Block>, h: Header, p: seq<Block>,
                       cur: Txn, g: Option<nat>)
    requires Sized(c, disk, view, p, h) && PhaseOk(c, disk, view, {c.start}, h, WriteHead(g), Some(c.start), p, cur)
    requires forall b: nat :: c.Home(b) && b !in h.Logged() ==> disk[b] == view[b]
    ensures PhaseOk(c, disk[c.start := view[c.start]], view, {}, h, Install(0, None, false), None, Applied(p, cur), [])
  {
    var disk', target := disk[c.start := view[c.start]], Applied(p, cur);
    forall i | 0 <= i < h.n ensures disk'[c.start + 1 + i] == target[h.blocknos[i]] {
      assert c.Home(h.blocknos[i]);
    }
  }

  lemma PhaseWroteHome(c: Config, disk: seq<Block>, view: seq<Block>, h: Header, phase: Phase, p: seq<Block>, cur: Txn)
    requires Sized(c, disk, view, p, h) && (phase.Install? || phase.RecInstall?) && phase.tail < h.n && phase.pend.Some?
    requires PhaseOk(c, disk, view, {h.blocknos[phase.tail]}, h, phase, Some(h.blocknos[phase.tail]), p, cur)
    ensures var b := h.blocknos[phase.tail];
            PhaseOk(c, disk[b := view[b]], view, {}, h, AfterBwrite(phase), None, p, cur)
  {
    var b := h.blocknos[phase.tail];
    assert c.Home(b) && h.Logged()[phase.tail] == b;
    assert disk[b := view[b]][c.start] == disk[c.start];
  }

  /** Erasing the header once every home block is installed. */
  lemma PhaseErased(c: Config, disk: seq<Block>, view: seq<Block>, h: Header, phase: Phase, p: seq<Block>, cur: Txn)
    requires Sized(c, disk, view, p, h) && (phase.Erase? || phase.RecErase?) && phase.pend.Some?
    requires PhaseOk(c, disk, view, {c.start}, h, phase, Some(c.start), p, cur)
    requires forall b: nat :: c.Home(b) ==> disk[b] == view[b]
    ensures PhaseOk(c, disk[c.start := view[c.start]], view, {}, h, AfterBwrite(phase), None, p, cur)
  {
  }

  // ---- The steps ----

  lemma CopyToLogPhase(s: State, from: nat, to: nat)
    requires Inv(s) && CopyToLogStep(s, from, to).Some?
    ensures var b, data := s.guards[to].blockno, s.bufs[s.guards[from].slot].data;
            PhaseOk(s.cfg, s.disk, s.view[b := data], Dirty(s.guards) + {b}, s.log.header,
                    WriteLog(s.phase.tail, Some(to)), Some(b),
                    Committed(s), s.cur)
  {
    HeldBytes(s, from);
    PhaseCopyToLog(s.cfg, s.disk, s.view, Dirty(s.guards), s.log.header, s.phase.tail, Committed(s), s.cur,
                   s.guards[to].blockno, to, s.bufs[s.guards[from].slot].data);
  }

  lemma CopyToLogKeeps(s: State, from: nat, to: nat)
    requires Inv(s) && CopyToLogStep(s, from, to).Some?
    ensures Inv(CopyToLogStep(s, from, to).value)
  {
    CopyToLogPhase(s, from, to);
    PutKeeps(s, to, s.bufs[s.guards[from].slot].data, WriteLog(s.phase.tail, Some(to)));
  }

  lemma HeaderKeeps(s: State, g: nat, data: Block)
    requires Inv(s) && (s.phase.WriteHead? || s.phase.Erase? || s.phase.RecErase?) && s.phase.pend.None?
             && Has(s, g, s.cfg.start, Logger)
    requires GetHeader(data) == s.log.header
    ensures Inv(Put(s, g, data).(phase := Copied(s.phase, g)))
  {
    PhaseCopyHead(s.cfg, s.disk, s.view, Dirty(s.guards), s.log.header, s.phase, Committed(s), s.cur, g, data);
    PutKeeps(s, g, data, Copied(s.phase, g));
  }

  lemma CopyHeadKeeps(s: State, g: nat)
    requires Inv(s) && CopyHeadStep(s, g).Some?
    ensures Inv(CopyHeadStep(s, g).value)
  {
    HeaderKeeps(s, g, PutHeader(s.bufs[s.guards[g].slot].data, s.log.header));
  }

  /** The bytes of a log block that the logger holds are on disk. */
  lemma HeldOnDisk(s: State, g: nat, b: nat)
    requires Inv(s) && (s.phase.Install? || s.phase.RecInstall?) && s.phase.pend.None? && Has(s, g, b, Logger)
    requires s.cfg.start <= b < s.cfg.start + s.cfg.size
    ensures b < |s.disk| && s.bufs[s.guards[g].slot].data == s.disk[b]
  {
    LogBlockOnDisk(s, b);
    HeldBytes(s, g);
  }

  lemma CopyHomePhase(s: State, from: nat, to: nat)
    requires Inv(s) && CopyHomeStep(s, from, to).Some?
    ensures var b, data := s.guards[to].blockno, s.bufs[s.guards[from].slot].data;
            PhaseOk(s.cfg, s.disk, s.view[b := data], Dirty(s.guards) + {b}, s.log.header, Copied(s.phase, to), Some(b),
                    Committed(s), s.cur)
  {
    HeldOnDisk(s, from, s.cfg.start + 1 + s.phase.tail);
    PhaseCopyHome(s.cfg, s.disk, s.view, Dirty(s.guards), s.log.header, s.phase, Committed(s), s.cur, to,
                  s.bufs[s.guards[from].slot].data);
  }

  lemma CopyHomeKeeps(s: State, from: nat, to: nat)
    requires Inv(s) && CopyHomeStep(s, from, to).Some?
    ensures Inv(CopyHomeStep(s, from, to).value)
  {
    CopyHomePhase(s, from, to);
    PutKeeps(s, to, s.bufs[s.guards[from].slot].data, Copied(s.phase, to));
  }

  lemma CoherentWrite(metas: seq<Meta>, bufs: seq<Buf>, disk: seq<Block>, view: seq<Block>, dirty: set<nat>,
                      dirty': set<nat>, pinned: seq<nat>, b: nat)
    requires |bufs| == |metas| && |disk| == |view| && Coherent(metas, bufs, disk, view, dirty, pinned)
    requires b < |view| && dirty - {b} <= dirty'
    ensures Coherent(metas, bufs, disk[b := view[b]], view, dirty', pinned)
  {
    forall x | 0 <= x < |view| ensures disk[b := view[b]][x] == view[x] || x in pinned || x in dirty' {
      if x != b && disk[x] != view[x] && x !in pinned { assert x in dirty; }
    }
  }

  lemma NoLongerDirty(c: Config, metas: seq<Meta>, bufs: seq<Buf>, guards: map<nat, Guard>, g: nat)
    requires |bufs| == |metas| && Guarded(c, metas, bufs, guards, {}, Some(g))
    ensures Dirty(guards[g := guards[g].(dirty := false)]) == {}
  {
    var r := guards[g := guards[g].(dirty := false)];
    forall h | h in r ensures !r[h].dirty {
      assert GuardOk(c, metas, bufs, {}, Some(g), h, guards[h]);
    }
  }

  /** The pending block reaches the disk: the cache. */
  lemma BwriteCache(c: Config, metas: seq<Meta>, bufs: seq<Buf>, guards: map<nat, Guard>, g: nat, disk: seq<Block>,
                    view: seq<Block>, pinned: seq<nat>)
    requires |bufs| == |metas| && |disk| == |view| == c.blocks && g in guards
    requires CacheOk(c, metas, bufs, guards, {}, Some(g), disk, view, pinned)
    ensures var q := guards[g];
            var r := guards[g := q.(dirty := false)];
            && q.slot < |bufs| && q.blockno < c.blocks && q.owner.Logger?
            && bufs[q.slot].data == view[q.blockno] && Dirty(guards) == {q.blockno} && Dirty(r) == {}
            && CacheOk(c, metas, bufs, r, {}, None, disk[q.blockno := view[q.blockno]], view, pinned)
  {
    var q := guards[g];
    assert GuardOk(c, metas, bufs, {}, Some(g), g, q);
    OnlyPendingDirty(c, metas, bufs, guards, Some(g));
    NoLongerDirty(c, metas, bufs, guards, g);
    CountedSet(metas, guards, pinned, g, q.(dirty := false));
    GuardedClean(c, metas, bufs, guards, {}, Some(g), g, None);
    CoherentWrite(metas, bufs, disk, view, Dirty(guards), {}, pinned, q.blockno);
  }

  lemma BwriteParts(s: State)
    requires Inv(s) && BwriteStep(s).Some?
    ensures var r := BwriteStep(s).value;
            var b := s.guards[s.phase.Pending().value].blockno;
            && b < |s.disk| && s.active == {} && PendBlock(s.guards, s.phase) == Some(b)
                && PendBlock(r.guards, r.phase) == None
            && Dirty(s.guards) == {b} && Dirty(r.guards) == {} && r.disk == s.disk[b := s.view[b]]
            && CacheOk(r.cfg, r.lru.metas, r.bufs, r.guards, r.active, r.phase.Pending(), r.disk, r.view,
                       Pinned(r.log.header, r.phase))
  {
    var r := BwriteStep(s).value;
    assert Pinned(r.log.header, r.phase) == Pinned(s.log.header, s.phase);
    BwriteCache(s.cfg, s.lru.metas, s.bufs, s.guards, s.phase.Pending().value, s.disk, s.view,
                Pinned(s.log.header, s.phase));
  }

  lemma BwriteKeeps(s: State)
    requires Inv(s) && BwriteStep(s).Some?
    ensures Inv(BwriteStep(s).value)
  {
    BwriteParts(s);
    BwritePhase(s);
    BwriteHistory(s);
  }

  lemma BwriteCounters(s: State)
    requires Inv(s) && BwriteStep(s).Some?
    ensures var r := BwriteStep(s).value; Counters(r.log, r.phase, r.active, r.cur)
  {
  }

  lemma UnsplitCommit(txns: seq<Txn>, cur: Txn, active: set<nat>, nextOp: nat)
    requires Unsplit(txns, cur, active, nextOp) && active == {}
    ensures Unsplit(txns + [cur], [], active, nextOp)
  {
    assert Ops([]) == {};
  }

  lemma BwriteHistory(s: State)
    requires Inv(s) && BwriteStep(s).Some?
    ensures var r := BwriteStep(s).value;
            && Counters(r.log, r.phase, r.active, r.cur) && Unsplit(r.txns, r.cur, r.active, r.nextOp)
  {
    BwriteCounters(s);
    if s.phase.WriteHead? { UnsplitCommit(s.txns, s.cur, s.active, s.nextOp); }
  }

  lemma BwritePhase(s: State)
    requires Inv(s) && BwriteStep(s).Some?
    ensures var r := BwriteStep(s).value;
            PhaseOk(r.cfg, r.disk, r.view, Dirty(r.guards), r.log.header, r.phase, PendBlock(r.guards, r.phase),
                    Committed(r), r.cur)
  {
    if s.phase.WriteHead? { BwriteHeadPhase(s); }
    else if s.phase.WriteLog? { BwriteLogPhase(s); }
    else if s.phase.Install? || s.phase.RecInstall? { BwriteHomePhase(s); }
    else { BwriteErasePhase(s); }
  }

  lemma BwriteLogPhase(s: State)
    requires Inv(s) && s.phase.WriteLog? && BwriteStep(s).Some?
    ensures var r := BwriteStep(s).value;
            PhaseOk(r.cfg, r.disk, r.view, Dirty(r.guards), r.log.header, r.phase, PendBlock(r.guards, r.phase),
                    Committed(r), r.cur)
  {
    BwriteParts(s);
    PhaseWroteLog(s.cfg, s.disk, s.view, s.log.header, s.phase.tail, Committed(s), s.cur,
                  s.guards[s.phase.pend.value].blockno, s.phase.pend);
  }

  lemma BwriteHomePhase(s: State)
    requires Inv(s) && (s.phase.Install? || s.phase.RecInstall?) && BwriteStep(s).Some?
    ensures var r := BwriteStep(s).value;
            PhaseOk(r.cfg, r.disk, r.view, Dirty(r.guards), r.log.header, r.phase, PendBlock(r.guards, r.phase),
                    Committed(r), r.cur)
  {
    BwriteParts(s);
    PhaseWroteHome(s.cfg, s.disk, s.view, s.log.header, s.phase, Committed(s), s.cur);
  }

  lemma BwriteErasePhase(s: State)
    requires Inv(s) && (s.phase.Erase? || s.phase.RecErase?) && BwriteStep(s).Some?
    ensures var r := BwriteStep(s).value;
            PhaseOk(r.cfg, r.disk, r.view, Dirty(r.guards), r.log.header, r.phase, PendBlock(r.guards, r.phase),
                    Committed(r), r.cur)
  {
    BwriteParts(s);
    forall b: nat | s.cfg.Home(b) ensures s.disk[b] == s.view[b] { OnDisk(s, b); }
    PhaseErased(s.cfg, s.disk, s.view, s.log.header, s.phase, Committed(s), s.cur);
  }

  lemma BwriteHeadPhase(s: State)
    requires Inv(s) && s.phase.WriteHead? && BwriteStep(s).Some?
    ensures var r := BwriteStep(s).value;
            PhaseOk(r.cfg, r.disk, r.view, Dirty(r.guards), r.log.header, r.phase, PendBlock(r.guards, r.phase),
                    Committed(r), r.cur)
  {
    BwriteParts(s);
    forall b: nat | s.cfg.Home(b) && b !in s.log.header.Logged() ensures s.disk[b] == s.view[b] { OnDisk(s, b); }
    PhaseWroteHead(s.cfg, s.disk, s.view, s.log.header, Committed(s), s.cur, s.phase.pend);
    AppliedAllSnoc(s.base, s.txns, s.cur);
  }

  /** `bunpin` takes back the reference of the first block still pinned. */
  lemma CountedUnpin(metas: seq<Meta>, guards: map<nat, Guard>, pinned: seq<nat>, i: nat)
    requires Counted(metas, guards, pinned) && pinned != [] && Distinct(pinned) && Caches(metas, i, pinned[0])
    requires metas[i].refcnt > 0 && forall j: nat :: Caches(metas, j, pinned[0]) ==> j == i
    ensures Counted(metas[i := metas[i].(refcnt := metas[i].refcnt - 1)], guards, pinned[1..])
  {
    var m := metas[i := metas[i].(refcnt := metas[i].refcnt - 1)];
    forall j | 0 <= j < |m| ensures m[j].refcnt == Count(guards, j) + Pin(m, j, pinned[1..]) {
      if j != i { assert !Caches(metas, j, pinned[0]); }
    }
  }

  /** The pins left at `t`: the first is the block at `t`, the others are those left at `t + 1`. */
  lemma PinnedTail(c: Config, h: Header, t: nat, written: bool)
    requires GoodHeader(c, h) && t < h.n
    ensures var pinned := Pinned(h, Install(t, None, written));
            && pinned != [] && pinned[0] == h.blocknos[t] && pinned[0] < c.blocks && Distinct(pinned)
            && pinned[1..] == Pinned(h, Install(t + 1, None, false))
  {
    assert c.Home(h.blocknos[t]);
    forall i, j | 0 <= i < j < h.n - t ensures h.blocknos[t..h.n][i] != h.blocknos[t..h.n][j] {
      assert h.Logged()[t + i] != h.Logged()[t + j];
    }
  }

  lemma CoherentUnpin(metas: seq<Meta>, bufs: seq<Buf>, disk: seq<Block>, view: seq<Block>,
                      dirty: set<nat>, pinned: seq<nat>)
    requires |bufs| == |metas| && |disk| == |view| && Coherent(metas, bufs, disk, view, dirty, pinned)
    requires pinned != [] && pinned[0] < |view| && disk[pinned[0]] == view[pinned[0]]
    ensures Coherent(metas, bufs, disk, view, dirty, pinned[1..])
  {
    forall x | 0 <= x < |view| ensures disk[x] == view[x] || x in pinned[1..] || x in dirty {
      if x in pinned && x !in pinned[1..] { assert x == pinned[0]; }
    }
  }

  lemma UnpinCache(c: Config, metas: seq<Meta>, bufs: seq<Buf>, guards: map<nat, Guard>, disk: seq<Block>,
                   view: seq<Block>, pinned: seq<nat>, i: nat)
    requires |bufs| == |metas| && |disk| == |view| == c.blocks && pinned != [] && pinned[0] < c.blocks
             && Distinct(pinned)
    requires CacheOk(c, metas, bufs, guards, {}, None, disk, view, pinned)
    requires Caches(metas, i, pinned[0]) && metas[i].refcnt > 0 && disk[pinned[0]] == view[pinned[0]]
    ensures CacheOk(c, metas[i := metas[i].(refcnt := metas[i].refcnt - 1)], bufs, guards, {}, None, disk, view,
                    pinned[1..])
  {
    var m := metas[i := metas[i].(refcnt := metas[i].refcnt - 1)];
    CountedUnpin(metas, guards, pinned, i);
    SameBlocksKeep(c, metas, m, bufs, guards, {}, None, disk, view, pinned);
    CoherentUnpin(m, bufs, disk, view, Dirty(guards), pinned);
  }

  lemma LruCount(l: Lru, i: nat, n: nat)
    requires l.Valid() && i < |l.metas|
    ensures l.(metas := l.metas[i := l.metas[i].(refcnt := n)]).Valid()
  {
  }

  lemma UnpinPhase(c: Config, disk: seq<Block>, view: seq<Block>, dirty: set<nat>, h: Header, t: nat,
                   p: seq<Block>, cur: Txn)
    requires |disk| == |view| == c.blocks && GoodHeader(c, h)
             && PhaseOk(c, disk, view, dirty, h, Install(t, None, true), None, p, cur)
    ensures PhaseOk(c, disk, view, dirty, h, Install(t + 1, None, false), None, p, cur)
  {
  }

  lemma UnpinCacheOk(s: State, g: nat)
    requires Inv(s) && UnpinStep(s, g).Some?
    ensures var r := UnpinStep(s, g).value;
            CacheOk(r.cfg, r.lru.metas, r.bufs, r.guards, r.active, r.phase.Pending(), r.disk, r.view,
                    Pinned(r.log.header, r.phase))
  {
    HeldBytes(s, g);
    PinnedTail(s.cfg, s.log.header, s.phase.tail, true);
    UnpinCache(s.cfg, s.lru.metas, s.bufs, s.guards, s.disk, s.view, Pinned(s.log.header, s.phase), s.guards[g].slot);
  }

  lemma UnpinKeeps(s: State, g: nat)
    requires Inv(s) && UnpinStep(s, g).Some?
    ensures Inv(UnpinStep(s, g).value)
  {
    var i := s.guards[g].slot;
    LruCount(s.lru, i, s.lru.metas[i].refcnt - 1);
    UnpinCacheOk(s, g);
    UnpinPhase(s.cfg, s.disk, s.view, Dirty(s.guards), s.log.header, s.phase.tail, Committed(s), s.cur);
  }

  lemma NextPartKeeps(s: State)
    requires Inv(s) && NextPartStep(s).Some?
    ensures Inv(NextPartStep(s).value)
  {
    if !s.phase.WriteLog? { InstallEnds(s); }
  }

  /** When all blocks are installed the pins go, and every home block is on disk. */
  lemma InstallEnds(s: State)
    requires Inv(s) && !s.phase.WriteLog? && NextPartStep(s).Some?
    ensures Inv(NextPartStep(s).value)
  {
    forall b: nat | s.cfg.Home(b) ensures s.disk[b] == Committed(s)[b] {
      OnDisk(s, b);
    }
  }

  lemma ReadHeadKeeps(s: State, g: nat)
    requires Inv(s) && ReadHeadStep(s, g).Some?
    ensures Inv(ReadHeadStep(s, g).value)
  {
    HeldBytes(s, g);
    OnDisk(s, s.cfg.start);
  }

  lemma CrashKeeps(s: State)
    requires Inv(s)
    ensures Inv(CrashStep(s))
  {
    var r := CrashStep(s);
    forall i | 0 <= i < |r.lru.metas| ensures Count(r.guards, i) == 0 { assert On(r.guards, i) == {}; }
  }
}
