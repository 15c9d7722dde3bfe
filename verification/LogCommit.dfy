/**
  `commit` and `recover_from_log` (kernel/src/log.rs) in their own form: loops over the header that
  write one block at a time.  What `bread` returns is the field `view`, as the cache guarantees.  The
  ghost field `seen` lists the disk after every block write, so a crash leaves one of its elements.
*/
module LogCommit {
  import opened Prelude
  import opened Blocks
  import opened CacheLog
  import opened CacheLogInv

  ghost predicate Fitting(c: Config, disk: seq<Block>, h: Header) {
    |disk| == c.blocks && c.start + c.size <= c.blocks && c.size >= 1 && GoodHeader(c, h)
  }

  /** The disk after the first `k` block writes of `write_log`. */
  ghost function LogCopied(c: Config, h: Header, view: seq<Block>, disk: seq<Block>, k: nat): (r: seq<Block>)
    requires Fitting(c, disk, h) && |view| == c.blocks && k <= h.n
    ensures |r| == c.blocks
  {
    if k == 0 then disk else LogCopied(c, h, view, disk, k - 1)[c.start + k := view[h.blocknos[k - 1]]]
  }

  lemma {:induction false} LogCopiedAt(c: Config, h: Header, view: seq<Block>, disk: seq<Block>, k: nat)
    requires Fitting(c, disk, h) && |view| == c.blocks && k <= h.n
    ensures forall b :: 0 <= b < c.blocks ==>
              LogCopied(c, h, view, disk, k)[b] == if c.start < b <= c.start + k then view[h.blocknos[b - c.start - 1]]
                  else disk[b]
  {
    if k > 0 { LogCopiedAt(c, h, view, disk, k - 1); }
  }

  /** The disk after the first `k` block writes of `install_trans`, which reads the log blocks from `src`. */
  ghost function Installed(c: Config, h: Header, src: seq<Block>, disk: seq<Block>, k: nat): (r: seq<Block>)
    requires Fitting(c, disk, h) && |src| == c.blocks && k <= h.n
    ensures |r| == c.blocks
  {
    if k == 0 then disk else Installed(c, h, src, disk, k - 1)[h.blocknos[k - 1] := src[c.start + k]]
  }

  lemma {:induction false} InstalledAt(c: Config, h: Header, src: seq<Block>, disk: seq<Block>, k: nat)
    requires Fitting(c, disk, h) && |src| == c.blocks && k <= h.n
    ensures forall b :: 0 <= b < c.blocks && b !in h.blocknos[..k] ==> Installed(c, h, src, disk, k)[b] == disk[b]
    ensures forall i :: 0 <= i < k ==> Installed(c, h, src, disk, k)[h.blocknos[i]] == src[c.start + 1 + i]
  {
    if k > 0 {
      InstalledAt(c, h, src, disk, k - 1);
      assert h.blocknos[..k] == h.blocknos[..k - 1] + [h.blocknos[k - 1]];
      assert forall i :: 0 <= i < k - 1 ==> h.Logged()[i] != h.Logged()[k - 1];
    }
  }

  /** Only the log blocks of `src` matter. */
  lemma {:induction false} InstalledSame(c: Config, h: Header, src: seq<Block>, src': seq<Block>,
                                         disk: seq<Block>, k: nat)
    requires Fitting(c, disk, h) && |src| == |src'| == c.blocks && k <= h.n
    requires forall b :: c.start < b <= c.start + h.n ==> src[b] == src'[b]
    ensures Installed(c, h, src, disk, k) == Installed(c, h, src', disk, k)
  {
    if k > 0 { InstalledSame(c, h, src, src', disk, k - 1); }
  }

  /** The disks seen during `write_log` and during `install_trans`. */
  ghost function LogTrace(c: Config, h: Header, view: seq<Block>, disk: seq<Block>, k: nat): (r: seq<seq<Block>>)
    requires Fitting(c, disk, h) && |view| == c.blocks && k <= h.n
    ensures |r| == k && forall j :: 0 <= j < k ==> r[j] == LogCopied(c, h, view, disk, j + 1)
  {
    if k == 0 then [] else LogTrace(c, h, view, disk, k - 1) + [LogCopied(c, h, view, disk, k)]
  }

  ghost function InstallTrace(c: Config, h: Header, src: seq<Block>, disk: seq<Block>, k: nat): (r: seq<seq<Block>>)
    requires Fitting(c, disk, h) && |src| == c.blocks && k <= h.n
    ensures |r| == k && forall j :: 0 <= j < k ==> r[j] == Installed(c, h, src, disk, j + 1)
  {
    if k == 0 then [] else InstallTrace(c, h, src, disk, k - 1) + [Installed(c, h, src, disk, k)]
  }

  function Empty(h: Header): Header {
    h.(n := 0)
  }

  /** Disk and view once the header is written. */
  ghost function Headed(c: Config, h: Header, view: seq<Block>, disk: seq<Block>): (r: seq<Block>)
    requires Fitting(c, disk, h) && |view| == c.blocks
    ensures |r| == c.blocks
  {
    LogCopied(c, h, view, disk, h.n)[c.start := PutHeader(view[c.start], h)]
  }

  /** The disk after the first `k` block writes of `commit`: log blocks, header, home blocks, header. */
  ghost function CommitDisk(c: Config, h: Header, view: seq<Block>, disk: seq<Block>, k: nat): (r: seq<Block>)
    requires Fitting(c, disk, h) && |view| == c.blocks && k <= 2 * h.n + 2
    ensures |r| == c.blocks
  {
    if k <= h.n then LogCopied(c, h, view, disk, k)
    else
      RecoveryDisk(c, Headed(c, h, view, disk), h, k - h.n - 1)
  }

  /** The disk after the first `k` block writes of `recover_from_log` when it read header `h`. */
  ghost function RecoveryDisk(c: Config, disk: seq<Block>, h: Header, k: nat): (r: seq<Block>)
    requires Fitting(c, disk, h) && k <= h.n + 1
    ensures |r| == c.blocks
  {
    if k <= h.n then Installed(c, h, disk, disk, k)
    else Installed(c, h, disk, disk, h.n)[c.start := PutHeader(disk[c.start], Empty(h))]
  }

  lemma NotLogged(c: Config, h: Header, b: nat)
    requires GoodHeader(c, h) && !c.Home(b)
    ensures forall k :: 0 <= k <= h.n ==> b !in h.blocknos[..k]
  {
  }

  /**
    However many block writes of a recovery ran, the disk still recovers to the same home blocks; after all of them it
    is there.
  */
  lemma RecoveryPrefix(c: Config, disk: seq<Block>, target: seq<Block>, k: nat)
    requires RecoversTo(c, disk, target) && k <= GetHeader(disk[c.start]).n + 1
    ensures var h := GetHeader(disk[c.start]);
            && RecoversTo(c, RecoveryDisk(c, disk, h, k), target)
            && (k == h.n + 1 ==> Shows(c, RecoveryDisk(c, disk, h, k), {}, target))
  {
    var h := GetHeader(disk[c.start]);
    var r := RecoveryDisk(c, disk, h, k);
    InstalledAt(c, h, disk, disk, Min(k, h.n));
    forall b: nat | b < c.blocks && !c.Home(b) && b != c.start ensures r[b] == disk[b] { NotLogged(c, h, b); }
    NotLogged(c, h, c.start);
    forall b: nat | c.Home(b) && (b !in h.Logged() || k > h.n) ensures r[b] == target[b] {
      if b in h.Logged() { var i :| 0 <= i < h.n && h.Logged()[i] == b; }
      else { assert forall j :: 0 <= j <= h.n ==> b !in h.blocknos[..j]; }
    }
  }

  /** All or nothing: a commit cut off before its header write leaves the old home blocks, after it the new ones. */
  lemma CommitPrefix(c: Config, h: Header, view: seq<Block>, disk: seq<Block>, k: nat)
    requires Fitting(c, disk, h) && |view| == c.blocks && k <= 2 * h.n + 2 && GetHeader(disk[c.start]).n == 0
    requires forall b: nat :: c.Home(b) && b !in h.Logged() ==> disk[b] == view[b]
    ensures RecoversTo(c, CommitDisk(c, h, view, disk, k), if k <= h.n then disk else view)
    ensures k == 2 * h.n + 2 ==> Shows(c, CommitDisk(c, h, view, disk, k), {}, view)
  {
    LogCopiedAt(c, h, view, disk, Min(k, h.n));
    if k > h.n {
      var d := Headed(c, h, view, disk);
      assert GetHeader(d[c.start]) == h;
      assert RecoversTo(c, d, view);
      RecoveryPrefix(c, d, view, k - h.n - 1);
    }
  }

  /**
    A recovery crashed after `ks[0]` writes, restarted and crashed after `ks[1]` writes, and so on, then run to its
    end.
  */
  ghost function AfterCrashes(c: Config, disk: seq<Block>, target: seq<Block>, ks: seq<nat>): (r: seq<Block>)
    requires RecoversTo(c, disk, target)
    ensures |r| == c.blocks && Shows(c, r, {}, target) && GetHeader(r[c.start]).n == 0
    decreases |ks|
  {
    var h := GetHeader(disk[c.start]);
    if ks == [] then
      RecoveryPrefix(c, disk, target, h.n + 1);
      RecoveryDisk(c, disk, h, h.n + 1)
    else
      var k := Min(ks[0], h.n + 1);
      RecoveryPrefix(c, disk, target, k);
      AfterCrashes(c, RecoveryDisk(c, disk, h, k), target, ks[1..])
  }

  /** Crash atomicity of one commit, with any number of crashes during the recoveries that follow. */
  lemma CommitIsAtomic(c: Config, h: Header, view: seq<Block>, disk: seq<Block>, k: nat, ks: seq<nat>, b: nat)
    requires Fitting(c, disk, h) && |view| == c.blocks && k <= 2 * h.n + 2 && GetHeader(disk[c.start]).n == 0
    requires forall b: nat :: c.Home(b) && b !in h.Logged() ==> disk[b] == view[b]
    requires c.Home(b)
    ensures var target := if k <= h.n then disk else view;
            && RecoversTo(c, CommitDisk(c, h, view, disk, k), target)
            && AfterCrashes(c, CommitDisk(c, h, view, disk, k), target, ks)[b] == target[b]
  {
    CommitPrefix(c, h, view, disk, k);
  }

  /** Neither loop touches the header block. */
  lemma HeaderKept(c: Config, h: Header, view: seq<Block>, disk: seq<Block>)
    requires Fitting(c, disk, h) && |view| == c.blocks
    ensures LogCopied(c, h, view, disk, h.n)[c.start] == disk[c.start]
    ensures Installed(c, h, view, disk, h.n)[c.start] == disk[c.start]
  {
    LogCopiedAt(c, h, view, disk, h.n);
    InstalledAt(c, h, view, disk, h.n);
    NotLogged(c, h, c.start);
  }

  /** The disks seen during a commit. */
  ghost function CommitTrace(c: Config, h: Header, view: seq<Block>, disk: seq<Block>): (r: seq<seq<Block>>)
    requires Fitting(c, disk, h) && |view| == c.blocks
  {
    LogTrace(c, h, view, disk, h.n) + [Headed(c, h, view, disk)]
    + EraseTrace(c, Headed(c, h, view, disk), Headed(c, h, view, view), h)
  }

  /** The disks seen from the header on: the installs, then the erased header. */
  ghost function EraseTrace(c: Config, disk: seq<Block>, src: seq<Block>, h: Header): (r: seq<seq<Block>>)
    requires Fitting(c, disk, h) && |src| == c.blocks
  {
    InstallTrace(c, h, src, disk, h.n) + [Installed(c, h, src, disk, h.n)[c.start := PutHeader(src[c.start], Empty(h))]]
  }

  /** The disks seen during a commit are the ones `CommitDisk` names. */
  lemma CommitTraceAt(c: Config, h: Header, view: seq<Block>, disk: seq<Block>, j: nat)
    requires Fitting(c, disk, h) && |view| == c.blocks && j < 2 * h.n + 2
    ensures |CommitTrace(c, h, view, disk)| == 2 * h.n + 2
    ensures CommitTrace(c, h, view, disk)[j] == CommitDisk(c, h, view, disk, j + 1)
  {
    var d, v := Headed(c, h, view, disk), Headed(c, h, view, view);
    LogCopiedAt(c, h, view, disk, h.n);
    LogCopiedAt(c, h, view, view, h.n);
    if j > h.n {
      InstalledSame(c, h, v, d, d, Min(j - h.n, h.n));
    }
  }

  lemma Assoc<T>(a: seq<T>, b: seq<T>, c: seq<T>)
    ensures a + b + c == a + (b + c)
  {
  }

  class LogDisk {
    const cfg: Config
    var disk: seq<Block>
    var view: seq<Block>
    var n: nat
    var blocknos: seq<nat>
    ghost var seen: seq<seq<Block>>

    ghost predicate Valid()
      reads this
    {
      |view| == cfg.blocks && Fitting(cfg, disk, Head())
    }

    ghost function Head(): Header
      reads this
    {
      Header(n, blocknos)
    }

    constructor (cfg: Config, disk: seq<Block>)
      requires |disk| == cfg.blocks && cfg.start + cfg.size <= cfg.blocks && cfg.size >= 1
      ensures Valid() && this.cfg == cfg && this.disk == view == disk && seen == [] && n == 0
    {
      this.cfg, this.disk, this.view, n := cfg, disk, disk, 0;
      blocknos := Zeros(LOGSIZE);
      seen := [];
    }

    /** `bread`, a copy into the buffer and `bwrite`. */
    method PutBlock(b: nat, data: Block)
      requires b < |disk| == |view|
      modifies this`disk, this`view, this`seen
      ensures disk == old(disk)[b := data] && view == old(view)[b := data] && seen == old(seen) + [disk]
    {
      view := view[b := data];
      disk := disk[b := data];
      seen := seen + [disk];
    }

    method WriteLog()
      requires Valid()
      modifies this`disk, this`view, this`seen
      ensures Valid()
      ensures disk == LogCopied(cfg, Head(), old(view), old(disk), n)
      ensures view == LogCopied(cfg, Head(), old(view), old(view), n)
      ensures seen == old(seen) + LogTrace(cfg, Head(), old(view), old(disk), n)
    {
      var tail := 0;
      while tail < n
        invariant 0 <= tail <= n && Valid()
        invariant disk == LogCopied(cfg, Head(), old(view), old(disk), tail)
        invariant view == LogCopied(cfg, Head(), old(view), old(view), tail)
        invariant seen == old(seen) + LogTrace(cfg, Head(), old(view), old(disk), tail)
      {
        LogCopiedAt(cfg, Head(), old(view), old(view), tail);
        assert cfg.Home(blocknos[tail]);
        PutBlock(cfg.start + tail + 1, view[blocknos[tail]]);
        tail := tail + 1;
      }
    }

    method WriteHead()
      requires Valid()
      modifies this`disk, this`view, this`seen
      ensures Valid()
      ensures disk == old(disk)[cfg.start := PutHeader(old(view)[cfg.start], Head())]
      ensures view == old(view)[cfg.start := PutHeader(old(view)[cfg.start], Head())]
      ensures seen == old(seen) + [disk]
    {
      PutBlock(cfg.start, PutHeader(view[cfg.start], Header(n, blocknos)));
    }

    method InstallTrans()
      requires Valid()
      modifies this`disk, this`view, this`seen
      ensures Valid()
      ensures disk == Installed(cfg, Head(), old(view), old(disk), n)
      ensures view == Installed(cfg, Head(), old(view), old(view), n)
      ensures seen == old(seen) + InstallTrace(cfg, Head(), old(view), old(disk), n)
    {
      var tail := 0;
      while tail < n
        invariant 0 <= tail <= n && Valid()
        invariant disk == Installed(cfg, Head(), old(view), old(disk), tail)
        invariant view == Installed(cfg, Head(), old(view), old(view), tail)
        invariant seen == old(seen) + InstallTrace(cfg, Head(), old(view), old(disk), tail)
      {
        InstalledAt(cfg, Head(), old(view), old(view), tail);
        NotLogged(cfg, Head(), cfg.start + tail + 1);
        PutBlock(blocknos[tail], view[cfg.start + tail + 1]);
        tail := tail + 1;
      }
    }

    /** The end of `commit` and of `recover_from_log`. */
    method InstallAndErase()
      requires Valid()
      modifies this`n, this`disk, this`view, this`seen
      ensures Valid() && n == 0
      ensures var h, v, d := old(Head()), old(view), old(disk);
        && disk == Installed(cfg, h, v, d, h.n)[cfg.start := PutHeader(v[cfg.start], Empty(h))]
        && view == Installed(cfg, h, v, v, h.n)[cfg.start := PutHeader(v[cfg.start], Empty(h))]
        && seen == old(seen) + EraseTrace(cfg, d, v, h)
    {
      HeaderKept(cfg, Head(), view, view);
      InstallTrans();
      n := 0;
      WriteHead();
    }

    /** The first half of `commit`, up to the commit point. */
    method LogAndHead()
      requires Valid()
      modifies this`disk, this`view, this`seen
      ensures Valid()
      ensures disk == Headed(cfg, Head(), old(view), old(disk)) && view == Headed(cfg, Head(), old(view), old(view))
      ensures seen == old(seen) + (LogTrace(cfg, Head(), old(view), old(disk), n) + [disk])
    {
      HeaderKept(cfg, Head(), view, view);
      WriteLog();
      WriteHead();
    }

    /** Write the log, the header, the home blocks and the empty header, in this order. */
    method Commit()
      requires Valid()
      modifies this`n, this`disk, this`view, this`seen
      ensures Valid() && n == 0
      ensures old(n) == 0 ==> disk == old(disk) && view == old(view) && seen == old(seen)
      ensures old(n) > 0 ==>
                seen == old(seen) + CommitTrace(cfg, old(Head()), old(view), old(disk)) && disk == seen[|seen| - 1]
    {
      if n > 0 {
        LogAndHead();
        ghost var h, d, v := Head(), disk, view;
        InstallAndErase();
        Assoc(old(seen), LogTrace(cfg, h, old(view), old(disk), h.n) + [d], EraseTrace(cfg, d, v, h));
      }
    }

    /** Run at boot, when the cache is empty. */
    method RecoverFromLog()
      requires Valid() && view == disk && GoodHeader(cfg, GetHeader(disk[cfg.start]))
      modifies this
      ensures Valid() && n == 0
      ensures var h := GetHeader(old(disk)[cfg.start]);
        && disk == view == RecoveryDisk(cfg, old(disk), h, h.n + 1)
        && seen == old(seen) + EraseTrace(cfg, old(disk), old(disk), h)
    {
      var h := GetHeader(view[cfg.start]);
      n, blocknos := h.n, h.blocknos;
      InstallAndErase();
    }
  }
}
