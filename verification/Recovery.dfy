/** The redo log of kernel/log.c on the disk: what recovery makes of any disk state, and
    why a crash between any two disk writes is harmless. */
module Recovery {
  import opened BufferCache

  /** Where the log lies: its header block at `start`, its data blocks behind it. */
  datatype Geometry = Geometry(dev: nat, start: nat, size: nat)

  function HeadAddr(g: Geometry): Addr { Addr(g.dev, g.start) }

  function LogAddr(g: Geometry, i: nat): Addr { Addr(g.dev, g.start + 1 + i) }

  function HomeAddr(g: Geometry, b: nat): Addr { Addr(g.dev, b) }

  predicate InLog(g: Geometry, a: Addr) {
    a.dev == g.dev && g.start <= a.blockno < g.start + g.size
  }

  /** The header block as write_head fills it: entries past the count keep their old words. */
  function PutHead(h: Block, blocks: seq<nat>): (r: Block)
    requires |blocks| < BWORDS
  {
    seq(BWORDS, k requires 0 <= k < BWORDS => if k == 0 then |blocks| else if k <= |blocks| then blocks[k - 1]
          else h[k])
  }

  ghost predicate HeadIs(h: Block, blocks: seq<nat>) {
    |blocks| < BWORDS && h[0] == |blocks| && forall i :: 0 <= i < |blocks| ==> h[1 + i] == blocks[i]
  }

  /** The blocks a log may name: distinct home blocks, no more than the log has room for. */
  ghost predicate Loggable(d: Disk, g: Geometry, blocks: seq<nat>) {
    && |blocks| < BWORDS && |blocks| < g.size
    && NoDup(blocks)
    && (forall i :: 0 <= i < |blocks| ==> HomeAddr(g, blocks[i]) in d && !InLog(g, HomeAddr(g, blocks[i])))
  }

  /** A disk on which recovery finds the log of `blocks` (none at all when it is empty). */
  ghost predicate Holds(d: Disk, g: Geometry, blocks: seq<nat>) {
    && HeadAddr(g) in d && (forall i: nat :: i + 1 < g.size ==> LogAddr(g, i) in d)
    && HeadIs(d[HeadAddr(g)], blocks) && Loggable(d, g, blocks)
  }

  /** install_trans after `i` rounds. */
  ghost function Replay(d: Disk, g: Geometry, blocks: seq<nat>, i: nat): (r: Disk)
    requires Holds(d, g, blocks) && i <= |blocks|
    ensures r.Keys == d.Keys
    decreases i
  {
    if i == 0 then d else Replay(d, g, blocks, i - 1)[HomeAddr(g, blocks[i - 1]) := d[LogAddr(g, i - 1)]]
  }

  /** write_head with an empty log. */
  ghost function Cleared(d: Disk, g: Geometry): Disk
    requires HeadAddr(g) in d
  {
    d[HeadAddr(g) := PutHead(d[HeadAddr(g)], [])]
  }

  /** The disk a completed recovery leaves. */
  ghost function Recovered(d: Disk, g: Geometry, blocks: seq<nat>): Disk
    requires Holds(d, g, blocks)
  {
    Cleared(Replay(d, g, blocks, |blocks|), g)
  }

  /** Every home block, exactly. */
  ghost function Homes(d: Disk, g: Geometry): Disk {
    map a | a in d && !InLog(g, a) :: d[a]
  }

  /** The home blocks with the transaction applied. */
  ghost function Applied(d: Disk, g: Geometry, blocks: seq<nat>, contents: seq<Block>): (r: Disk)
    requires |contents| == |blocks|
    decreases |blocks|
  {
    if blocks == [] then d
    else
      var k := |blocks| - 1;
      Applied(d, g, blocks[..k], contents[..k])[HomeAddr(g, blocks[k]) := contents[k]]
  }

  /** Where each block of the disk comes from after `i` rounds. */
  lemma {:induction false} ReplayAt(d: Disk, g: Geometry, blocks: seq<nat>, i: nat, a: Addr)
    requires Holds(d, g, blocks) && i <= |blocks| && a in d
    ensures InLog(g, a) ==> Replay(d, g, blocks, i)[a] == d[a]
    ensures forall j :: 0 <= j < i && a == HomeAddr(g, blocks[j]) ==> Replay(d, g, blocks, i)[a] == d[LogAddr(g, j)]
    ensures (forall j :: 0 <= j < i ==> a != HomeAddr(g, blocks[j])) ==> Replay(d, g, blocks, i)[a] == d[a]
    decreases i
  {
    if i > 0 {
      ReplayAt(d, g, blocks, i - 1, a);
    }
  }

  /** A crash inside install_trans leaves the log readable. */
  lemma ReplayHolds(d: Disk, g: Geometry, blocks: seq<nat>, i: nat)
    requires Holds(d, g, blocks) && i <= |blocks|
    ensures Holds(Replay(d, g, blocks, i), g, blocks)
    ensures forall j: nat :: j + 1 < g.size ==> Replay(d, g, blocks, i)[LogAddr(g, j)] == d[LogAddr(g, j)]
  {
    ReplayAt(d, g, blocks, i, HeadAddr(g));
    forall j: nat | j + 1 < g.size ensures Replay(d, g, blocks, i)[LogAddr(g, j)] == d[LogAddr(g, j)] {
      ReplayAt(d, g, blocks, i, LogAddr(g, j));
    }
  }

  /** Starting over after a crash inside install_trans ends on the same disk. */
  lemma ReplayAgain(d: Disk, g: Geometry, blocks: seq<nat>, i: nat)
    requires Holds(d, g, blocks) && i <= |blocks|
    ensures Holds(Replay(d, g, blocks, i), g, blocks)
    ensures Recovered(Replay(d, g, blocks, i), g, blocks) == Recovered(d, g, blocks)
  {
    var d1, n := Replay(d, g, blocks, i), |blocks|;
    ReplayHolds(d, g, blocks, i);
    forall a | a in d ensures Replay(d1, g, blocks, n)[a] == Replay(d, g, blocks, n)[a] {
      ReplayAt(d, g, blocks, i, a);
      ReplayAt(d, g, blocks, n, a);
      ReplayAt(d1, g, blocks, n, a);
      if j :| 0 <= j < n && a == HomeAddr(g, blocks[j]) {
        assert d1[LogAddr(g, j)] == d[LogAddr(g, j)];
      }
    }
    assert Replay(d1, g, blocks, n) == Replay(d, g, blocks, n);
  }

  /** After a completed recovery there is no log, and recovering again changes nothing. */
  lemma RecoveredIsClean(d: Disk, g: Geometry, blocks: seq<nat>)
    requires Holds(d, g, blocks)
    ensures Holds(Recovered(d, g, blocks), g, [])
    ensures Recovered(Recovered(d, g, blocks), g, []) == Recovered(d, g, blocks)
  {
    ReplayHolds(d, g, blocks, |blocks|);
    var h := Replay(d, g, blocks, |blocks|)[HeadAddr(g)];
    assert PutHead(PutHead(h, []), []) == PutHead(h, []);
  }

  /** A disk and the log that recovery finds on it. */
  datatype Crashed = Crashed(disk: Disk, log: seq<nat>)

  ghost predicate Readable(c: Crashed, g: Geometry) {
    Holds(c.disk, g, c.log)
  }

  /** Recovery of `c` was interrupted, or completed, leaving `c'`. */
  ghost predicate RecoveryLeaves(c: Crashed, c': Crashed, g: Geometry)
    requires Readable(c, g)
  {
    || (c'.log == c.log && exists i: nat :: i <= |c.log| && c'.disk == Replay(c.disk, g, c.log, i))
    || (c'.log == [] && c'.disk == Recovered(c.disk, g, c.log))
  }

  lemma OneCrash(c: Crashed, c': Crashed, g: Geometry)
    requires Readable(c, g) && RecoveryLeaves(c, c', g)
    ensures Readable(c', g) && Recovered(c'.disk, g, c'.log) == Recovered(c.disk, g, c.log)
  {
    if c'.log == [] && c'.disk == Recovered(c.disk, g, c.log) {
      RecoveredIsClean(c.disk, g, c.log);
    } else {
      var i: nat :| i <= |c.log| && c'.disk == Replay(c.disk, g, c.log, i);
      ReplayAgain(c.disk, g, c.log, i);
    }
  }

  /** A run of crashes: each state was left by recovery of the one before. */
  ghost predicate CrashRun(run: seq<Crashed>, g: Geometry)
    decreases |run|
  {
    run != [] && Readable(run[0], g) &&
    (|run| > 1 ==> RecoveryLeaves(run[0], run[1], g) && CrashRun(run[1..], g))
  }

  /** However often recovery is interrupted, it ends on the disk it would have reached at once. */
  lemma {:induction false} ManyCrashes(run: seq<Crashed>, g: Geometry)
    requires CrashRun(run, g)
    ensures var last := run[|run| - 1];
            Readable(last, g) && Recovered(last.disk, g, last.log) == Recovered(run[0].disk, g, run[0].log)
    decreases |run|
  {
    if |run| > 1 {
      OneCrash(run[0], run[1], g);
      ManyCrashes(run[1..], g);
    }
  }

  /** write_log after `i` rounds. */
  ghost function LogWritten(d: Disk, g: Geometry, contents: seq<Block>, i: nat): (r: Disk)
    requires i <= |contents|
    decreases i
  {
    if i == 0 then d else LogWritten(d, g, contents, i - 1)[LogAddr(g, i - 1) := contents[i - 1]]
  }

  lemma {:induction false} LogWrittenAt(d: Disk, g: Geometry, contents: seq<Block>, i: nat)
    requires i <= |contents| && i + 1 <= g.size && HeadAddr(g) in d
             && (forall j: nat :: j + 1 < g.size ==> LogAddr(g, j) in d)
    ensures var r := LogWritten(d, g, contents, i);
            && r.Keys == d.Keys && r[HeadAddr(g)] == d[HeadAddr(g)]
            && (forall j :: 0 <= j < i ==> r[LogAddr(g, j)] == contents[j])
            && (forall a :: a in d && !InLog(g, a) ==> r[a] == d[a])
    decreases i
  {
    if i > 0 {
      LogWrittenAt(d, g, contents, i - 1);
    }
  }

  /** The disk at the commit point: log blocks, then the header. */
  ghost function Committed(d: Disk, g: Geometry, blocks: seq<nat>, contents: seq<Block>): Disk
    requires |contents| == |blocks| < BWORDS && HeadAddr(g) in d
  {
    LogWritten(d, g, contents, |blocks|)[HeadAddr(g) := PutHead(d[HeadAddr(g)], blocks)]
  }

  /** Until the header is written, recovery restores the state before the transaction. */
  lemma CrashBeforeHeader(d: Disk, g: Geometry, contents: seq<Block>, i: nat)
    requires Holds(d, g, []) && i <= |contents| < g.size
    ensures var d1 := LogWritten(d, g, contents, i);
            Holds(d1, g, []) && Homes(Recovered(d1, g, []), g) == Homes(d, g)
  {
    LogWrittenAt(d, g, contents, i);
  }

  lemma {:induction false} AppliedAt(d: Disk, g: Geometry, blocks: seq<nat>, contents: seq<Block>, a: Addr)
    requires |contents| == |blocks| && NoDup(blocks) && a in d
    ensures a in Applied(d, g, blocks, contents)
    ensures forall j :: 0 <= j < |blocks| && a == HomeAddr(g, blocks[j]) ==>
                          Applied(d, g, blocks, contents)[a] == contents[j]
    ensures (forall j :: 0 <= j < |blocks| ==> a != HomeAddr(g, blocks[j])) ==>
              Applied(d, g, blocks, contents)[a] == d[a]
    decreases |blocks|
  {
    if blocks != [] {
      var k := |blocks| - 1;
      AppliedAt(d, g, blocks[..k], contents[..k], a);
      assert forall j :: 0 <= j < k ==> blocks[..k][j] == blocks[j] && contents[..k][j] == contents[j];
    }
  }

  lemma {:induction false} AppliedKeys(d: Disk, g: Geometry, blocks: seq<nat>, contents: seq<Block>)
    requires |contents| == |blocks| && forall i :: 0 <= i < |blocks| ==> HomeAddr(g, blocks[i]) in d
    ensures Applied(d, g, blocks, contents).Keys == d.Keys
    decreases |blocks|
  {
    if blocks != [] {
      AppliedKeys(d, g, blocks[..|blocks| - 1], contents[..|blocks| - 1]);
    }
  }

  /** At the commit point recovery finds the whole transaction in the log. */
  lemma CommittedHolds(d: Disk, g: Geometry, blocks: seq<nat>, contents: seq<Block>)
    requires Holds(d, g, []) && Loggable(d, g, blocks) && |contents| == |blocks|
    ensures var d1 := Committed(d, g, blocks, contents);
            && Holds(d1, g, blocks) && d1.Keys == d.Keys
            && (forall j :: 0 <= j < |blocks| ==> d1[LogAddr(g, j)] == contents[j])
            && (forall a :: a in d && !InLog(g, a) ==> d1[a] == d[a])
  {
    hide LogWritten, NoDup;
    LogWrittenAt(d, g, contents, |blocks|);
  }

  /** Once the header is written, recovery completes the transaction. */
  lemma CrashAtHeader(d: Disk, g: Geometry, blocks: seq<nat>, contents: seq<Block>)
    requires Holds(d, g, []) && Loggable(d, g, blocks) && |contents| == |blocks|
    ensures var d1 := Committed(d, g, blocks, contents);
            Holds(d1, g, blocks) && Homes(Recovered(d1, g, blocks), g) == Homes(Applied(d, g, blocks, contents), g)
  {
    hide HeadIs, NoDup, Replay, Applied, Committed;
    var d1, n := Committed(d, g, blocks, contents), |blocks|;
    CommittedHolds(d, g, blocks, contents);
    AppliedKeys(d, g, blocks, contents);
    forall a | a in d && !InLog(g, a)
      ensures Recovered(d1, g, blocks)[a] == Applied(d, g, blocks, contents)[a]
    {
      ReplayAt(d1, g, blocks, n, a);
      AppliedAt(d, g, blocks, contents, a);
    }
  }

  /** The disk states that commit() passes through, one per disk write. */
  ghost function CommitState(d: Disk, g: Geometry, blocks: seq<nat>, contents: seq<Block>, k: nat): Crashed
    requires Holds(d, g, []) && Loggable(d, g, blocks) && |contents| == |blocks| && k <= 2 * |blocks| + 2
  {
    var n := |blocks|;
    if k <= n then Crashed(LogWritten(d, g, contents, k), [])
    else
      CrashAtHeader(d, g, blocks, contents);
      var d1 := Committed(d, g, blocks, contents);
      if k <= 2 * n + 1 then Crashed(Replay(d1, g, blocks, k - n - 1), blocks)
      else Crashed(Recovered(d1, g, blocks), [])
  }

  /** Crash atomicity: crash after any disk write of a commit, then any number of times during
      recovery; the recovered home blocks are exactly those before the transaction, or, once the
      header has been written, exactly those after it. */
  lemma CrashAtomicity(d: Disk, g: Geometry, blocks: seq<nat>, contents: seq<Block>, k: nat, run: seq<Crashed>)
    requires Holds(d, g, []) && Loggable(d, g, blocks) && |contents| == |blocks| && k <= 2 * |blocks| + 2
    requires CrashRun(run, g) && run[0] == CommitState(d, g, blocks, contents, k)
    ensures var last := run[|run| - 1];
            && Readable(last, g)
            && Homes(Recovered(last.disk, g, last.log), g) ==
               (if k <= |blocks| then Homes(d, g) else Homes(Applied(d, g, blocks, contents), g))
  {
    hide Homes, Recovered, Replay, Applied, HeadIs, NoDup, LogWritten;
    ManyCrashes(run, g);
    var n := |blocks|;
    if k <= n {
      CrashBeforeHeader(d, g, contents, k);
    } else {
      CrashAtHeader(d, g, blocks, contents);
      var d1 := Committed(d, g, blocks, contents);
      if k <= 2 * n + 1 {
        ReplayAgain(d1, g, blocks, k - n - 1);
      } else {
        RecoveredIsClean(d1, g, blocks);
      }
    }
  }
}
