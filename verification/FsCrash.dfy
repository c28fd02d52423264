/** filewrite on top of the log: what a crash at any disk write leaves of a file. */
module FsCrash {
  import opened FsLayout
  import opened FsState
  import opened FsWrite
  import opened FsInode
  import opened Fs
  import opened FsChunk
  import B = BufferCache
  import R = Recovery
  import L = Log

  /** A block as the words in which the log sees it. */
  function Words(b: Block): B.Block {
    seq(B.BWORDS, j requires 0 <= j < B.BWORDS => GetWord(b, j))
  }

  lemma SplitJoin(b: seq<Byte>)
    requires |b| == 4
    ensures Split(Join(b)) == b
  {
    var b0: int, b1: int, b2: int, b3: int := b[0], b[1], b[2], b[3];
    LowByte(b0, b1 + 256 * (b2 + 256 * b3));
    LowByte(b1, b2 + 256 * b3);
    LowByte(b2, b3);
  }

  lemma LowByte(lo: int, hi: int)
    requires 0 <= lo < 256
    ensures (lo + 256 * hi) % 256 == lo && (lo + 256 * hi) / 256 == hi
  {}

  /** No two blocks look alike to the log. */
  lemma WordsTell(a: Block, b: Block)
    requires Words(a) == Words(b)
    ensures a == b
  {
    hide Split, Join;
    forall p | 0 <= p < BSIZE ensures a[p] == b[p] {
      var j := p / 4;
      assert Words(a)[j] == GetWord(a, j) && Words(b)[j] == GetWord(b, j);
      SplitJoin(a[4 * j..4 * j + 4]);
      SplitJoin(b[4 * j..4 * j + 4]);
      assert a[p] == a[4 * j..4 * j + 4][p - 4 * j] && b[p] == b[4 * j..4 * j + 4][p - 4 * j];
    }
  }

  /** Outside the log, the disk `d` holds the blocks of `disk`. */
  ghost predicate Shows(d: B.Disk, g: R.Geometry, disk: seq<Block>) {
    forall b: nat :: b < |disk| && !R.InLog(g, B.Addr(g.dev, b)) ==>
                       B.Addr(g.dev, b) in d && d[B.Addr(g.dev, b)] == Words(disk[b])
  }

  /** What can be seen through the log determines every block behind it. */
  lemma ShowsOne(d: B.Disk, g: R.Geometry, disk: seq<Block>, disk': seq<Block>, b: nat)
    requires Shows(d, g, disk) && Shows(d, g, disk') && b < |disk| == |disk'| && !R.InLog(g, B.Addr(g.dev, b))
    ensures disk[b] == disk'[b]
  {
    hide Words;
    WordsTell(disk[b], disk'[b]);
  }

  /** Whoever reads a disk that shows a sound file system finds a sound one, with the same files. */
  lemma ReadBack(d: B.Disk, g: R.Geometry, sb: Super, s0: State, s: State, disk: seq<Block>, i: nat, off: nat,
      done: seq<Byte>)
    requires Before(g, sb) && Sound(sb, s0, s, i, off, done) && |disk| == sb.size
    requires Shows(d, g, s.disk) && Shows(d, g, disk)
    ensures Sound(sb, s0, s.(disk := disk), i, off, done)
  {
    hide Owners, NoHoles, Bits, Holds, Content, Written, Layout, Shows, FreeEmpty;
    forall b: nat | sb.inodestart <= b < sb.size ensures disk[b] == s.disk[b] {
      ShowsOne(d, g, disk, s.disk, b);
    }
    var s' := s.(disk := disk);
    Regions(sb);
    MetaKeeps(sb, s, s');
    MetaKeepsBits(sb, s.disk, disk, s.owner.Keys);
    HoldsKept(sb, s.disk, disk, s.inodes);
  }

  /** The transaction that writes these blocks. */
  function Tx(g: R.Geometry, writes: seq<(nat, Block)>): (tx: seq<(B.Addr, B.Block)>)
    ensures |tx| == |writes|
  {
    seq(|writes|, j requires 0 <= j < |writes| => (B.Addr(g.dev, writes[j].0), Words(writes[j].1)))
  }

  lemma {:induction false} PutShows(d: B.Disk, g: R.Geometry, disk: seq<Block>, writes: seq<(nat, Block)>)
    requires Shows(d, g, disk) && forall w :: w in writes ==> w.0 < |disk| && !R.InLog(g, B.Addr(g.dev, w.0))
    ensures Shows(L.WriteAll(d, Tx(g, writes)), g, Put(disk, writes))
    decreases |writes|
  {
    hide Words;
    if writes != [] {
      var k := |writes| - 1;
      assert writes[k] in writes;
      PutShows(d, g, disk, writes[..k]);
      assert Tx(g, writes)[..k] == Tx(g, writes[..k]);
    }
  }

  /** The log lies before the inodes. */
  ghost predicate Before(g: R.Geometry, sb: Super) { g.start + g.size <= sb.inodestart }

  ghost function Txs(g: R.Geometry, ops: seq<seq<(nat, Block)>>): seq<seq<(B.Addr, B.Block)>> {
    seq(|ops|, k requires 0 <= k < |ops| => Tx(g, ops[k]))
  }

  lemma {:induction false} AfterShows(d: B.Disk, g: R.Geometry, sb: Super, ops: seq<seq<(nat, Block)>>,
      after: seq<State>, k: nat)
    requires Steps(sb, ops, after) && Before(g, sb) && k <= |ops| && Shows(d, g, after[0].disk)
    ensures Shows(L.DiskAfter(d, Txs(g, ops), k), g, after[k].disk)
    decreases k
  {
    hide Words, Put, L.WriteAll, Shows, Tx;
    if k > 0 {
      AfterShows(d, g, sb, ops, after, k - 1);
      assert Step(sb, after[k - 1], ops[k - 1], after[k]);
      PutShows(L.DiskAfter(d, Txs(g, ops), k - 1), g, after[k - 1].disk, ops[k - 1]);
    }
  }

  /** However often recovery of `d` crashes, it ends with the blocks of `disk`. */
  ghost predicate Leaves(d: B.Disk, g: R.Geometry, disk: seq<Block>) {
    && (exists log :: R.Readable(R.Crashed(d, log), g))
    && forall run: seq<R.Crashed> :: R.CrashRun(run, g) && run[0].disk == d ==> EndShows(run[|run| - 1], g, disk)
  }

  ghost predicate EndShows(c: R.Crashed, g: R.Geometry, disk: seq<Block>) {
    R.Readable(c, g) && Shows(R.Recovered(c.disk, g, c.log), g, disk)
  }

  lemma HomesShow(d: B.Disk, home: B.Disk, g: R.Geometry, disk: seq<Block>)
    requires Shows(home, g, disk) && R.Homes(d, g) == R.Homes(home, g)
    ensures Shows(d, g, disk)
  {
    hide Words;
    forall b: nat | b < |disk| && !R.InLog(g, B.Addr(g.dev, b))
      ensures B.Addr(g.dev, b) in d && d[B.Addr(g.dev, b)] == Words(disk[b])
    {
      var a := B.Addr(g.dev, b);
      assert a in R.Homes(home, g);
      assert R.Homes(d, g)[a] == d[a];
    }
  }

  lemma RecoversShow(d: B.Disk, home: B.Disk, g: R.Geometry, disk: seq<Block>)
    requires Shows(home, g, disk) && L.RecoversTo(d, home, g)
    ensures Leaves(d, g, disk)
  {
    hide Words, Shows, R.Holds, R.Homes, R.Recovered;
    forall run: seq<R.Crashed> | R.CrashRun(run, g) && run[0].disk == d ensures EndShows(run[|run| - 1], g, disk) {
      var c := run[|run| - 1];
      assert L.EndsWith(c, home, g);
      HomesShow(R.Recovered(c.disk, g, c.log), home, g, disk);
    }
  }

  /** Whatever disk write a crash follows, recovery ends with the file system as it was after the last transaction that
      had committed by then. */
  ghost predicate CrashSafe(g: R.Geometry, states: seq<B.Disk>, commits: seq<nat>, after: seq<State>) {
    && |after| == |commits| + 1
    && (forall p: nat :: p < |states| ==> L.SomeBy(commits, p))
    && forall p: nat, k: nat :: p < |states| && k <= |commits| && L.By(commits, p, k) ==>
                                  Leaves(states[p], g, after[k].disk)
  }

  lemma ExactIsSafe(d: B.Disk, g: R.Geometry, sb: Super, ops: seq<seq<(nat, Block)>>, after: seq<State>,
      states: seq<B.Disk>, commits: seq<nat>)
    requires Steps(sb, ops, after) && Before(g, sb) && Shows(d, g, after[0].disk)
    requires L.Exact(d, Txs(g, ops), |ops|, states, commits, g)
    ensures CrashSafe(g, states, commits, after)
  {
    hide Shows, Leaves, L.DiskAfter, L.RecoversTo, Tx, Step;
    forall p: nat, k: nat | p < |states| && k <= |commits| && L.By(commits, p, k)
      ensures Leaves(states[p], g, after[k].disk)
    {
      AfterShows(d, g, sb, ops, after, k);
      RecoversShow(states[p], L.DiskAfter(d, Txs(g, ops), k), g, after[k].disk);
    }
  }

  /** filewrite with its transactions: each chunk is written through the cache and committed by the log. A crash at any
      disk write leaves a consistent file system (`Sound`), in which the file has the bytes of the chunks that had
      committed and no others, and every other file is as it was. */
  method WriteDurably(fs: FileSystem, jr: L.Journal, i: nat, off: Word, src: seq<Byte>, n: int, ghost held: L.Held)
    returns (ret: int, off1: Word, ops: seq<seq<(nat, Block)>>, ghost after: seq<State>, ghost got: seq<nat>,
      ghost commits: seq<nat>)
    requires fs.Valid() && i < fs.sb.ninodes && fs.inodes[i].typ != 0 && (n >= 0 ==> |src| <= n) && n < 0x8000_0000
    requires L.OutsideLog(jr.g, held) && jr.Valid() && jr.n == 0 && jr.outstanding >= 1
    requires L.Pinned(jr.bc.bufs[..], jr.g.dev, [], held)
    requires Before(jr.g, fs.sb) && Shows(jr.bc.disk, jr.g, fs.disk)
    requires MAXOPBLOCKS < jr.g.size && MAXOPBLOCKS + |held| < jr.bc.nbuf
    modifies fs, jr`n, jr.block, jr.bc, jr.bc.bufs, jr.bc.next, jr.bc.prev
    ensures fs.Valid() && jr.Valid() && jr.n == 0 && off <= off1
    ensures Trail(fs.sb, old(fs.S()), ops, after, got, i, off, src) && got[|ops|] == off1 - off
    ensures old(jr.bc.trace) <= jr.bc.trace
    ensures CrashSafe(jr.g, jr.bc.trace[|old(jr.bc.trace)|..], commits, after)
    ensures Leaves(jr.bc.disk, jr.g, after[|ops|].disk)
    ensures ret == if n >= 0 && off1 - off == n then n else -1
  {
    hide Shows, Leaves, L.DiskAfter, L.RecoversTo, Tx, Step, L.Exact, L.Durable, Sound, L.Pinned, L.OutsideLog, Inv,
         Holds, Seen;
    ghost var d, s0 := jr.bc.disk, fs.S();
    ghost var e;
    ret, off1, ops, after, got, e := FileWrite(fs, i, off, src, n);
    var txs := [];
    var k := 0;
    while k < |ops|
      invariant 0 <= k <= |ops| && txs == Txs(jr.g, ops[..k])
    {
      txs := txs + [Tx(jr.g, ops[k])];
      k := k + 1;
    }
    assert ops[..|ops|] == ops;
    TxsFit(d, jr.g, fs.sb, ops, after);
    var m;
    ghost var marks;
    m, marks, commits := jr.History(txs, held);
    ExactIsSafe(d, jr.g, fs.sb, ops, after, jr.bc.trace[|old(jr.bc.trace)|..], commits);
    AfterShows(d, jr.g, fs.sb, ops, after, |ops|);
    RecoversShow(jr.bc.disk, L.DiskAfter(d, txs, m), jr.g, after[|ops|].disk);
  }

  /** Every transaction of a write is one the log takes. */
  lemma TxsFit(d: B.Disk, g: R.Geometry, sb: Super, ops: seq<seq<(nat, Block)>>, after: seq<State>)
    requires Steps(sb, ops, after) && Before(g, sb) && Shows(d, g, after[0].disk)
    ensures forall tx :: tx in Txs(g, ops) ==> |tx| <= MAXOPBLOCKS
    ensures forall tx, w :: tx in Txs(g, ops) && w in tx ==> w.0 in d && w.0.dev == g.dev && !R.InLog(g, w.0)
  {
    hide Words, Put;
    forall tx | tx in Txs(g, ops) ensures |tx| <= MAXOPBLOCKS {
      var k :| 0 <= k < |ops| && tx == Tx(g, ops[k]);
      assert Step(sb, after[k], ops[k], after[k + 1]);
    }
    forall tx, w | tx in Txs(g, ops) && w in tx ensures w.0 in d && w.0.dev == g.dev && !R.InLog(g, w.0) {
      var k :| 0 <= k < |ops| && tx == Tx(g, ops[k]);
      var j :| 0 <= j < |tx| && w == tx[j];
      assert Step(sb, after[k], ops[k], after[k + 1]);
      assert ops[k][j] in ops[k];
      SizeAlways(sb, ops, after, k);
    }
  }

  lemma {:induction false} SizeAlways(sb: Super, ops: seq<seq<(nat, Block)>>, after: seq<State>, k: nat)
    requires Steps(sb, ops, after) && k < |ops|
    ensures |after[0].disk| == sb.size
  {
    assert Step(sb, after[0], ops[0], after[1]);
  }
}
