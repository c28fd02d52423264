/** kernel/log.c over the buffer cache: log_write, commit and recovery, with the exact
    sequence of disk states that they go through. */
module Log {
  import opened BufferCache
  import opened Recovery

  const LOGSIZE := 30

  /** How often others have bread a block and not yet released it. */
  type Held = map<Addr, nat>

  /** The references to a buffer for block `a`: one of the log if it is pinned, and those of others. */
  ghost function Refs(a: Addr, dev: nat, pinned: seq<nat>, held: Held): int {
    (if a.dev == dev && a.blockno in pinned then 1 else 0) + if a in held then held[a] else 0
  }

  /** Exactly the blocks of `pinned` and `held` are referenced, and all of them are cached. */
  ghost predicate Pinned(bufs: seq<Buf>, dev: nat, pinned: seq<nat>, held: Held) {
    && (forall i :: 0 <= i < |bufs| ==> bufs[i].refcnt == Refs(bufs[i].at, dev, pinned, held))
    && (forall e :: e in pinned ==> exists i :: HoldsBlock(bufs, i, Addr(dev, e)))
    && (forall a :: a in held ==> held[a] > 0 && exists i :: HoldsBlock(bufs, i, a))
  }

  /** The blocks whose buffers cannot be recycled. */
  ghost function Busy(dev: nat, pinned: seq<nat>, held: Held): set<Addr> {
    (set e | e in pinned :: Addr(dev, e)) + held.Keys
  }

  /** Nobody but the log reads the log. */
  ghost predicate OutsideLog(g: Geometry, held: Held) {
    forall a :: a in held ==> !InLog(g, a)
  }

  /** A log block and a home block passed through the cache; the home block may have lost its pin. */
  lemma PinnedAfter(bufs: seq<Buf>, bufs': seq<Buf>, dev: nat, pinned: seq<nat>, pinned': seq<nat>, held: Held, l: nat,
      h: nat)
    requires Pinned(bufs, dev, pinned, held) && |bufs'| == |bufs| && l < |bufs| && h < |bufs| && l != h
    requires forall i :: 0 <= i < |bufs| && i != l && i != h ==> bufs'[i] == bufs[i]
    requires Refs(bufs'[l].at, dev, pinned, held) == Refs(bufs'[l].at, dev, pinned', held) == bufs'[l].refcnt ==
               bufs[l].refcnt == 0
    requires bufs'[h].at.dev == dev && bufs'[h].valid && bufs[h].refcnt == Refs(bufs'[h].at, dev, pinned, held)
    requires bufs[h].refcnt > 0 ==> bufs'[h].at == bufs[h].at
    requires bufs'[h].refcnt == Refs(bufs'[h].at, dev, pinned', held)
    requires forall e :: e in pinned' ==> e in pinned
    requires forall e :: e in pinned && e !in pinned' ==> e == bufs'[h].at.blockno
    requires UniqueBufs(bufs')
    requires dev != 0
    ensures Pinned(bufs', dev, pinned', held)
  {
    forall e | e in pinned' ensures exists i :: HoldsBlock(bufs', i, Addr(dev, e)) {
      StillHeld(bufs, bufs', dev, pinned, held, l, h, Addr(dev, e));
    }
    forall a | a in held ensures held[a] > 0 && exists i :: HoldsBlock(bufs', i, a) {
      StillHeld(bufs, bufs', dev, pinned, held, l, h, a);
    }
  }

  lemma StillHeld(bufs: seq<Buf>, bufs': seq<Buf>, dev: nat, pinned: seq<nat>, held: Held, l: nat, h: nat, a: Addr)
    requires Pinned(bufs, dev, pinned, held) && |bufs'| == |bufs| && l < |bufs| && h < |bufs|
    requires forall i :: 0 <= i < |bufs| && i != l && i != h ==> bufs'[i] == bufs[i]
    requires bufs[l].refcnt == 0 && bufs'[h].valid && (bufs[h].refcnt > 0 ==> bufs'[h].at == bufs[h].at)
    requires (a.dev == dev && a.blockno in pinned) || a in held
    ensures exists i :: HoldsBlock(bufs', i, a)
  {
    assert a in held ==> held[a] > 0;
    assert a == Addr(a.dev, a.blockno);
    var i :| HoldsBlock(bufs, i, a);
    assert bufs[i].refcnt == Refs(a, dev, pinned, held) > 0;
    assert HoldsBlock(bufs', i, a);
  }

  /** The two breads of write_log and install_trans: a block of the log, and the home block, which is pinned. */
  method ReadBoth(bc: Cache, logA: Addr, homeA: Addr, ghost pinned: seq<nat>, ghost held: Held) returns (ok: bool,
      l: nat, h: nat)
    requires bc.Valid() && logA in bc.disk && homeA in bc.disk && logA.dev == homeA.dev
    requires Pinned(bc.bufs[..], logA.dev, pinned, held) && homeA.blockno in pinned
             && logA !in Busy(logA.dev, pinned, held)
    modifies bc.bufs
    ensures bc.Valid() && bc.View() == old(bc.View()) && (ok <==> old(bc.Room(logA)))
    ensures ok ==> l < bc.nbuf && h < bc.nbuf && l != h && Refs(logA, logA.dev, pinned, held) == 0
    ensures ok ==> forall i :: 0 <= i < bc.nbuf && i != l && i != h ==> bc.bufs[i] == old(bc.bufs[..])[i]
    ensures ok ==> bc.bufs[l] == Buf(true, logA, 1, bc.View()[logA]) && old(bc.bufs[..])[l].refcnt == 0
    ensures ok ==> bc.bufs[h] == Buf(true, homeA, Refs(homeA, logA.dev, pinned, held) + 1, bc.View()[homeA])
    ensures ok ==> old(bc.bufs[..])[h].at == homeA && old(bc.bufs[..])[h].refcnt == Refs(homeA, logA.dev, pinned, held)
  {
    hide Cache.RingInv, ViewOf, BufOk;
    ghost var bufs0 := bc.bufs[..];
    var to := bc.BRead(logA);
    if to.None? {
      return false, 0, 0;
    }
    ghost var i :| HoldsBlock(bufs0, i, homeA);
    assert bufs0[i].refcnt >= 1 && i != to.value;
    assert bc.bufs[i] == bufs0[i];
    var from := bc.BRead(homeA);
    assert from.value == i;
    return true, to.value, from.value;
  }

  /** One round of write_log: the cached home block goes to the log. */
  method WriteLogOne(bc: Cache, logA: Addr, homeA: Addr, ghost pinned: seq<nat>, ghost held: Held) returns (ok: bool)
    requires bc.Valid() && logA in bc.disk && homeA in bc.disk && logA.dev == homeA.dev
    requires Pinned(bc.bufs[..], logA.dev, pinned, held) && homeA.blockno in pinned
             && logA !in Busy(logA.dev, pinned, held)
    modifies bc, bc.bufs, bc.next, bc.prev
    ensures bc.Valid()
    ensures ok <==> old(bc.Room(logA))
    ensures !ok ==> bc.disk == old(bc.disk) && bc.View() == old(bc.View()) && bc.trace == old(bc.trace)
    ensures ok ==> Pinned(bc.bufs[..], logA.dev, pinned, held)
    ensures ok ==> bc.disk == old(bc.disk)[logA := old(bc.View())[homeA]] && bc.trace == old(bc.trace) + [bc.disk]
    ensures ok ==> bc.View() == old(bc.View())[logA := old(bc.View())[homeA]]
  {
    hide Cache.RingInv, ViewOf, BufOk, Pinned, Busy, Cache.Room;
    ghost var bufs0 := bc.bufs[..];
    var to, from;
    ok, to, from := ReadBoth(bc, logA, homeA, pinned, held);
    if ok {
      bc.SetData(to, bc.bufs[from].data);
      bc.BWrite(to);
      bc.BRelse(from);
      bc.BRelse(to);
      PinnedAfter(bufs0, bc.bufs[..], logA.dev, pinned, pinned, held, to, from);
    }
  }

  /** One round of install_trans in commit: the log block goes home and the home block is unpinned. */
  method InstallOne(bc: Cache, logA: Addr, homeA: Addr, ghost pinned: seq<nat>, ghost held: Held) returns (ok: bool)
    requires bc.Valid() && logA in bc.disk && homeA in bc.disk && logA.dev == homeA.dev
    requires pinned != [] && Pinned(bc.bufs[..], logA.dev, pinned, held) && NoDup(pinned)
    requires homeA.blockno == pinned[0] && logA !in Busy(logA.dev, pinned, held)
    requires bc.View()[logA] == bc.disk[logA]
    modifies bc, bc.bufs, bc.next, bc.prev
    ensures bc.Valid()
    ensures ok <==> old(bc.Room(logA))
    ensures ok ==> Pinned(bc.bufs[..], logA.dev, pinned[1..], held)
    ensures ok ==> bc.disk == old(bc.disk)[homeA := old(bc.disk)[logA]] && bc.trace == old(bc.trace) + [bc.disk]
    ensures ok ==> bc.View() == old(bc.View())[homeA := old(bc.disk)[logA]]
  {
    hide Cache.RingInv, ViewOf, BufOk, Pinned, Busy, Cache.Room;
    ghost var bufs0 := bc.bufs[..];
    var lbuf, dbuf;
    ok, lbuf, dbuf := ReadBoth(bc, logA, homeA, pinned, held);
    if ok {
      bc.SetData(dbuf, bc.bufs[lbuf].data);
      bc.BWrite(dbuf);
      bc.BUnpin(dbuf);
      bc.BRelse(lbuf);
      bc.BRelse(dbuf);
      assert forall e :: e in pinned[1..] ==> e in pinned && e != pinned[0];
      PinnedAfter(bufs0, bc.bufs[..], logA.dev, pinned, pinned[1..], held, lbuf, dbuf);
    }
  }

  /** One round of install_trans in recovery: nothing is pinned. */
  method RecoverOne(bc: Cache, logA: Addr, homeA: Addr) returns (ok: bool)
    requires bc.Valid() && logA in bc.disk && homeA in bc.disk && logA.dev == homeA.dev && logA != homeA
    requires Pinned(bc.bufs[..], logA.dev, [], map[]) && bc.nbuf >= 2
    requires bc.View()[logA] == bc.disk[logA]
    modifies bc, bc.bufs, bc.next, bc.prev
    ensures bc.Valid() && ok
    ensures Pinned(bc.bufs[..], logA.dev, [], map[])
    ensures bc.disk == old(bc.disk)[homeA := old(bc.disk)[logA]] && bc.trace == old(bc.trace) + [bc.disk]
    ensures bc.View() == old(bc.View())[homeA := old(bc.disk)[logA]]
  {
    hide Cache.RingInv, ViewOf, BufOk;
    ghost var bufs0 := bc.bufs[..];
    assert bc.bufs[0].refcnt == 0 && bc.bufs[1].refcnt == 0;
    var lbuf := bc.BRead(logA);
    assert bc.bufs[if lbuf.value == 0 then 1 else 0].refcnt == 0;
    var dbuf := bc.BRead(homeA);
    bc.SetData(dbuf.value, bc.bufs[lbuf.value].data);
    bc.BWrite(dbuf.value);
    bc.BRelse(lbuf.value);
    bc.BRelse(dbuf.value);
    PinnedAfter(bufs0, bc.bufs[..], logA.dev, [], [], map[], lbuf.value, dbuf.value);
    ok := true;
  }

  /** bread, rewrite and bwrite of the header block: the body of write_head. */
  method WriteHead(bc: Cache, g: Geometry, entries: seq<nat>, ghost pinned: seq<nat>, ghost held: Held)
    returns (ok: bool)
    requires bc.Valid() && HeadAddr(g) in bc.disk && |entries| < BWORDS
    requires Pinned(bc.bufs[..], g.dev, pinned, held) && HeadAddr(g) !in Busy(g.dev, pinned, held)
    requires bc.View()[HeadAddr(g)] == bc.disk[HeadAddr(g)]
    modifies bc, bc.bufs, bc.next, bc.prev
    ensures bc.Valid()
    ensures ok <==> old(bc.Room(HeadAddr(g)))
    ensures ok ==> Pinned(bc.bufs[..], g.dev, pinned, held)
    ensures ok ==> bc.disk == old(bc.disk)[HeadAddr(g) := PutHead(old(bc.disk)[HeadAddr(g)], entries)]
    ensures ok ==> bc.trace == old(bc.trace) + [bc.disk]
    ensures ok ==> bc.View() == old(bc.View())[HeadAddr(g) := PutHead(old(bc.disk)[HeadAddr(g)], entries)]
  {
    hide Ring, ViewOf;
    ghost var bufs0 := bc.bufs[..];
    var b := bc.BRead(HeadAddr(g));
    if b.None? {
      return false;
    }
    var h := bc.bufs[b.value].data;
    h := h[0 := |entries|];
    var i := 0;
    while i < |entries|
      invariant 0 <= i <= |entries| && |h| == BWORDS && h[0] == |entries|
      invariant forall k :: 1 <= k < BWORDS ==> h[k] == if k <= i then entries[k - 1] else bc.bufs[b.value].data[k]
    {
      h := h[1 + i := entries[i]];
      i := i + 1;
    }
    assert h == PutHead(bc.bufs[b.value].data, entries);
    bc.SetData(b.value, h);
    bc.BWrite(b.value);
    bc.BRelse(b.value);
    PinnedAfterOne(bufs0, bc.bufs[..], g.dev, pinned, held, b.value);
    ok := true;
  }

  lemma PinnedAfterOne(bufs: seq<Buf>, bufs': seq<Buf>, dev: nat, pinned: seq<nat>, held: Held, l: nat)
    requires Pinned(bufs, dev, pinned, held) && |bufs'| == |bufs| && l < |bufs|
    requires forall i :: 0 <= i < |bufs| && i != l ==> bufs'[i] == bufs[i]
    requires Refs(bufs'[l].at, dev, pinned, held) == bufs'[l].refcnt == bufs[l].refcnt == 0
    ensures Pinned(bufs', dev, pinned, held)
  {
    forall a: Addr | (a.dev == dev && a.blockno in pinned) || a in held ensures exists i :: HoldsBlock(bufs', i, a) {
      assert a in held ==> held[a] > 0;
      assert a == Addr(a.dev, a.blockno);
      var i :| HoldsBlock(bufs, i, a);
      assert bufs[i].refcnt == Refs(a, dev, pinned, held) > 0;
      assert HoldsBlock(bufs', i, a);
    }
    forall e | e in pinned ensures exists i :: HoldsBlock(bufs', i, Addr(dev, e)) {
      var a := Addr(dev, e);
      assert a.blockno in pinned;
    }
  }

  ghost predicate UniqueBufs(bufs: seq<Buf>) {
    forall i, j :: 0 <= i < j < |bufs| && bufs[i].at == bufs[j].at ==> bufs[i].at.dev == 0
  }

  /** The blocks of the referenced buffers. */
  ghost function Referenced(bufs: seq<Buf>): set<Addr> {
    set i | 0 <= i < |bufs| && bufs[i].refcnt > 0 :: bufs[i].at
  }

  /** As many blocks as referenced buffers, and less than all buffers exactly when one is not referenced. */
  lemma {:induction false} ReferencedCount(bufs: seq<Buf>)
    requires UniqueBufs(bufs) && forall i :: 0 <= i < |bufs| ==> bufs[i].refcnt > 0 ==> bufs[i].at.dev != 0
    ensures |Referenced(bufs)| <= |bufs|
    ensures |Referenced(bufs)| == |bufs| <==> forall i :: 0 <= i < |bufs| ==> bufs[i].refcnt > 0
  {
    if bufs != [] {
      var k := |bufs| - 1;
      var rest := bufs[..k];
      ReferencedCount(rest);
      forall i | 0 <= i < k ensures rest[i] == bufs[i] {}
      if bufs[k].refcnt > 0 {
        assert bufs[k].at !in Referenced(rest);
        assert Referenced(bufs) == Referenced(rest) + {bufs[k].at};
      } else {
        assert Referenced(bufs) == Referenced(rest);
      }
    }
  }

  lemma BusyIsReferenced(bufs: seq<Buf>, dev: nat, pinned: seq<nat>, held: Held)
    requires Pinned(bufs, dev, pinned, held)
    ensures Referenced(bufs) == Busy(dev, pinned, held)
  {
    forall a: Addr | a in Busy(dev, pinned, held) ensures a in Referenced(bufs) {
      assert a in held ==> held[a] > 0;
      assert a == Addr(a.dev, a.blockno);
      var i :| HoldsBlock(bufs, i, a);
      assert bufs[i].refcnt == Refs(a, dev, pinned, held) > 0;
    }
    forall a: Addr | a in Referenced(bufs) ensures a in Busy(dev, pinned, held) {
      var i :| 0 <= i < |bufs| && bufs[i].refcnt > 0 && bufs[i].at == a;
      assert Refs(a, dev, pinned, held) > 0;
      assert a == Addr(a.dev, a.blockno);
    }
  }

  /** The disk states of write_log, and of install_trans, in order. */
  ghost function LogTrace(d: Disk, g: Geometry, contents: seq<Block>, i: nat): (t: seq<Disk>)
    requires i <= |contents|
    ensures |t| == i && forall k :: 0 <= k < i ==> t[k] == LogWritten(d, g, contents, k + 1)
    decreases i
  {
    if i == 0 then [] else LogTrace(d, g, contents, i - 1) + [LogWritten(d, g, contents, i)]
  }

  ghost function ReplayTrace(d: Disk, g: Geometry, blocks: seq<nat>, i: nat): (t: seq<Disk>)
    requires Holds(d, g, blocks) && i <= |blocks|
    ensures |t| == i && forall k :: 0 <= k < i ==> t[k] == Replay(d, g, blocks, k + 1)
    decreases i
  {
    if i == 0 then [] else ReplayTrace(d, g, blocks, i - 1) + [Replay(d, g, blocks, i)]
  }

  /** The contents of the named home blocks. */
  ghost function ContentsOf(view: Disk, g: Geometry, entries: seq<nat>): (c: seq<Block>)
    requires forall i :: 0 <= i < |entries| ==> HomeAddr(g, entries[i]) in view
    ensures |c| == |entries| && forall i :: 0 <= i < |c| ==> c[i] == view[HomeAddr(g, entries[i])]
  {
    seq(|entries|, i requires 0 <= i < |entries| => view[HomeAddr(g, entries[i])])
  }

  class Journal {
    const bc: Cache
    const g: Geometry
    const block: array<nat>          // lh.block
    var n: nat                       // lh.n
    var outstanding: nat

    /** lh.block[0..lh.n] */
    ghost function Entries(): seq<nat>
      reads this, block
      requires n <= block.Length
    {
      block[..n]
    }

    constructor (bc: Cache, g: Geometry)
      ensures this.bc == bc && this.g == g && n == 0 && outstanding == 0
      ensures fresh(block) && block.Length == LOGSIZE
    {
      this.bc, this.g := bc, g;
      block := new nat[LOGSIZE];
      n, outstanding := 0, 0;
    }

    /** An open transaction: the disk's log is empty, and the cache is ahead of the disk exactly
        on blocks that the transaction has logged. */
    ghost predicate Valid()
      reads this, block, bc, bc.bufs, bc.next, bc.prev
    {
      && bc.Valid() && n <= block.Length == LOGSIZE && block != bc.next && block != bc.prev
      && Holds(bc.disk, g, []) && Loggable(bc.disk, g, Entries())
      && AheadOnly(bc.disk, bc.View(), g, Entries())
    }

    /** What the transaction will write: the cached contents of the logged blocks. */
    ghost function Contents(): seq<Block>
      reads this, block, bc, bc.bufs, bc.next, bc.prev
      requires Valid()
    {
      ContentsOf(bc.View(), g, Entries())
    }

    /** write_log: every logged block reaches the log, unless all buffers are taken. */
    method WriteLog(ghost held: Held) returns (ok: bool)
      requires OutsideLog(g, held) && Valid() && Pinned(bc.bufs[..], g.dev, Entries(), held)
      modifies bc, bc.bufs, bc.next, bc.prev
      ensures bc.Valid()
      ensures ok <==> n == 0 || |Busy(g.dev, Entries(), held)| < bc.nbuf
      ensures !ok ==> bc.disk == old(bc.disk) && bc.View() == old(bc.View()) && bc.trace == old(bc.trace)
      ensures ok ==> Pinned(bc.bufs[..], g.dev, Entries(), held)
      ensures ok ==> bc.disk == LogWritten(old(bc.disk), g, old(Contents()), n)
      ensures ok ==> bc.View() == LogWritten(old(bc.View()), g, old(Contents()), n)
      ensures ok ==> bc.trace == old(bc.trace) + LogTrace(old(bc.disk), g, old(Contents()), n)
    {
      hide Cache.RingInv, BufsInv, ViewOf, HeadIs, LogTrace, Pinned, NoDup, LogWritten, ContentsOf, Busy, OutsideLog;
      ghost var d, v, c := bc.disk, bc.View(), Contents();
      var tail := 0;
      LogTraceStep(d, g, c, 0);
      LogTraceStep(v, g, c, 0);
      while tail < n
        invariant 0 <= tail <= n && bc.Valid()
        invariant Pinned(bc.bufs[..], g.dev, Entries(), held)
        invariant bc.disk == LogWritten(d, g, c, tail) && bc.View() == LogWritten(v, g, c, tail)
        invariant bc.trace == old(bc.trace) + LogTrace(d, g, c, tail)
        invariant |Busy(g.dev, Entries(), held)| < bc.nbuf || tail == 0
      {
        LogWrittenAt(d, g, c, tail);
        LogWrittenAt(v, g, c, tail);
        LogTraceStep(d, g, c, tail);
        LogTraceStep(v, g, c, tail);
        assert block[tail] in Entries();
        NotBusy(d, g, Entries(), 0, held, LogAddr(g, tail));
        assert Entries()[0..] == Entries();
        RoomFor(bc, LogAddr(g, tail), Entries(), held);
        ok := WriteLogOne(bc, LogAddr(g, tail), HomeAddr(g, block[tail]), Entries(), held);
        if !ok {
          return;
        }
        tail := tail + 1;
      }
      ok := true;
    }

    /** install_trans(0): the log's blocks go home, the pins go away, and the cache is clean. */
    method InstallTrans(ghost held: Held) returns (ok: bool)
      requires bc.Valid() && n <= block.Length && block != bc.next && block != bc.prev && OutsideLog(g, held)
      requires |Busy(g.dev, Entries(), held)| < bc.nbuf
      requires Holds(bc.disk, g, Entries()) && Pinned(bc.bufs[..], g.dev, Entries(), held)
      requires CacheHasLog(bc.disk, bc.View(), g, Entries())
      modifies bc, bc.bufs, bc.next, bc.prev
      ensures bc.Valid() && ok && Pinned(bc.bufs[..], g.dev, [], held)
      ensures bc.disk == Replay(old(bc.disk), g, Entries(), n) && bc.View() == old(bc.View())
      ensures bc.trace == old(bc.trace) + ReplayTrace(old(bc.disk), g, Entries(), n)
    {
      hide Cache.RingInv, BufsInv, ViewOf, HeadIs, ReplayTrace, Pinned, NoDup, Replay, Busy, OutsideLog;
      ghost var d, v, entries := bc.disk, bc.View(), Entries();
      var tail := 0;
      ReplayStep(d, g, entries, 0);
      assert entries[0..] == entries;
      while tail < n
        invariant 0 <= tail <= n && bc.Valid() && bc.View() == v
        invariant Pinned(bc.bufs[..], g.dev, entries[tail..], held)
        invariant bc.disk == Replay(d, g, entries, tail)
        invariant bc.trace == old(bc.trace) + ReplayTrace(d, g, entries, tail)
      {
        ReplayAt(d, g, entries, tail, LogAddr(g, tail));
        ReplayStep(d, g, entries, tail);
        NoDupDrop(entries, tail);
        assert block[tail] == entries[tail..][0] && entries[tail..][1..] == entries[tail + 1..];
        NotBusy(d, g, entries, tail, held, LogAddr(g, tail));
        LessBusy(g.dev, entries, tail, held);
        RoomFor(bc, LogAddr(g, tail), entries[tail..], held);
        ok := InstallOne(bc, LogAddr(g, tail), HomeAddr(g, block[tail]), entries[tail..], held);
        assert v[HomeAddr(g, block[tail]) := d[LogAddr(g, tail)]] == v;
        tail := tail + 1;
      }
      assert entries[n..] == [];
      ok := true;
    }

    /** commit: goes through exactly the states of CommitTrace and leaves a clean cache; it panics in bget exactly when
        the transaction and those who hold buffers meanwhile have taken them all, and then before its first write. */
    method Commit(ghost held: Held) returns (ok: bool)
      requires OutsideLog(g, held) && Valid() && Pinned(bc.bufs[..], g.dev, Entries(), held)
      modifies this`n, bc, bc.bufs, bc.next, bc.prev
      ensures ok <==> old(n) == 0 || |Busy(g.dev, old(Entries()), held)| < bc.nbuf
      ensures !ok ==> bc.disk == old(bc.disk) && bc.trace == old(bc.trace)
      ensures ok ==> Valid() && n == 0 && Pinned(bc.bufs[..], g.dev, [], held)
      ensures ok ==> bc.trace == old(bc.trace) + CommitTrace(old(bc.disk), g, old(Entries()), old(Contents()))
      ensures ok ==> bc.disk == CommitResult(old(bc.disk), g, old(Entries()), old(Contents()))
    {
      hide Cache.Valid, Loggable, HeadIs, AheadOnly, Pinned, Recovered, LogTrace, ReplayTrace, Committed, CacheHasLog,
           ContentsOf, Busy, OutsideLog, Cache.View;
      if n > 0 {
        ok := LogTransaction(held);
        if !ok {
          return;
        }
        InstallTransaction(held);
      }
      ok := true;
    }

    /** The first half of commit: log blocks, then the header that commits them. */
    method LogTransaction(ghost held: Held) returns (ok: bool)
      requires OutsideLog(g, held) && Valid() && Pinned(bc.bufs[..], g.dev, Entries(), held) && n > 0
      modifies bc, bc.bufs, bc.next, bc.prev
      ensures bc.Valid() && (ok <==> |Busy(g.dev, Entries(), held)| < bc.nbuf)
      ensures !ok ==> bc.disk == old(bc.disk) && bc.trace == old(bc.trace)
      ensures ok ==> Pinned(bc.bufs[..], g.dev, Entries(), held)
      ensures ok ==> bc.disk == Committed(old(bc.disk), g, Entries(), old(Contents()))
      ensures ok ==> Holds(bc.disk, g, Entries()) && CacheHasLog(bc.disk, bc.View(), g, Entries())
      ensures ok ==> bc.trace == old(bc.trace) + LogTrace(old(bc.disk), g, old(Contents()), n) + [bc.disk]
    {
      hide Cache.RingInv, BufsInv, ViewOf, HeadIs, Pinned, NoDup, LogWritten, ContentsOf, LogTrace, PutHead, Busy,
           OutsideLog;
      ghost var d, v, c := bc.disk, bc.View(), Contents();
      ok := WriteLog(held);
      if ok {
        AtHeader(d, v, g, Entries(), c);
        NotBusy(d, g, Entries(), 0, held, HeadAddr(g));
        assert Entries()[0..] == Entries();
        RoomFor(bc, HeadAddr(g), Entries(), held);
        ok := WriteHead(bc, g, block[..n], Entries(), held);
      }
    }

    /** The second half: install, then erase the log. */
    method InstallTransaction(ghost held: Held)
      requires bc.Valid() && 0 < n <= block.Length == LOGSIZE && block != bc.next && block != bc.prev
      requires OutsideLog(g, held) && |Busy(g.dev, Entries(), held)| < bc.nbuf
      requires Holds(bc.disk, g, Entries()) && Pinned(bc.bufs[..], g.dev, Entries(), held)
      requires CacheHasLog(bc.disk, bc.View(), g, Entries())
      modifies this`n, bc, bc.bufs, bc.next, bc.prev
      ensures Valid() && n == 0 && Pinned(bc.bufs[..], g.dev, [], held)
      ensures bc.disk == Recovered(old(bc.disk), g, old(Entries()))
      ensures bc.trace == old(bc.trace) + ReplayTrace(old(bc.disk), g, old(Entries()), old(n)) + [bc.disk]
    {
      hide Cache.RingInv, BufsInv, ViewOf, HeadIs, Pinned, NoDup, Replay, Recovered, ReplayTrace, PutHead, Busy,
           OutsideLog;
      ghost var d1, blocks := bc.disk, Entries();
      AtEnd(d1, bc.View(), g, blocks);
      NotBusy(d1, g, blocks, n, held, HeadAddr(g));
      LessBusy(g.dev, blocks, n, held);
      assert blocks[n..] == [];
      var _ := InstallTrans(held);
      n := 0;
      RoomFor(bc, HeadAddr(g), [], held);
      var _ := WriteHead(bc, g, [], [], held);
    }

    /** read_head */
    method ReadHead(ghost blocks: seq<nat>) returns (ok: bool)
      requires bc.Valid() && block.Length == LOGSIZE && block != bc.next && block != bc.prev
      requires Holds(bc.disk, g, blocks) && |blocks| <= LOGSIZE && bc.View() == bc.disk
      requires Pinned(bc.bufs[..], g.dev, [], map[]) && bc.nbuf >= 1
      modifies this`n, block, bc, bc.bufs, bc.next, bc.prev
      ensures bc.Valid() && ok && Pinned(bc.bufs[..], g.dev, [], map[]) && n <= block.Length && Entries() == blocks
      ensures bc.disk == old(bc.disk) && bc.View() == bc.disk && bc.trace == old(bc.trace)
    {
      hide Ring, ViewOf;
      ghost var bufs0 := bc.bufs[..];
      RoomFor(bc, HeadAddr(g), [], map[]);
      var b := bc.BRead(HeadAddr(g));
      var h := bc.bufs[b.value].data;
      assert h == bc.disk[HeadAddr(g)];
      n := h[0];
      var i := 0;
      while i < n
        invariant 0 <= i <= n == |blocks| && block[..i] == blocks[..i]
        modifies block
      {
        assert h[1 + i] == blocks[i];
        block[i] := h[1 + i];
        i := i + 1;
      }
      bc.BRelse(b.value);
      PinnedAfterOne(bufs0, bc.bufs[..], g.dev, [], map[], b.value);
      ok := true;
    }

    /** recover_from_log at boot: the disk becomes the recovered disk, through the states of replay. */
    method RecoverFromLog(ghost blocks: seq<nat>) returns (ok: bool)
      requires bc.Valid() && block.Length == LOGSIZE && block != bc.next && block != bc.prev
      requires Holds(bc.disk, g, blocks) && |blocks| <= LOGSIZE && bc.View() == bc.disk
      requires Pinned(bc.bufs[..], g.dev, [], map[]) && bc.nbuf >= 2
      modifies this`n, block, bc, bc.bufs, bc.next, bc.prev
      ensures Valid() && ok && n == 0 && Pinned(bc.bufs[..], g.dev, [], map[])
      ensures bc.disk == Recovered(old(bc.disk), g, blocks) && bc.View() == bc.disk
      ensures bc.trace == old(bc.trace) + ReplayTrace(old(bc.disk), g, blocks, |blocks|) + [bc.disk]
    {
      hide Cache.RingInv, BufsInv, ViewOf, HeadIs, Pinned, NoDup, Replay, Recovered, ReplayTrace, PutHead;
      ghost var d := bc.disk;
      ok := ReadHead(blocks);
      RecoverLoop();
      n := 0;
      RecoveredIsClean(d, g, blocks);
      ReplayAt(d, g, blocks, |blocks|, HeadAddr(g));
      EmptyIsDistinct();
      RoomFor(bc, HeadAddr(g), [], map[]);
      CacheCaughtUp(d, g, blocks);
      ok := WriteHead(bc, g, [], [], map[]);
    }

    /** install_trans(1) */
    method RecoverLoop()
      requires bc.Valid() && n <= block.Length && block != bc.next && block != bc.prev && bc.nbuf >= 2
      requires Holds(bc.disk, g, Entries()) && Pinned(bc.bufs[..], g.dev, [], map[]) && bc.View() == bc.disk
      modifies bc, bc.bufs, bc.next, bc.prev
      ensures bc.Valid() && Pinned(bc.bufs[..], g.dev, [], map[]) && bc.View() == bc.disk
      ensures bc.disk == Replay(old(bc.disk), g, Entries(), n)
      ensures bc.trace == old(bc.trace) + ReplayTrace(old(bc.disk), g, Entries(), n)
    {
      hide Cache.RingInv, BufsInv, ViewOf, HeadIs, ReplayTrace, Pinned, NoDup, Replay;
      ghost var d, entries := bc.disk, Entries();
      var tail := 0;
      ReplayStep(d, g, entries, 0);
      while tail < n
        invariant 0 <= tail <= n && bc.Valid() && bc.View() == bc.disk && Pinned(bc.bufs[..], g.dev, [], map[])
        invariant bc.disk == Replay(d, g, entries, tail)
        invariant bc.trace == old(bc.trace) + ReplayTrace(d, g, entries, tail)
      {
        ReplayAt(d, g, entries, tail, LogAddr(g, tail));
        ReplayStep(d, g, entries, tail);
        assert block[tail] == entries[tail];
        var _ := RecoverOne(bc, LogAddr(g, tail), HomeAddr(g, block[tail]));
        tail := tail + 1;
      }
    }

    /** log_write on a buffer whose data the caller has changed. `TooBig` and `NoTransaction` are its panics. */
    method LogWrite(b: nat) returns (r: LogResult)
      requires bc.Valid() && n <= block.Length == LOGSIZE && block != bc.next && block != bc.prev
      requires Holds(bc.disk, g, []) && Loggable(bc.disk, g, Entries())
      requires b < bc.nbuf && bc.bufs[b].valid && bc.bufs[b].refcnt > 0
      requires bc.bufs[b].at.dev == g.dev && !InLog(g, bc.bufs[b].at)
      requires AheadOnly(bc.disk, bc.View(), g, Entries() + [bc.bufs[b].at.blockno])
      modifies this`n, block, bc.bufs
      ensures r.TooBig? <==> old(n) >= LOGSIZE || old(n) >= g.size - 1
      ensures r.NoTransaction? <==> !r.TooBig? && outstanding < 1
      ensures !r.Logged? ==> n == old(n) && block[..] == old(block[..]) && bc.bufs[..] == old(bc.bufs[..])
      ensures r.Logged? ==> Valid() && bc.View() == old(bc.View())
      ensures r.Logged? ==> var e := old(bc.bufs[b].at.blockno);
                            Entries() == if e in old(Entries()) then old(Entries()) else old(Entries()) + [e]
      ensures r.Logged? ==> var e := old(bc.bufs[b].at.blockno);
                            bc.bufs[..] == old(bc.bufs[..])[b := old(bc.bufs[b]).(
                              refcnt := old(bc.bufs[b].refcnt) + (if e in old(Entries()) then 0 else 1))]
    {
      hide Cache.RingInv, ViewOf, HeadIs;
      var e := bc.bufs[b].at.blockno;
      assert BufOk(bc.bufs[..][b], bc.disk);
      if n >= LOGSIZE || n >= g.size - 1 {
        return TooBig;
      }
      if outstanding < 1 {
        return NoTransaction;
      }
      var i := 0;
      while i < n && block[i] != e
        invariant 0 <= i <= n && e !in block[..i]
      {
        i := i + 1;
      }
      assert i < n ==> e in Entries();
      assert bc.bufs[..] == old(bc.bufs[..])[b := old(bc.bufs[b])];
      assert i < n ==> block[..][i := e] == block[..];
      block[i] := e;
      if i == n {
        bc.BPin(b);
        n := n + 1;
        assert block[..n] == old(block[..n]) + [e];
        MoreLoggable(bc.disk, g, old(Entries()), e);
      } else {
        assert block[..n] == old(block[..n]);
        SameAhead(bc.disk, bc.View(), g, Entries(), e);
      }
      r := Logged;
    }

    /** Modify a held buffer, log_write it and release it. */
    method LogHeld(b: nat, data: Block) returns (r: LogResult)
      requires bc.Valid() && n <= block.Length == LOGSIZE && block != bc.next && block != bc.prev
      requires Holds(bc.disk, g, []) && Loggable(bc.disk, g, Entries())
      requires b < bc.nbuf && bc.bufs[b].valid && bc.bufs[b].refcnt > 0
      requires bc.bufs[b].at.blockno in Entries() ==> bc.bufs[b].refcnt > 1
      requires bc.bufs[b].at.dev == g.dev && !InLog(g, bc.bufs[b].at)
      requires AheadOnly(bc.disk, bc.View()[bc.bufs[b].at := data], g, Entries() + [bc.bufs[b].at.blockno])
      modifies this`n, block, bc, bc.bufs, bc.next, bc.prev
      ensures r.TooBig? <==> old(n) >= LOGSIZE || old(n) >= g.size - 1
      ensures r.NoTransaction? <==> !r.TooBig? && outstanding < 1
      ensures r.Logged? ==> Valid() && bc.View() == old(bc.View())[old(bc.bufs[b].at) := data]
      ensures bc.disk == old(bc.disk) && bc.trace == old(bc.trace)
      ensures r.Logged? ==> var e := old(bc.bufs[b].at.blockno);
                            Entries() == if e in old(Entries()) then old(Entries()) else old(Entries()) + [e]
      ensures r.Logged? ==> var e := old(bc.bufs[b].at.blockno);
                            bc.bufs[..] == old(bc.bufs[..])[b := old(bc.bufs[b]).(
                              data := data, refcnt := old(bc.bufs[b].refcnt) - (if e in old(Entries()) then 1 else 0))]
    {
      hide Ring, ViewOf, HeadIs, NoDup, AheadOnly;
      bc.SetData(b, data);
      r := LogWrite(b);
      if r.Logged? {
        bc.BRelse(b);
      }
    }

    /** The documented use of log_write: bread, modify, log_write, brelse. */
    method Update(a: Addr, data: Block, ghost held: Held) returns (r: UpdateResult)
      requires Valid() && Pinned(bc.bufs[..], g.dev, Entries(), held)
      requires a in bc.disk && a.dev == g.dev && !InLog(g, a)
      modifies this`n, block, bc, bc.bufs, bc.next, bc.prev
      ensures r.NoBuffers? <==> var busy := Busy(g.dev, old(Entries()), held); a !in busy && |busy| >= bc.nbuf
      ensures r.Panicked? <==> !r.NoBuffers? && (old(n) >= LOGSIZE || old(n) >= g.size - 1 || outstanding < 1)
      ensures r.Updated? ==> Valid() && Pinned(bc.bufs[..], g.dev, Entries(), held)
      ensures bc.disk == old(bc.disk) && bc.trace == old(bc.trace)
      ensures r.Updated? ==> bc.View() == old(bc.View())[a := data]
      ensures r.Updated? ==>
                Entries() == if a.blockno in old(Entries()) then old(Entries()) else old(Entries()) + [a.blockno]
    {
      hide Ring, ViewOf, HeadIs, BufOk, Busy, NoDup;
      ghost var bufs0, entries := bc.bufs[..], Entries();
      RoomForAny(bc, a, entries, held);
      var b := bc.BRead(a);
      if b.None? {
        return NoBuffers;
      }
      AheadMore(bc.disk, bc.View(), g, entries, a, data);
      var l := LogHeld(b.value, data);
      if !l.Logged? {
        return Panicked;
      }
      PinMore(bufs0, bc.bufs[..], g.dev, entries, Entries(), held, b.value);
      r := Updated;
    }

    /** A whole transaction: any sequence of logged updates, then the commit. It succeeds if log and cache have
        room. Then the home blocks on disk are the old ones with all updates applied, and a crash followed by any
        number of crashes during recovery leaves none of them before disk write `c` and all of them from it on. */
    method Transaction(writes: seq<(Addr, Block)>, ghost held: Held) returns (ok: bool, ghost c: nat)
      requires OutsideLog(g, held) && Valid() && n == 0 && Pinned(bc.bufs[..], g.dev, [], held) && outstanding >= 1
      requires forall w :: w in writes ==> w.0 in bc.disk && w.0.dev == g.dev && !InLog(g, w.0)
      modifies this`n, block, bc, bc.bufs, bc.next, bc.prev
      ensures |writes| <= LOGSIZE && |writes| < g.size && |writes| + |held| < bc.nbuf ==> ok
      ensures ok ==> Valid() && n == 0 && Pinned(bc.bufs[..], g.dev, [], held)
      ensures bc.disk.Keys == old(bc.disk).Keys && (!ok ==> bc.disk == old(bc.disk) && bc.trace == old(bc.trace))
      ensures ok ==> Homes(bc.disk, g) == Homes(WriteAll(old(bc.disk), writes), g)
      ensures ok ==> old(bc.trace) <= bc.trace &&
                     Atomic(old(bc.disk), WriteAll(old(bc.disk), writes), bc.trace[|old(bc.trace)|..], c, g)
    {
      hide Cache.RingInv, BufsInv, ViewOf, HeadIs, Pinned, NoDup, Loggable, Atomic, Homes, CommitTrace, CommitResult,
           ContentsOf, Busy, OutsideLog;
      ghost var d, t := bc.disk, bc.trace;
      assert Entries() == [];
      CleanView(d, bc.View(), g);
      var i := 0;
      while i < |writes|
        invariant 0 <= i <= |writes| && n <= i && Valid() && Pinned(bc.bufs[..], g.dev, Entries(), held)
        invariant bc.disk == d && bc.trace == t && bc.View() == WriteAll(d, writes[..i])
      {
        assert writes[i] in writes && writes[..i + 1] == writes[..i] + [writes[i]];
        BusyBound(g.dev, Entries(), held);
        var r := Update(writes[i].0, writes[i].1, held);
        if !r.Updated? {
          return false, 0;
        }
        i := i + 1;
      }
      assert writes[..|writes|] == writes;
      ghost var blocks, contents := Entries(), Contents();
      c := |blocks|;
      AppliedIsView(d, bc.View(), g, blocks);
      CommitIsAtomic(d, g, blocks, contents, bc.View());
      CommitHomes(d, g, blocks, contents);
      BusyBound(g.dev, Entries(), held);
      ok := Commit(held);
      assert ok ==> bc.trace[|t|..] == CommitTrace(d, g, blocks, contents);
    }

    /** Transactions one after the other, `k` of them until one does not fit. Transaction `i` writes the disk states
        from `marks[i]` to `marks[i + 1]` and commits with state `commits[i]`. A crash at any disk write, and any number
        of crashes during recovery, leaves exactly the transactions that have committed by then. */
    method History(txs: seq<seq<(Addr, Block)>>, ghost held: Held)
      returns (k: nat, ghost marks: seq<nat>, ghost commits: seq<nat>)
      requires OutsideLog(g, held) && Valid() && n == 0 && Pinned(bc.bufs[..], g.dev, [], held) && outstanding >= 1
      requires forall tx, w :: tx in txs && w in tx ==> w.0 in bc.disk && w.0.dev == g.dev && !InLog(g, w.0)
      modifies this`n, block, bc, bc.bufs, bc.next, bc.prev
      ensures k <= |txs|
      ensures k < |txs| ==> |txs[k]| > LOGSIZE || |txs[k]| >= g.size || |txs[k]| + |held| >= bc.nbuf
      ensures k == |txs| ==> Valid() && n == 0 && Pinned(bc.bufs[..], g.dev, [], held)
      ensures Homes(bc.disk, g) == Homes(DiskAfter(old(bc.disk), txs, k), g)
      ensures RecoversTo(bc.disk, DiskAfter(old(bc.disk), txs, k), g)
      ensures old(bc.trace) <= bc.trace
      ensures Durable(old(bc.disk), txs, k, bc.trace[|old(bc.trace)|..], marks, commits, g)
      ensures Exact(old(bc.disk), txs, k, bc.trace[|old(bc.trace)|..], commits, g)
    {
      hide Cache.Valid, HeadIs, Pinned, NoDup, Loggable, Atomic, Homes, OutsideLog, AheadOnly, Durable, DiskAfter,
           WriteAll, Cache.View, RecoversTo, Exact;
      ghost var d, t := bc.disk, bc.trace;
      k, marks, commits := 0, [0], [];
      assert bc.trace[|t|..] == [];
      DurableStart(d, txs, g);
      while k < |txs|
        invariant 0 <= k <= |txs| && Valid() && n == 0 && Pinned(bc.bufs[..], g.dev, [], held)
        invariant bc.disk.Keys == d.Keys && Homes(bc.disk, g) == Homes(DiskAfter(d, txs, k), g)
        invariant t <= bc.trace && Durable(d, txs, k, bc.trace[|t|..], marks, commits, g)
      {
        ghost var d1, t1 := bc.disk, bc.trace;
        assert txs[k] in txs;
        var ok, c := Transaction(txs[k], held);
        if !ok {
          CleanRecovers(d1, DiskAfter(d, txs, k), g);
          NoneLost(d, txs, k, t1[|t|..], marks, commits, g);
          return;
        }
        AfterMore(d, txs, k, d1, g);
        ghost var more := bc.trace[|t1|..];
        SameAtomic(d1, WriteAll(d1, txs[k]), DiskAfter(d, txs, k), DiskAfter(d, txs, k + 1), more, c, g);
        DurableMore(d, txs, k, t1[|t|..], marks, commits, more, c, g);
        assert bc.trace == t1 + more && bc.trace[|t|..] == t1[|t|..] + more;
        commits := commits + [|t1[|t|..]| + c];
        marks := marks + [|t1[|t|..]| + |more|];
        k := k + 1;
      }
      CleanRecovers(bc.disk, DiskAfter(d, txs, k), g);
      NoneLost(d, txs, k, bc.trace[|t|..], marks, commits, g);
    }
  }

  /** The disk after the first `k` of the transactions `txs`. */
  ghost function DiskAfter(d: Disk, txs: seq<seq<(Addr, Block)>>, k: nat): Disk
    requires k <= |txs|
  {
    if k == 0 then d else WriteAll(DiskAfter(d, txs, k - 1), txs[k - 1])
  }

  /** `marks` cuts the disk states of a history into those of its transactions, and `commits` names in each part the
      state with which its transaction is there for good. */
  ghost predicate Durable(d: Disk, txs: seq<seq<(Addr, Block)>>, k: nat, states: seq<Disk>, marks: seq<nat>,
      commits: seq<nat>, g: Geometry)
    requires k <= |txs|
  {
    && |marks| == k + 1 && |commits| == k && marks[0] == 0 && marks[k] == |states|
    && forall i: nat :: i < k ==> Segment(d, txs, i, states, marks, commits, g)
  }

  ghost predicate Segment(d: Disk, txs: seq<seq<(Addr, Block)>>, i: nat, states: seq<Disk>, marks: seq<nat>,
      commits: seq<nat>, g: Geometry)
    requires i < |txs|
  {
    && i + 1 < |marks| && i < |commits| && marks[i] <= commits[i] <= marks[i + 1] <= |states|
    && Atomic(DiskAfter(d, txs, i), DiskAfter(d, txs, i + 1), states[marks[i]..marks[i + 1]], commits[i] - marks[i], g)
  }

  /** Whatever disk state `p` a crash leaves, recovery ends with the transactions whose commit is not after `p`, all of
      them and no others. */
  ghost predicate Exact(d: Disk, txs: seq<seq<(Addr, Block)>>, k: nat, states: seq<Disk>, commits: seq<nat>,
      g: Geometry)
    requires k <= |txs|
  {
    && |commits| == k
    && (forall p: nat :: p < |states| ==> SomeBy(commits, p))
    && forall p: nat, i: nat :: p < |states| && i <= k && By(commits, p, i) ==>
                                  RecoversTo(states[p], DiskAfter(d, txs, i), g)
  }

  /** The first `i` commits are those that are not after state `p`. */
  ghost predicate By(commits: seq<nat>, p: nat, i: nat)
    requires i <= |commits|
  {
    (i > 0 ==> commits[i - 1] <= p) && (i < |commits| ==> p < commits[i])
  }

  ghost predicate SomeBy(commits: seq<nat>, p: nat) {
    exists i: nat :: i <= |commits| && By(commits, p, i)
  }

  lemma {:induction false} MarksRise(d: Disk, txs: seq<seq<(Addr, Block)>>, k: nat, states: seq<Disk>, marks: seq<nat>,
      commits: seq<nat>, g: Geometry, i: nat, j: nat)
    requires k <= |txs| && Durable(d, txs, k, states, marks, commits, g) && i <= j <= k
    ensures marks[i] <= marks[j]
    decreases j - i
  {
    hide Atomic, DiskAfter;
    if i < j {
      assert Segment(d, txs, j - 1, states, marks, commits, g);
      MarksRise(d, txs, k, states, marks, commits, g, i, j - 1);
    }
  }

  /** The transaction to which state `p` belongs. */
  lemma {:induction false} PartOf(d: Disk, txs: seq<seq<(Addr, Block)>>, k: nat, states: seq<Disk>, marks: seq<nat>,
      commits: seq<nat>, g: Geometry, p: nat, i: nat) returns (j: nat)
    requires k <= |txs| && Durable(d, txs, k, states, marks, commits, g) && i <= k && marks[i] <= p < |states|
    ensures j < k && marks[j] <= p < marks[j + 1]
    decreases k - i
  {
    hide Atomic, DiskAfter;
    if p < marks[i + 1] {
      return i;
    }
    j := PartOf(d, txs, k, states, marks, commits, g, p, i + 1);
  }

  lemma NoneLost(d: Disk, txs: seq<seq<(Addr, Block)>>, k: nat, states: seq<Disk>, marks: seq<nat>,
      commits: seq<nat>, g: Geometry)
    requires k <= |txs| && Durable(d, txs, k, states, marks, commits, g)
    ensures Exact(d, txs, k, states, commits, g)
  {
    hide Atomic, DiskAfter, RecoversTo;
    forall p: nat | p < |states| ensures SomeBy(commits, p) {
      var j := PartOf(d, txs, k, states, marks, commits, g, p, 0);
      assert Segment(d, txs, j, states, marks, commits, g);
      assert j > 0 ==> Segment(d, txs, j - 1, states, marks, commits, g);
      assert j + 1 < k ==> Segment(d, txs, j + 1, states, marks, commits, g);
      assert By(commits, p, if p < commits[j] then j else j + 1);
    }
    forall p: nat, i: nat | p < |states| && i <= k && By(commits, p, i)
      ensures RecoversTo(states[p], DiskAfter(d, txs, i), g)
    {
      var j := PartOf(d, txs, k, states, marks, commits, g, p, 0);
      assert Segment(d, txs, j, states, marks, commits, g);
      PartRecovers(DiskAfter(d, txs, j), DiskAfter(d, txs, j + 1), states, marks[j], marks[j + 1], commits[j], p, g);
      if i > j + 1 {
        assert Segment(d, txs, i - 1, states, marks, commits, g);
        MarksRise(d, txs, k, states, marks, commits, g, j + 1, i - 1);
        assert false;
      }
      if i < j {
        assert Segment(d, txs, i, states, marks, commits, g);
        MarksRise(d, txs, k, states, marks, commits, g, i + 1, j);
        assert false;
      }
    }
  }

  lemma PartRecovers(before: Disk, after: Disk, states: seq<Disk>, lo: nat, hi: nat, c: nat, p: nat, g: Geometry)
    requires lo <= c <= hi <= |states| && lo <= p < hi && Atomic(before, after, states[lo..hi], c - lo, g)
    ensures RecoversTo(states[p], if p < c then before else after, g)
  {
    hide RecoversTo;
    assert states[lo..hi][p - lo] == states[p];
  }

  lemma {:induction false} WriteAllHomes(d: Disk, d': Disk, writes: seq<(Addr, Block)>, g: Geometry)
    requires Homes(d, g) == Homes(d', g) && forall w :: w in writes ==> !InLog(g, w.0)
    ensures Homes(WriteAll(d, writes), g) == Homes(WriteAll(d', writes), g)
    decreases |writes|
  {
    if writes != [] {
      var k := |writes| - 1;
      var e, e' := WriteAll(d, writes[..k]), WriteAll(d', writes[..k]);
      assert writes[k] in writes;
      WriteAllHomes(d, d', writes[..k], g);
      PutHomes(e, g, writes[k].0, writes[k].1);
      PutHomes(e', g, writes[k].0, writes[k].1);
    }
  }

  lemma DurableStart(d: Disk, txs: seq<seq<(Addr, Block)>>, g: Geometry)
    ensures Durable(d, txs, 0, [], [0], [], g) && DiskAfter(d, txs, 0) == d
  {}

  lemma AfterMore(d: Disk, txs: seq<seq<(Addr, Block)>>, k: nat, d1: Disk, g: Geometry)
    requires k < |txs| && Homes(d1, g) == Homes(DiskAfter(d, txs, k), g) && forall w :: w in txs[k] ==> !InLog(g, w.0)
    ensures Homes(WriteAll(d1, txs[k]), g) == Homes(DiskAfter(d, txs, k + 1), g)
  {
    WriteAllHomes(d1, DiskAfter(d, txs, k), txs[k], g);
  }

  lemma PutHomes(d: Disk, g: Geometry, a: Addr, data: Block)
    requires !InLog(g, a)
    ensures Homes(d[a := data], g) == Homes(d, g)[a := data]
  {}

  lemma SameAtomic(d: Disk, after: Disk, d': Disk, after': Disk, states: seq<Disk>, c: nat, g: Geometry)
    requires Atomic(d, after, states, c, g) && Homes(d, g) == Homes(d', g) && Homes(after, g) == Homes(after', g)
    ensures Atomic(d', after', states, c, g)
  {
    hide Homes, Recovered, Readable, CrashRun;
    forall k: int | 0 <= k < |states| ensures RecoversTo(states[k], if k < c then d' else after', g) {
      assert RecoversTo(states[k], if k < c then d else after, g);
    }
  }

  lemma DurableMore(d: Disk, txs: seq<seq<(Addr, Block)>>, k: nat, states: seq<Disk>, marks: seq<nat>,
      commits: seq<nat>, more: seq<Disk>, c: nat, g: Geometry)
    requires k < |txs| && Durable(d, txs, k, states, marks, commits, g)
             && Atomic(DiskAfter(d, txs, k), DiskAfter(d, txs, k + 1), more, c, g)
    ensures Durable(d, txs, k + 1, states + more, marks + [|states| + |more|], commits + [|states| + c], g)
  {
    hide RecoversTo, DiskAfter;
    var states', marks', commits' := states + more, marks + [|states| + |more|], commits + [|states| + c];
    forall i: nat | i < k + 1 ensures Segment(d, txs, i, states', marks', commits', g) {
      if i < k {
        assert Segment(d, txs, i, states, marks, commits, g);
        assert states'[marks'[i]..marks'[i + 1]] == states[marks[i]..marks[i + 1]];
      } else {
        assert states'[marks'[i]..marks'[i + 1]] == more;
      }
    }
  }

  /** The updates of a transaction, one after the other. */
  ghost function WriteAll(d: Disk, writes: seq<(Addr, Block)>): Disk
    decreases |writes|
  {
    if writes == [] then d
    else var k := |writes| - 1; WriteAll(d, writes[..k])[writes[k].0 := writes[k].1]
  }

  /** A crash in one of these states is as if nothing had happened before state `c`, and as if everything had from it
      on. State `c` is among them if there are any. */
  ghost predicate Atomic(before: Disk, after: Disk, states: seq<Disk>, c: nat, g: Geometry) {
    && (if states == [] then c == 0 && Homes(before, g) == Homes(after, g) else c < |states|)
    && forall k: int :: 0 <= k < |states| ==> RecoversTo(states[k], if k < c then before else after, g)
  }

  /** Recovery can read this disk, and however often it crashes, it ends with the home blocks of `home`. */
  ghost predicate RecoversTo(d: Disk, home: Disk, g: Geometry) {
    && (exists log :: Readable(Crashed(d, log), g))
    && forall run: seq<Crashed> :: CrashRun(run, g) && run[0].disk == d ==> EndsWith(run[|run| - 1], home, g)
  }

  ghost predicate EndsWith(c: Crashed, home: Disk, g: Geometry) {
    Readable(c, g) && Homes(Recovered(c.disk, g, c.log), g) == Homes(home, g)
  }

  /** A disk with an empty log recovers to itself. */
  lemma CleanRecovers(d: Disk, home: Disk, g: Geometry)
    requires Holds(d, g, []) && Homes(d, g) == Homes(home, g)
    ensures RecoversTo(d, home, g)
  {
    hide HeadIs, NoDup;
    assert Readable(Crashed(d, []), g);
    forall run: seq<Crashed> | CrashRun(run, g) && run[0].disk == d ensures EndsWith(run[|run| - 1], home, g) {
      HeadUnique(d[HeadAddr(g)], [], run[0].log);
      ManyCrashes(run, g);
      CrashBeforeHeader(d, g, [], 0);
    }
  }

  lemma CleanView(d: Disk, v: Disk, g: Geometry)
    requires AheadOnly(d, v, g, [])
    ensures v == d
  {}

  /** What commit applies to the home blocks is what the cache shows. */
  lemma AppliedIsView(d: Disk, v: Disk, g: Geometry, blocks: seq<nat>)
    requires Loggable(d, g, blocks) && AheadOnly(d, v, g, blocks)
    ensures Applied(d, g, blocks, ContentsOf(v, g, blocks)) == v
  {
    var c := ContentsOf(v, g, blocks);
    AppliedKeys(d, g, blocks, c);
    forall a | a in d ensures Applied(d, g, blocks, c)[a] == v[a] {
      AppliedAt(d, g, blocks, c, a);
      if a.dev == g.dev && a.blockno in blocks {
        var j :| 0 <= j < |blocks| && blocks[j] == a.blockno;
        assert a == HomeAddr(g, blocks[j]);
      }
    }
  }

  lemma HeadUnique(h: Block, a: seq<nat>, b: seq<nat>)
    requires HeadIs(h, a) && HeadIs(h, b)
    ensures a == b
  {}

  lemma CommitIsAtomic(d: Disk, g: Geometry, blocks: seq<nat>, c: seq<Block>, after: Disk)
    requires Holds(d, g, []) && Loggable(d, g, blocks) && |c| == |blocks| && after == Applied(d, g, blocks, c)
    ensures Atomic(d, after, CommitTrace(d, g, blocks, c), |blocks|, g)
  {
    hide HeadIs, Homes, Recovered, Replay, LogWritten, NoDup, RecoversTo, Committed;
    var states := CommitTrace(d, g, blocks, c);
    if blocks != [] {
      CommitTraceStates(d, g, blocks, c, 1);
    }
    forall k: int | 0 <= k < |states| ensures RecoversTo(states[k], if k < |blocks| then d else after, g) {
      StateRecovers(d, g, blocks, c, k + 1);
    }
  }

  lemma CommitKeys(d: Disk, g: Geometry, blocks: seq<nat>, c: seq<Block>)
    requires Holds(d, g, []) && Loggable(d, g, blocks) && |c| == |blocks|
             && Holds(Committed(d, g, blocks, c), g, blocks)
    ensures Recovered(Committed(d, g, blocks, c), g, blocks).Keys == d.Keys
  {
    LogWrittenAt(d, g, c, |blocks|);
  }

  lemma CommitHomes(d: Disk, g: Geometry, blocks: seq<nat>, c: seq<Block>)
    requires Holds(d, g, []) && Loggable(d, g, blocks) && |c| == |blocks|
    ensures Homes(CommitResult(d, g, blocks, c), g) == Homes(Applied(d, g, blocks, c), g)
    ensures CommitResult(d, g, blocks, c).Keys == d.Keys
  {
    hide HeadIs, Homes, Recovered, NoDup, Committed;
    CrashAtHeader(d, g, blocks, c);
    CommitKeys(d, g, blocks, c);
  }

  lemma StateRecovers(d: Disk, g: Geometry, blocks: seq<nat>, c: seq<Block>, k: nat)
    requires Holds(d, g, []) && Loggable(d, g, blocks) && |c| == |blocks| && 1 <= k
    requires k <= |CommitTrace(d, g, blocks, c)|
    ensures RecoversTo(CommitTrace(d, g, blocks, c)[k - 1], if k <= |blocks| then d else Applied(d, g, blocks, c), g)
  {
    hide HeadIs, Homes, Recovered, Replay, LogWritten, NoDup, Applied;
    assert blocks != [];
    CommitTraceStates(d, g, blocks, c, 1);
    CommitTraceStates(d, g, blocks, c, k);
    var s := CommitState(d, g, blocks, c, k);
    StateReadable(d, g, blocks, c, k);
    assert s == Crashed(s.disk, s.log);
    forall run: seq<Crashed> | CrashRun(run, g) && run[0].disk == s.disk
      ensures EndsWith(run[|run| - 1], if k <= |blocks| then d else Applied(d, g, blocks, c), g)
    {
      HeadUnique(s.disk[HeadAddr(g)], s.log, run[0].log);
      assert run[0] == s;
      CrashAtomicity(d, g, blocks, c, k, run);
    }
  }

  lemma StateReadable(d: Disk, g: Geometry, blocks: seq<nat>, c: seq<Block>, k: nat)
    requires Holds(d, g, []) && Loggable(d, g, blocks) && |c| == |blocks| && k <= 2 * |blocks| + 2
    ensures Readable(CommitState(d, g, blocks, c, k), g)
  {
    hide HeadIs, Homes, Recovered, Replay, LogWritten, NoDup, Applied;
    var n := |blocks|;
    if k <= n {
      CrashBeforeHeader(d, g, c, k);
    } else {
      CrashAtHeader(d, g, blocks, c);
      var d1 := Committed(d, g, blocks, c);
      if k <= 2 * n + 1 {
        ReplayHolds(d1, g, blocks, k - n - 1);
      } else {
        RecoveredIsClean(d1, g, blocks);
      }
    }
  }

  lemma AheadMore(d: Disk, v: Disk, g: Geometry, entries: seq<nat>, a: Addr, data: Block)
    requires AheadOnly(d, v, g, entries) && a in d && a.dev == g.dev
    ensures AheadOnly(d, v[a := data], g, entries + [a.blockno])
  {}

  datatype UpdateResult = Updated | NoBuffers | Panicked

  lemma RoomForAny(bc: Cache, a: Addr, pinned: seq<nat>, held: Held)
    requires bc.Valid() && Pinned(bc.bufs[..], a.dev, pinned, held) && a in bc.disk
    ensures bc.Room(a) <==> a in Busy(a.dev, pinned, held) || |Busy(a.dev, pinned, held)| < bc.nbuf
  {
    hide Ring, ViewOf;
    if a in Busy(a.dev, pinned, held) {
      BusyIsReferenced(bc.bufs[..], a.dev, pinned, held);
      var i :| 0 <= i < |bc.bufs[..]| && bc.bufs[..][i].refcnt > 0 && bc.bufs[..][i].at == a;
      assert bc.bufs[i].at == a;
    } else {
      RoomFor(bc, a, pinned, held);
    }
  }

  lemma BusyBound(dev: nat, pinned: seq<nat>, held: Held)
    ensures |Busy(dev, pinned, held)| <= |pinned| + |held|
  {
    PinnedBound(dev, pinned);
    assert |held.Keys| == |held|;
    UnionBound(set e | e in pinned :: Addr(dev, e), held.Keys);
  }

  lemma {:induction false} UnionBound(a: set<Addr>, b: set<Addr>)
    ensures |a + b| <= |a| + |b|
  {
    assert a + b == a + (b - a);
    assert |b - a| <= |b| by { Subset(b - a, b); }
  }

  lemma {:induction false} Subset(a: set<Addr>, b: set<Addr>)
    requires a <= b
    ensures |a| <= |b|
  {
    if a != {} {
      var x :| x in a;
      Subset(a - {x}, b - {x});
    }
  }

  lemma {:induction false} PinnedBound(dev: nat, pinned: seq<nat>)
    ensures |set e | e in pinned :: Addr(dev, e)| <= |pinned|
    decreases |pinned|
  {
    if pinned != [] {
      var k := |pinned| - 1;
      PinnedBound(dev, pinned[..k]);
      var rest := set e | e in pinned[..k] :: Addr(dev, e);
      assert pinned == pinned[..k] + [pinned[k]];
      assert (set e | e in pinned :: Addr(dev, e)) == rest + {Addr(dev, pinned[k])};
    }
  }

  /** Unpinning makes no buffer busy. */
  lemma LessBusy(dev: nat, pinned: seq<nat>, k: nat, held: Held)
    requires k <= |pinned|
    ensures |Busy(dev, pinned[k..], held)| <= |Busy(dev, pinned, held)|
  {
    assert forall e :: e in pinned[k..] ==> e in pinned;
    Subset(Busy(dev, pinned[k..], held), Busy(dev, pinned, held));
  }

  lemma NotBusy(d: Disk, g: Geometry, entries: seq<nat>, k: nat, held: Held, a: Addr)
    requires OutsideLog(g, held) && InLog(g, a) && Loggable(d, g, entries) && k <= |entries|
    ensures a !in Busy(g.dev, entries[k..], held)
  {
    forall e | e in entries[k..] ensures Addr(g.dev, e) != a {
      assert e in entries;
    }
  }

  /** The logged block is pinned from now on. */
  lemma PinMore(bufs: seq<Buf>, bufs': seq<Buf>, dev: nat, pinned: seq<nat>, pinned': seq<nat>, held: Held, b: nat)
    requires Pinned(bufs, dev, pinned, held) && |bufs'| == |bufs| && b < |bufs| && dev != 0
    requires forall i :: 0 <= i < |bufs| && i != b ==> bufs'[i] == bufs[i]
    requires bufs'[b].at.dev == dev && bufs'[b].valid && bufs'[b].refcnt == Refs(bufs'[b].at, dev, pinned', held)
    requires pinned' == if bufs'[b].at.blockno in pinned then pinned else pinned + [bufs'[b].at.blockno]
    requires bufs[b].refcnt > 0 ==> bufs[b].at == bufs'[b].at
    requires UniqueBufs(bufs')
    ensures Pinned(bufs', dev, pinned', held)
  {
    forall a: Addr | (a.dev == dev && a.blockno in pinned') || a in held ensures exists i :: HoldsBlock(bufs', i, a) {
      if a == bufs'[b].at {
        assert HoldsBlock(bufs', b, a);
      } else {
        assert a in held ==> held[a] > 0;
        assert a == Addr(a.dev, a.blockno);
        var i :| HoldsBlock(bufs, i, a);
        assert bufs[i].refcnt == Refs(a, dev, pinned, held) > 0;
        assert HoldsBlock(bufs', i, a);
      }
    }
    forall e | e in pinned' ensures exists i :: HoldsBlock(bufs', i, Addr(dev, e)) {
      var a := Addr(dev, e);
      assert a.blockno in pinned';
    }
  }

  datatype LogResult = Logged | TooBig | NoTransaction

  lemma EmptyIsDistinct()
    ensures NoDup<nat>([])
  {}

  lemma CacheCaughtUp(d: Disk, g: Geometry, blocks: seq<nat>)
    requires Holds(d, g, blocks)
    ensures var d2 := Replay(d, g, blocks, |blocks|);
            HeadAddr(g) in d2 && Recovered(d, g, blocks) == d2[HeadAddr(g) := PutHead(d2[HeadAddr(g)], [])]
  {}

  lemma MoreLoggable(d: Disk, g: Geometry, entries: seq<nat>, e: nat)
    requires Loggable(d, g, entries) && |entries| + 1 < BWORDS && |entries| + 1 < g.size
    requires e !in entries && HomeAddr(g, e) in d && !InLog(g, HomeAddr(g, e))
    ensures Loggable(d, g, entries + [e])
  {}

  lemma SameAhead(d: Disk, v: Disk, g: Geometry, entries: seq<nat>, e: nat)
    requires AheadOnly(d, v, g, entries + [e]) && e in entries
    ensures AheadOnly(d, v, g, entries)
  {}

  /** All disk writes of a commit, in order. */
  ghost function CommitTrace(d: Disk, g: Geometry, blocks: seq<nat>, contents: seq<Block>): seq<Disk>
    requires Holds(d, g, []) && Loggable(d, g, blocks) && |contents| == |blocks|
  {
    if blocks == [] then []
    else
      CrashAtHeader(d, g, blocks, contents);
      var d1 := Committed(d, g, blocks, contents);
      LogTrace(d, g, contents, |blocks|) + [d1] + ReplayTrace(d1, g, blocks, |blocks|) + [Recovered(d1, g, blocks)]
  }

  /** The disk a commit leaves behind. */
  ghost function CommitResult(d: Disk, g: Geometry, blocks: seq<nat>, contents: seq<Block>): Disk
    requires Holds(d, g, []) && Loggable(d, g, blocks) && |contents| == |blocks|
  {
    if blocks == [] then d
    else
      CrashAtHeader(d, g, blocks, contents);
      Recovered(Committed(d, g, blocks, contents), g, blocks)
  }

  /** The k-th disk write of a commit leaves the k-th state that crash atomicity speaks about. */
  lemma CommitTraceStates(d: Disk, g: Geometry, blocks: seq<nat>, contents: seq<Block>, k: nat)
    requires Holds(d, g, []) && Loggable(d, g, blocks) && |contents| == |blocks| && blocks != []
             && 1 <= k <= 2 * |blocks| + 2
    ensures |CommitTrace(d, g, blocks, contents)| == 2 * |blocks| + 2
    ensures CommitTrace(d, g, blocks, contents)[k - 1] == CommitState(d, g, blocks, contents, k).disk
  {
    hide Replay, LogWritten, Recovered, HeadIs, NoDup;
    CrashAtHeader(d, g, blocks, contents);
    var d1 := Committed(d, g, blocks, contents);
    ReplayStep(d1, g, blocks, 0);
  }


  lemma NoDupDrop(s: seq<nat>, k: nat)
    requires NoDup(s) && k <= |s|
    ensures NoDup(s[k..])
  {}

  lemma ReplayStep(d: Disk, g: Geometry, blocks: seq<nat>, i: nat)
    requires Holds(d, g, blocks) && i <= |blocks|
    ensures i < |blocks| ==>
              ReplayTrace(d, g, blocks, i + 1) == ReplayTrace(d, g, blocks, i) + [Replay(d, g, blocks, i + 1)]
    ensures i < |blocks| ==>
              Replay(d, g, blocks, i + 1) == Replay(d, g, blocks, i)[HomeAddr(g, blocks[i]) := d[LogAddr(g, i)]]
    ensures i == 0 ==> ReplayTrace(d, g, blocks, i) == [] && Replay(d, g, blocks, i) == d
  {}

  /** The cache already has what the log will install, and agrees with the disk elsewhere. */
  ghost predicate CacheHasLog(disk: Disk, view: Disk, g: Geometry, entries: seq<nat>)
    requires Holds(disk, g, entries)
  {
    && view.Keys == disk.Keys
    && (forall i :: 0 <= i < |entries| ==> view[HomeAddr(g, entries[i])] == disk[LogAddr(g, i)])
    && (forall a :: a in disk && view[a] != disk[a] ==> a.dev == g.dev && a.blockno in entries)
  }

  lemma LogTraceStep(d: Disk, g: Geometry, contents: seq<Block>, i: nat)
    requires i <= |contents|
    ensures i < |contents| ==>
              LogTrace(d, g, contents, i + 1) == LogTrace(d, g, contents, i) + [LogWritten(d, g, contents, i + 1)]
    ensures i < |contents| ==>
              LogWritten(d, g, contents, i + 1) == LogWritten(d, g, contents, i)[LogAddr(g, i) := contents[i]]
    ensures i == 0 ==> LogTrace(d, g, contents, i) == [] && LogWritten(d, g, contents, i) == d
  {}

  /** Another block can be brought in exactly when the pinned and the held ones leave a buffer. */
  lemma RoomFor(bc: Cache, a: Addr, pinned: seq<nat>, held: Held)
    requires bc.Valid() && Pinned(bc.bufs[..], a.dev, pinned, held) && a in bc.disk && a !in Busy(a.dev, pinned, held)
    ensures bc.Room(a) <==> |Busy(a.dev, pinned, held)| < bc.nbuf
  {
    hide Ring, ViewOf, Busy, Pinned, Cache.RingInv;
    var bufs := bc.bufs[..];
    assert forall i :: 0 <= i < |bufs| ==> BufOk(bufs[i], bc.disk);
    BusyIsReferenced(bufs, a.dev, pinned, held);
    ReferencedCount(bufs);
    if i :| 0 <= i < bc.bufs.Length && bc.bufs[i].at == a {
      assert bufs[i].at !in Referenced(bufs);
      assert bufs[i].refcnt == 0;
    }
  }

  ghost predicate AheadOnly(disk: Disk, view: Disk, g: Geometry, entries: seq<nat>) {
    && view.Keys == disk.Keys
    && forall a :: a in disk && view[a] != disk[a] ==> a.dev == g.dev && a.blockno in entries
  }

  /** Between write_log and write_head. */
  lemma AtHeader(d: Disk, v: Disk, g: Geometry, blocks: seq<nat>, c: seq<Block>)
    requires Holds(d, g, []) && Loggable(d, g, blocks) && AheadOnly(d, v, g, blocks) && |c| == |blocks|
    requires forall i :: 0 <= i < |blocks| ==> HomeAddr(g, blocks[i]) in v && c[i] == v[HomeAddr(g, blocks[i])]
    ensures var d', v' := LogWritten(d, g, c, |blocks|), LogWritten(v, g, c, |blocks|);
            && HeadAddr(g) in d' && HeadAddr(g) in v' && v'[HeadAddr(g)] == d'[HeadAddr(g)] == d[HeadAddr(g)]
            && g.start !in blocks
            && var h := PutHead(d[HeadAddr(g)], blocks);
               var d1, v1 := Committed(d, g, blocks, c), v'[HeadAddr(g) := h];
               d1 == d'[HeadAddr(g) := h] && Holds(d1, g, blocks) && CacheHasLog(d1, v1, g, blocks)
  {
    hide LogWritten, NoDup, HeadIs, PutHead;
    var n := |blocks|;
    LogWrittenAt(d, g, c, n);
    LogWrittenAt(v, g, c, n);
    CommittedHolds(d, g, blocks, c);
    var d', v' := LogWritten(d, g, c, n), LogWritten(v, g, c, n);
    forall a | a in d && v'[a] != d'[a] ensures a.dev == g.dev && a.blockno in blocks {
      LogWrittenSame(d, v, g, c, n, a);
    }
    forall i | 0 <= i < n ensures blocks[i] != g.start && v'[HomeAddr(g, blocks[i])] == d'[LogAddr(g, i)] {
      assert !InLog(g, HomeAddr(g, blocks[i]));
    }
  }

  lemma {:induction false} LogWrittenSame(d: Disk, v: Disk, g: Geometry, c: seq<Block>, i: nat, a: Addr)
    requires i <= |c| && d.Keys == v.Keys && a in d
    requires a in LogWritten(d, g, c, i) && a in LogWritten(v, g, c, i)
    ensures d[a] == v[a] ==> LogWritten(d, g, c, i)[a] == LogWritten(v, g, c, i)[a]
    decreases i
  {
    if i > 0 && a != LogAddr(g, i - 1) {
      LogWrittenSame(d, v, g, c, i - 1, a);
    }
  }

  /** After install_trans: the disk has caught up with the cache. */
  lemma AtEnd(d1: Disk, v1: Disk, g: Geometry, blocks: seq<nat>)
    requires Holds(d1, g, blocks) && CacheHasLog(d1, v1, g, blocks)
    ensures var d2 := Replay(d1, g, blocks, |blocks|);
            && v1 == d2 && HeadAddr(g) in d2
               && Recovered(d1, g, blocks) == d2[HeadAddr(g) := PutHead(d2[HeadAddr(g)], [])]
            && Holds(Recovered(d1, g, blocks), g, [])
  {
    RecoveredIsClean(d1, g, blocks);
    var d2 := Replay(d1, g, blocks, |blocks|);
    forall a | a in d1 ensures v1[a] == d2[a] {
      ReplayAt(d1, g, blocks, |blocks|, a);
      if a.dev == g.dev && a.blockno in blocks {
        var j :| 0 <= j < |blocks| && blocks[j] == a.blockno;
        assert a == HomeAddr(g, blocks[j]);
      }
    }
  }
}
