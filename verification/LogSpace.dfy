/** Space reservation in kernel/log.c: begin_op, log_write, end_op and commit as steps of
    interleaved operations, each step being what happens while log.lock is held. */
module LogSpace {
  const MAXOPBLOCKS := 10
  const LOGSIZE := 30
  const NBUF := 30

  /** A process outside any operation, or inside one that has added `used` entries to the log. */
  datatype Op = Idle | Active(used: nat)

  /** Nothing, or what commit is doing: copying blocks and header to the log, or home again, `done` of them
      so far. */
  datatype Phase = Open | Logging | Installing(done: nat)

  /** `ops` is bookkeeping of the callers. `held` lists the blocks for which somebody outside the log has a buffer in
      hand: a reader needs no operation for that. The code keeps the other three fields. */
  datatype State = State(blocks: seq<nat>, outstanding: int, phase: Phase, ops: seq<Op>, held: seq<nat>)

  datatype Event =
    | Begin(pid: nat)
    | Write(pid: nat, blockno: nat)      // bread, log_write, brelse
    | End(pid: nat)
    | LogBlock                           // commit reads a block of the log into a buffer to overwrite it
    | Logged                             // write_head is through
    | Install                            // install_trans brings one block home and unpins it
    | Clear                              // write_head empties the log
    | Done                               // end_op clears log.committing
    | Hold(b: nat)                       // bread of a home block
    | Unhold(k: nat)                     // brelse

  /** Slept is one turn of the wait loop in begin_op; TooBig, OutsideOp, Recommit and NoBuffers are panics. */
  datatype Outcome = Went(next: State) | Slept | TooBig | OutsideOp | Recommit | NoBuffers

  predicate Panics(o: Outcome) { !o.Went? && !o.Slept? }

  predicate Committing(s: State) { !s.phase.Open? }

  /** The blocks that the log keeps in the cache. */
  function Pins(s: State): seq<nat> {
    if s.phase.Installing? && s.phase.done <= |s.blocks| then s.blocks[s.phase.done..] else s.blocks
  }

  /** How many buffers `held` takes besides those of `pins`. */
  function Extra(held: seq<nat>, pins: seq<nat>): nat {
    if held == [] then 0
    else
      var k := |held| - 1;
      Extra(held[..k], pins) + if held[k] in pins || held[k] in held[..k] then 0 else 1
  }

  /** Referenced buffers. */
  function Busy(s: State): nat {
    |Pins(s)| + Extra(s.held, Pins(s))
  }

  predicate Cached(s: State, b: nat) { b in Pins(s) || b in s.held }

  /** bget finds a buffer for block `b`. */
  predicate Room(s: State, b: nat) { Cached(s, b) || Busy(s) < NBUF }

  function Apply(s: State, e: Event, size: int): Outcome
    requires Enabled(s, e)
  {
    var n := |s.blocks|;
    match e
    case Begin(pid) =>
      if Committing(s) then Slept
      else if n + (s.outstanding + 1) * MAXOPBLOCKS > LOGSIZE then Slept
      else Went(s.(outstanding := s.outstanding + 1, ops := s.ops[pid := Active(0)]))
    case Write(pid, b) =>
      if !Room(s, b) then NoBuffers
      else if n >= LOGSIZE || n >= size - 1 then TooBig
      else if s.outstanding < 1 then OutsideOp
      else if b in s.blocks then Went(s)
      else Went(s.(blocks := s.blocks + [b], ops := s.ops[pid := Active(s.ops[pid].used + 1)]))
    case End(pid) =>
      if Committing(s) then Recommit
      else Went(s.(outstanding := s.outstanding - 1, phase := if s.outstanding - 1 == 0 then Logging else Open,
                   ops := s.ops[pid := Idle]))
    case LogBlock => if Busy(s) >= NBUF then NoBuffers else Went(s)
    case Logged => Went(s.(phase := Installing(0)))
    case Install => if Busy(s) >= NBUF then NoBuffers else Went(s.(phase := Installing(s.phase.done + 1)))
    case Clear => if Busy(s) >= NBUF then NoBuffers else Went(s.(phase := Installing(0), blocks := []))
    case Done => Went(s.(phase := Open))
    case Hold(b) => if !Room(s, b) then NoBuffers else Went(s.(held := s.held + [b]))
    case Unhold(k) => Went(s.(held := s.held[..k] + s.held[k + 1..]))
  }

  /** What callers do: an operation begins once, and then logs blocks until it ends, at most MAXOPBLOCKS of them new to
      the log. */
  predicate Enabled(s: State, e: Event) {
    match e
    case Begin(pid) => pid < |s.ops| && s.ops[pid].Idle?
    case Write(pid, b) => pid < |s.ops| && s.ops[pid].Active? && (s.ops[pid].used < MAXOPBLOCKS || b in s.blocks)
    case End(pid) => pid < |s.ops| && s.ops[pid].Active?
    case LogBlock => s.phase.Logging? && s.blocks != []
    case Logged => s.phase.Logging? && s.blocks != []
    case Install => s.phase.Installing? && s.phase.done < |s.blocks|
    case Clear => s.phase.Installing? && s.phase.done == |s.blocks| > 0
    case Done => Committing(s) && s.blocks == []
    case Hold(_) => true
    case Unhold(k) => k < |s.held|
  }

  /** A write that adds to the log, by an operation that may still do so. */
  predicate HasBudget(s: State, e: Event) {
    e.Write? && e.pid < |s.ops| && s.ops[e.pid].Active? && s.ops[e.pid].used < MAXOPBLOCKS
  }

  /** The steps of commit that need a buffer. */
  predicate Commits(e: Event) { e.LogBlock? || e.Install? || e.Clear? }

  function Init(nproc: nat): State {
    State([], 0, Open, seq(nproc, _ => Idle), [])
  }

  function Live(ops: seq<Op>): nat {
    if ops == [] then 0 else (if ops[0].Active? then 1 else 0) + Live(ops[1..])
  }

  /** The entries that open operations may still add. */
  function Unused(ops: seq<Op>): int {
    if ops == [] then 0 else (if ops[0].Active? then MAXOPBLOCKS - ops[0].used else 0) + Unused(ops[1..])
  }

  ghost predicate Inv(s: State) {
    && s.outstanding == Live(s.ops)
    && (forall p :: 0 <= p < |s.ops| && s.ops[p].Active? ==> s.ops[p].used <= MAXOPBLOCKS)
    && |s.blocks| + Unused(s.ops) <= LOGSIZE
    && (Committing(s) ==> s.outstanding == 0)
    && (s.phase.Installing? ==> s.phase.done <= |s.blocks|)
    && (forall i, j :: 0 <= i < j < |s.blocks| ==> s.blocks[i] != s.blocks[j])
  }

  /** A run in which every event was allowed and went through, with at most `holders` buffers in hand at a time. */
  ghost predicate IsRun(s: State, es: seq<Event>, s': State, size: int, holders: int)
    decreases |es|
  {
    if es == [] then s' == s
    else Allowed(s, es[0], holders) && var o := Apply(s, es[0], size);
         match o
         case Went(t) => IsRun(t, es[1..], s', size, holders)
         case Slept => IsRun(s, es[1..], s', size, holders)
         case _ => false
  }

  predicate Allowed(s: State, e: Event, holders: int) {
    Enabled(s, e) && (e.Hold? ==> |s.held| < holders)
  }

  /** State `s` is reached by some interleaving on a log of `size` blocks. */
  ghost predicate Reachable(s: State, size: int, holders: int) {
    exists nproc: nat, es :: IsRun(Init(nproc), es, s, size, holders)
  }

  lemma {:induction false} Changed(ops: seq<Op>, p: nat, o: Op)
    requires p < |ops|
    ensures Live(ops[p := o]) == Live(ops) - Live([ops[p]]) + Live([o])
    ensures Unused(ops[p := o]) == Unused(ops) - Unused([ops[p]]) + Unused([o])
  {
    if p > 0 {
      Changed(ops[1..], p - 1, o);
      assert ops[p := o][1..] == ops[1..][p - 1 := o];
    } else {
      assert ops[p := o][1..] == ops[1..];
    }
  }

  lemma {:induction false} UnusedBound(ops: seq<Op>)
    requires forall p :: 0 <= p < |ops| && ops[p].Active? ==> ops[p].used <= MAXOPBLOCKS
    ensures 0 <= Unused(ops) <= Live(ops) * MAXOPBLOCKS
  {
    if ops != [] {
      UnusedBound(ops[1..]);
    }
  }

  lemma {:induction false} Share(ops: seq<Op>, p: nat)
    requires p < |ops| && ops[p].Active?
    requires forall q :: 0 <= q < |ops| && ops[q].Active? ==> ops[q].used <= MAXOPBLOCKS
    ensures Live(ops) >= 1 && Unused(ops) >= MAXOPBLOCKS - ops[p].used
  {
    UnusedBound(ops[1..]);
    if p > 0 {
      Share(ops[1..], p - 1);
    }
  }

  lemma {:induction false} Nobody(n: nat)
    ensures Live(seq(n, _ => Idle)) == 0 && Unused(seq(n, _ => Idle)) == 0
  {
    if n > 0 {
      Nobody(n - 1);
      assert seq(n, _ => Idle)[1..] == seq(n - 1, _ => Idle);
    }
  }

  lemma {:induction false} ExtraBound(held: seq<nat>, pins: seq<nat>)
    ensures Extra(held, pins) <= |held|
    decreases |held|
  {
    if held != [] {
      ExtraBound(held[..|held| - 1], pins);
    }
  }

  /** The entries a log of `size` blocks can hold. */
  function Capacity(size: int): int {
    if size - 1 < LOGSIZE then size - 1 else LOGSIZE
  }

  /** Every step keeps the reservation. */
  lemma StepKeeps(s: State, e: Event, size: int)
    requires Inv(s) && Enabled(s, e)
    ensures Apply(s, e, size).Went? ==> Inv(Apply(s, e, size).next)
    ensures !Apply(s, e, size).OutsideOp? && !Apply(s, e, size).Recommit?
    ensures e.Write? || e.End? ==> !Committing(s)
    ensures HasBudget(s, e) ==> |s.blocks| < LOGSIZE
  {
    hide Room, Busy, Live, Unused, Pins;
    match e
    case Begin(pid) =>
      if Apply(s, e, size).Went? {
        BeginKeeps(s, pid);
      }
    case Write(pid, b) => WriteKeeps(s, pid, b);
    case End(pid) => EndKeeps(s, pid);
    case _ =>
  }

  lemma Single(o: Op)
    ensures Live([o]) == (if o.Active? then 1 else 0) && Unused([o]) == (if o.Active? then MAXOPBLOCKS - o.used else 0)
  {}

  lemma BeginKeeps(s: State, pid: nat)
    requires Inv(s) && pid < |s.ops| && s.ops[pid].Idle? && !Committing(s)
    requires |s.blocks| + (s.outstanding + 1) * MAXOPBLOCKS <= LOGSIZE
    ensures Inv(s.(outstanding := s.outstanding + 1, ops := s.ops[pid := Active(0)]))
  {
    hide Live, Unused;
    UnusedBound(s.ops);
    Changed(s.ops, pid, Active(0));
    Single(s.ops[pid]);
    Single(Active(0));
  }

  lemma WriteKeeps(s: State, pid: nat, b: nat)
    requires Inv(s) && pid < |s.ops| && s.ops[pid].Active?
    ensures !Committing(s) && s.outstanding >= 1 && (s.ops[pid].used < MAXOPBLOCKS ==> |s.blocks| < LOGSIZE)
    ensures s.ops[pid].used < MAXOPBLOCKS && b !in s.blocks ==>
              Inv(s.(blocks := s.blocks + [b], ops := s.ops[pid := Active(s.ops[pid].used + 1)]))
  {
    hide Live, Unused;
    var o := Active(s.ops[pid].used + 1);
    Share(s.ops, pid);
    Changed(s.ops, pid, o);
    Single(s.ops[pid]);
    Single(o);
  }

  lemma EndKeeps(s: State, pid: nat)
    requires Inv(s) && pid < |s.ops| && s.ops[pid].Active?
    ensures !Committing(s)
    ensures Inv(s.(outstanding := s.outstanding - 1, phase := if s.outstanding - 1 == 0 then Logging else Open,
                   ops := s.ops[pid := Idle]))
  {
    hide Live, Unused;
    Share(s.ops, pid);
    Changed(s.ops, pid, Idle);
    Single(s.ops[pid]);
    Single(Idle);
  }

  lemma {:induction false} RunKeeps(s: State, es: seq<Event>, s': State, size: int, holders: nat)
    requires size >= 1 && Inv(s) && |s.blocks| <= Capacity(size) && |s.held| <= holders
             && IsRun(s, es, s', size, holders)
    ensures Inv(s') && |s'.blocks| <= Capacity(size) && |s'.held| <= holders
    decreases |es|
  {
    hide Inv, Room, Busy;
    if es != [] {
      StepKeeps(s, es[0], size);
      var o := Apply(s, es[0], size);
      RunKeeps(if o.Went? then o.next else s, es[1..], s', size, holders);
    }
  }

  lemma ReachableKeeps(s: State, size: int, holders: nat)
    requires size >= 1 && Reachable(s, size, holders)
    ensures Inv(s) && |s.blocks| <= Capacity(size) && |s.held| <= holders
  {
    var nproc: nat, es :| IsRun(Init(nproc), es, s, size, holders);
    Nobody(nproc);
    RunKeeps(Init(nproc), es, s, size, holders);
  }

  /** In every interleaving the log entries are distinct and fit in LOGSIZE with the unused budgets, nobody writes or
      ends during a commit, and neither log_write outside an operation nor a second commit is ever met. */
  lemma Reservation(s: State, size: int, holders: nat)
    requires size >= 1 && Reachable(s, size, holders)
    ensures |s.blocks| + Unused(s.ops) <= LOGSIZE && |s.blocks| <= Capacity(size)
    ensures forall i, j :: 0 <= i < j < |s.blocks| ==> s.blocks[i] != s.blocks[j]
    ensures forall pid :: 0 <= pid < |s.ops| && s.ops[pid].Active? ==> !Committing(s)
    ensures forall e :: Enabled(s, e) ==> !Apply(s, e, size).OutsideOp? && !Apply(s, e, size).Recommit?
  {
    ReachableKeeps(s, size, holders);
    forall pid | 0 <= pid < |s.ops| && s.ops[pid].Active? ensures !Committing(s) {
      Share(s.ops, pid);
    }
    forall e | Enabled(s, e) ensures !Apply(s, e, size).OutsideOp? && !Apply(s, e, size).Recommit? {
      StepKeeps(s, e, size);
    }
  }

  /** log_write panics exactly on a full log, whether or not the block is in it: the test comes before the search. */
  lemma TooBigExactly(s: State, e: Event, size: int, holders: nat)
    requires size >= 1 && Reachable(s, size, holders) && Enabled(s, e)
    ensures Apply(s, e, size).TooBig? <==> e.Write? && Room(s, e.blockno) && |s.blocks| == Capacity(size)
  {
    ReachableKeeps(s, size, holders);
  }

  /** Three operations open, the first `j` blocks logged by them in turn. */
  function Filling(j: nat): State
    requires j <= LOGSIZE
  {
    State(seq(j, i => i), 3, Open, [Active(Part(j, 0)), Active(Part(j, 1)), Active(Part(j, 2))], [])
  }

  function Part(j: nat, p: nat): nat {
    if j <= p * MAXOPBLOCKS then 0 else if j >= (p + 1) * MAXOPBLOCKS then MAXOPBLOCKS else j - p * MAXOPBLOCKS
  }

  lemma {:induction false} RunJoin(s: State, es: seq<Event>, t: State, fs: seq<Event>, u: State, size: int,
      holders: int)
    requires IsRun(s, es, t, size, holders) && IsRun(t, fs, u, size, holders)
    ensures IsRun(s, es + fs, u, size, holders)
    decreases |es|
  {
    hide Busy, Room;
    if es == [] {
      assert es + fs == fs;
    } else {
      var o := Apply(s, es[0], size);
      RunJoin(if o.Went? then o.next else s, es[1..], t, fs, u, size, holders);
      assert (es + fs)[1..] == es[1..] + fs;
    }
  }

  lemma OneStep(s: State, es: seq<Event>, t: State, e: Event, size: int, holders: int)
    requires IsRun(s, es, t, size, holders) && Allowed(t, e, holders) && Apply(t, e, size).Went?
    ensures IsRun(s, es + [e], Apply(t, e, size).next, size, holders)
  {
    hide Busy, Room;
    var u := Apply(t, e, size).next;
    assert [e][1..] == [];
    assert IsRun(t, [e], u, size, holders);
    RunJoin(s, es, t, [e], u, size, holders);
  }

  lemma BeginAll(size: int, holders: int) returns (es: seq<Event>)
    ensures IsRun(Init(3), es, Filling(0), size, holders)
  {
    hide Busy, Room;
    var s := Init(3);
    es := [];
    for p: nat := 0 to 3
      invariant IsRun(Init(3), es, s, size, holders)
      invariant s == State([], p, Open, seq(3, q => if q < p then Active(0) else Idle), [])
    {
      OneStep(Init(3), es, s, Begin(p), size, holders);
      s := Apply(s, Begin(p), size).next;
      es := es + [Begin(p)];
    }
    assert s == Filling(0);
  }

  lemma {:induction false} FillingReachable(j: nat, size: int, holders: int) returns (es: seq<Event>)
    requires j <= LOGSIZE && j <= size - 1
    ensures IsRun(Init(3), es, Filling(j), size, holders)
  {
    if j == 0 {
      es := BeginAll(size, holders);
    } else {
      es := FillingReachable(j - 1, size, holders);
      var p := (j - 1) / MAXOPBLOCKS;
      assert Apply(Filling(j - 1), Write(p, j - 1), size).next == Filling(j) by {
        assert Filling(j).blocks == Filling(j - 1).blocks + [j - 1];
      }
      OneStep(Init(3), es, Filling(j - 1), Write(p, j - 1), size, holders);
      es := es + [Write(p, j - 1)];
    }
  }

  /** The same when the operations have ended and `h` other blocks are in use. */
  function Holding(j: nat, h: nat): State {
    State(seq(j, i => i), 0, Logging, [Idle, Idle, Idle], seq(h, i => LOGSIZE + i))
  }

  lemma EndAll(j: nat, size: int, holders: int) returns (es: seq<Event>)
    requires j <= LOGSIZE && j <= size - 1
    ensures IsRun(Init(3), es, Holding(j, 0), size, holders)
  {
    hide Busy, Room;
    es := FillingReachable(j, size, holders);
    var s := Filling(j);
    for p: nat := 0 to 3
      invariant IsRun(Init(3), es, s, size, holders) && |s.ops| == 3
      invariant s.blocks == Filling(j).blocks && s.outstanding == 3 - p && s.held == []
      invariant s.phase == if p == 3 then Logging else Open
      invariant forall q :: 0 <= q < 3 ==> if q < p then s.ops[q] == Idle else s.ops[q].Active?
    {
      OneStep(Init(3), es, s, End(p), size, holders);
      s := Apply(s, End(p), size).next;
      es := es + [End(p)];
    }
    assert s == Holding(j, 0);
  }

  lemma {:induction false} HoldingReachable(j: nat, h: nat, size: int, holders: int) returns (es: seq<Event>)
    requires j <= LOGSIZE && j <= size - 1 && h <= holders && j + h <= NBUF
    ensures IsRun(Init(3), es, Holding(j, h), size, holders)
    decreases h
  {
    if h == 0 {
      es := EndAll(j, size, holders);
    } else {
      es := HoldingReachable(j, h - 1, size, holders);
      var e := Hold(LOGSIZE + h - 1);
      HoldingBusy(j, h - 1);
      assert Holding(j, h).held == Holding(j, h - 1).held + [LOGSIZE + h - 1];
      OneStep(Init(3), es, Holding(j, h - 1), e, size, holders);
      es := es + [e];
    }
  }

  lemma {:induction false} HoldingBusy(j: nat, h: nat)
    requires j <= LOGSIZE
    ensures Busy(Holding(j, h)) == j + h
    decreases h
  {
    if h > 0 {
      HoldingBusy(j, h - 1);
      assert Holding(j, h).held[..h - 1] == Holding(j, h - 1).held;
    }
  }

  /** Operations with budget left are safe from "too big a transaction" exactly when the log has more than LOGSIZE
      blocks. The image that mkfs builds has exactly LOGSIZE. */
  lemma LogWriteSafe(size: int, holders: nat)
    requires size >= 1
    ensures (forall s, e :: Reachable(s, size, holders) && Enabled(s, e) && HasBudget(s, e) ==>
                              !Apply(s, e, size).TooBig?)
            <==> size > LOGSIZE
  {
    if size > LOGSIZE {
      forall s, e | Reachable(s, size, holders) && Enabled(s, e) && HasBudget(s, e) ensures !Apply(s, e, size).TooBig? {
        ReachableKeeps(s, size, holders);
        StepKeeps(s, e, size);
      }
    } else {
      var es := FillingReachable(size - 1, size, holders);
      var s, e := Filling(size - 1), Write((size - 1) / MAXOPBLOCKS, size - 1);
      assert Reachable(s, size, holders) && Enabled(s, e) && HasBudget(s, e) && Apply(s, e, size).TooBig?;
    }
  }

  /** Logging a block once more is never safe: it costs no entry, but panics if the log is full. */
  lemma RelogSafe(size: int, holders: nat)
    requires size >= 1
    ensures (forall s, e :: Reachable(s, size, holders) && Enabled(s, e) && e.Write? && e.blockno in s.blocks ==>
               !Apply(s, e, size).TooBig?) <==> size == 1
  {
    if size == 1 {
      forall s, e | Reachable(s, size, holders) && Enabled(s, e) && e.Write? ensures e.blockno !in s.blocks {
        ReachableKeeps(s, size, holders);
      }
    } else {
      var j := Capacity(size);
      var es := FillingReachable(j, size, holders);
      var s, e := Filling(j), Write(0, 0);
      assert s.blocks[0] == 0;
      assert Reachable(s, size, holders) && Enabled(s, e) && e.blockno in s.blocks && Apply(s, e, size).TooBig?;
    }
  }

  /** Commit finds its buffers in every interleaving exactly when a full log and all holders leave one over,
      or the log has no room at all. */
  lemma CommitSafe(size: int, holders: nat)
    requires size >= 1
    ensures (forall s, e :: Reachable(s, size, holders) && Enabled(s, e) && Commits(e) ==>
                              !Apply(s, e, size).NoBuffers?)
            <==> size == 1 || Capacity(size) + holders < NBUF
  {
    if size == 1 {
      forall s, e | Reachable(s, size, holders) && Enabled(s, e) && Commits(e) ensures false {
        ReachableKeeps(s, size, holders);
      }
    } else if Capacity(size) + holders < NBUF {
      forall s, e | Reachable(s, size, holders) && Enabled(s, e) && Commits(e) ensures !Apply(s, e, size).NoBuffers? {
        BusyBound(s, size, holders);
      }
    } else {
      CommitPanics(size, holders);
    }
  }

  lemma BusyBound(s: State, size: int, holders: nat)
    requires size >= 1 && Reachable(s, size, holders)
    ensures Busy(s) <= Capacity(size) + holders
  {
    ReachableKeeps(s, size, holders);
    ExtraBound(s.held, Pins(s));
  }

  lemma CommitPanics(size: int, holders: nat)
    requires size >= 2 && Capacity(size) + holders >= NBUF
    ensures exists s :: Reachable(s, size, holders) && Enabled(s, LogBlock) && Apply(s, LogBlock, size).NoBuffers?
  {
    var j := Capacity(size);
    var es := HoldingReachable(j, NBUF - j, size, holders);
    HoldingBusy(j, NBUF - j);
    assert Reachable(Holding(j, NBUF - j), size, holders);
    assert |Holding(j, NBUF - j).blocks| == j;
    assert Enabled(Holding(j, NBUF - j), LogBlock) && Apply(Holding(j, NBUF - j), LogBlock, size).NoBuffers?;
  }

  /** With the log that mkfs builds and a single reader: 29 logged blocks and the block in the reader's hand are all
      buffers, and commit panics. Without the reader it does not. */
  lemma OneReader()
    ensures Reachable(Holding(29, 1), LOGSIZE, 1) && Enabled(Holding(29, 1), LogBlock)
    ensures Apply(Holding(29, 1), LogBlock, LOGSIZE).NoBuffers?
    ensures Reachable(Holding(29, 0), LOGSIZE, 0) && Apply(Holding(29, 0), LogBlock, LOGSIZE).Went?
  {
    var es := HoldingReachable(29, 1, LOGSIZE, 1);
    var fs := HoldingReachable(29, 0, LOGSIZE, 0);
    HoldingBusy(29, 1);
    HoldingBusy(29, 0);
    assert |Holding(29, 1).blocks| == 29 && |Holding(29, 0).blocks| == 29;
  }

  /** No log size keeps every interleaving free of panics: up to LOGSIZE blocks a write with budget left overflows the
      log, above that commit finds no buffer, even if nobody else has one in hand. */
  lemma NoSafeSize(size: int, holders: nat)
    requires size >= 1
    ensures exists s, e :: Reachable(s, size, holders) && Enabled(s, e) && Panics(Apply(s, e, size))
                           && (HasBudget(s, e) || Commits(e))
  {
    if size > LOGSIZE {
      CommitPanics(size, holders);
      var s :| Reachable(s, size, holders) && Enabled(s, LogBlock) && Apply(s, LogBlock, size).NoBuffers?;
      assert Commits(LogBlock) && Panics(Apply(s, LogBlock, size));
    } else {
      LogWriteSafe(size, holders);
      var s, e :| Reachable(s, size, holders) && Enabled(s, e) && HasBudget(s, e) && Apply(s, e, size).TooBig?;
      assert Panics(Apply(s, e, size));
    }
  }
}
