/** Sleep, wakeup, the scheduler and sleep locks (kernel/proc.c, kernel/sleeplock.c) as one step system: CPUs
    interleave freely, every lock operation and every access under a lock is a step of its own. A lock may guard any
    number of channels, and while it is held its holder may change their conditions and call wakeup in any order. */
module Sched {

  /** What the condition of a channel says. That of a sleep lock is that it is not locked. */
  datatype Kind = SleepLock | Plain

  /** Where a process is in the kernel, named by what it does next. `k` is a lock, `l` a channel. While a process holds
      a lock, `owed` are the channels whose condition it has made true without calling wakeup since it took the lock,
      `woke` those on which it has called it. */
  datatype Pc =
    | Out                                                              // outside; holds no spin lock
    | Want(k: nat)                                                     // acquire(lk)
    | In(k: nat, owed: set<nat>, woke: set<nat>)                       // anything, holding lk
    | Scan(k: nat, l: nat, i: nat, owed: set<nat>, woke: set<nat>)     // wakeup: acquire the lock of process i
    | Poke(k: nat, l: nat, i: nat, owed: set<nat>, woke: set<nat>)     // wakeup: test process i, release its lock
    | Doze(k: nat, l: nat)                                             // sleep: acquire(&p->lock)
    | Drop(k: nat, l: nat)                                             // sleep: release(lk)
    | Mark(k: nat, l: nat)                                             // sleep: p->chan = chan; p->state = SLEEPING
    | Going(k: nat, l: nat)                                            // sched: swtch to the scheduler
    | Woken(k: nat, l: nat)                                            // back: p->chan = 0; release(&p->lock)
    | WantKill(i: nat)                                                 // kill: acquire the lock of process i
    | Killing(i: nat)                                                  // kill: wake process i, release its lock
    | WantYield                                                        // yield: acquire(&p->lock)
    | Yield                                                            // yield: p->state = RUNNABLE
    | YieldGoing                                                       // sched: swtch to the scheduler
    | YieldBack                                                        // back from sched, or forkret: release(&p->lock)

  /** What a process may do while it holds a lock. */
  datatype Act =
    | Assign(l: nat, v: bool)              // change the condition of a channel
    | Wakeup(l: nat)
    | Sleep(l: nat)
    | Leave                                // release(lk)

  datatype ProcState = RUNNABLE | RUNNING | SLEEPING

  /** `on` is the CPU that executes the process, -1 if none; `held` are the sleep locks it holds. */
  datatype Proc = Proc(state: ProcState, chan: int, pc: Pc, on: int, held: set<nat>)

  /** The scheduler of a CPU: between processes, holding p->lock before the test, running p, or just back from p. */
  datatype Cpu = Idle | Holds(p: nat) | Runs(p: nat) | Returned(p: nat)

  /** Locks hold the number of the CPU that has them, -1 if free. Channel `l` has the condition `cond[l]`, guarded by
      lock `lockOf[l]`; `holder` is the pid field of a sleep lock. */
  datatype State = State(
    ps: seq<Proc>, cpus: seq<Cpu>, plock: seq<int>, lk: seq<int>,
    cond: seq<bool>, holder: seq<int>, kind: seq<Kind>, lockOf: seq<nat>)

  datatype Event =
    | Pick(c: nat, p: nat)                 // scheduler: acquire(&p->lock)
    | Start(c: nat)                        // scheduler: run p if RUNNABLE, else release(&p->lock)
    | Finish(c: nat)                       // scheduler: c->proc = 0; release(&p->lock)
    | Choose(c: nat, to: Pc)               // a process outside calls one of the functions above
    | Do(c: nat, act: Act)                 // a process that holds a lock uses it
    | Step(c: nat)                         // the process on CPU c takes its next step

  predicate Shaped(s: State) {
    && |s.plock| == |s.ps| && |s.lockOf| == |s.cond| == |s.holder| == |s.kind|
    && (forall l :: 0 <= l < |s.lockOf| ==> s.lockOf[l] < |s.lk|)
    && (forall c :: 0 <= c < |s.cpus| && !s.cpus[c].Idle? ==> s.cpus[c].p < |s.ps|)
    && (forall p :: 0 <= p < |s.ps| ==> PcOk(s, s.ps[p].pc))
  }

  predicate Guards(s: State, k: nat, l: nat) { l < |s.lockOf| && s.lockOf[l] == k }

  predicate PcOk(s: State, pc: Pc) {
    match pc
    case Want(k) => k < |s.lk|
    case In(k, owed, woke) => k < |s.lk| && forall x :: x in owed + woke ==> Guards(s, k, x)
    case Scan(k, l, i, owed, woke) =>
      k < |s.lk| && Guards(s, k, l) && i <= |s.ps| && forall x :: x in owed + woke ==> Guards(s, k, x)
    case Poke(k, l, i, owed, woke) =>
      k < |s.lk| && Guards(s, k, l) && i < |s.ps| && forall x :: x in owed + woke ==> Guards(s, k, x)
    case Doze(k, l) => k < |s.lk| && Guards(s, k, l)
    case Drop(k, l) => k < |s.lk| && Guards(s, k, l)
    case Mark(k, l) => k < |s.lk| && Guards(s, k, l)
    case Going(k, l) => k < |s.lk| && Guards(s, k, l)
    case Woken(k, l) => k < |s.lk| && Guards(s, k, l)
    case WantKill(i) => i < |s.ps|
    case Killing(i) => i < |s.ps|
    case _ => true
  }

  predicate MayCall(s: State, to: Pc) {
    match to
    case Want(k) => k < |s.lk|
    case WantKill(i) => i < |s.ps|
    case WantYield => true
    case _ => false
  }

  /** The rules for the holder of lock `k`: it sleeps only on a false condition; it gives the lock up, by sleep or
      release, only when it owes no wakeup; a sleep lock is taken when free and released by who has it. */
  predicate MayDo(s: State, p: Proc, act: Act)
    requires Shaped(s) && p.pc.In?
  {
    match act
    case Assign(l, v) => Guards(s, p.pc.k, l) && (s.kind[l].SleepLock? ==> if v then l in p.held else s.cond[l])
    case Wakeup(l) => Guards(s, p.pc.k, l)
    case Sleep(l) => Guards(s, p.pc.k, l) && !s.cond[l] && p.pc.owed == {}
    case Leave => p.pc.owed == {}
  }

  predicate Enabled(s: State, e: Event)
    requires Shaped(s)
  {
    && e.c < |s.cpus|
    && match e
       case Pick(c, p) => s.cpus[c].Idle? && p < |s.ps| && s.plock[p] == -1
       case Start(c) => s.cpus[c].Holds?
       case Finish(c) => s.cpus[c].Returned?
       case Choose(c, to) => s.cpus[c].Runs? && s.ps[s.cpus[c].p].pc.Out? && MayCall(s, to)
       case Do(c, act) => s.cpus[c].Runs? && s.ps[s.cpus[c].p].pc.In? && MayDo(s, s.ps[s.cpus[c].p], act)
       case Step(c) =>
         s.cpus[c].Runs? &&
         var p := s.cpus[c].p;
         match s.ps[p].pc
         case Out => false
         case In(_, _, _) => false
         case Want(k) => s.lk[k] == -1
         case Doze(_, _) => s.plock[p] == -1
         case WantYield => s.plock[p] == -1
         case Scan(_, _, i, _, _) => i == |s.ps| || i == p || s.plock[i] == -1
         case WantKill(i) => s.plock[i] == -1
         case _ => true
  }

  /** What one step of process `p` does: its own new record, and whatever else it touches. */
  datatype Effect = Effect(
    me: Proc,
    nameonly plock: int := -1, nameonly plockTo: int := -1,    // the process lock it takes or gives back
    nameonly lk: int := -1, nameonly lkTo: int := -1,          // the other lock it takes or gives back
    nameonly wakes: int := -1, nameonly any: bool := false,    // whom it wakes if that sleeps on `chan`, or anywhere
    nameonly chan: int := -1,
    nameonly cond: int := -1, nameonly condTo: bool := false,  // the condition it changes
    nameonly switches: bool := false)                          // swtch to the scheduler

  function StepEffect(s: State, c: nat): Effect
    requires Shaped(s) && Enabled(s, Step(c))
  {
    var p := s.cpus[c].p;
    var me := s.ps[p];
    match me.pc
    case Want(k) => Effect(me.(pc := In(k, {}, {})), lk := k, lkTo := c)
    case Scan(k, l, i, owed, woke) =>
      if i == |s.ps| then Effect(me.(pc := In(k, owed - {l}, woke + {l})))
      else if i == p then Effect(me.(pc := Scan(k, l, i + 1, owed, woke)))
      else Effect(me.(pc := Poke(k, l, i, owed, woke)), plock := i, plockTo := c)
    case Poke(k, l, i, owed, woke) =>
      Effect(me.(pc := Scan(k, l, i + 1, owed, woke)), wakes := i, chan := l, plock := i, plockTo := -1)
    case Doze(k, l) => Effect(me.(pc := Drop(k, l)), plock := p, plockTo := c)
    case Drop(k, l) => Effect(me.(pc := Mark(k, l)), lk := k, lkTo := -1)
    case Mark(k, l) => Effect(me.(pc := Going(k, l), state := SLEEPING, chan := l))
    case Going(k, l) => Effect(me.(pc := Woken(k, l), on := -1), switches := true)
    case Woken(k, l) => Effect(me.(pc := Want(k), chan := -1), plock := p, plockTo := -1)
    case WantKill(i) => Effect(me.(pc := Killing(i)), plock := i, plockTo := c)
    case Killing(i) => Effect(me.(pc := Out), wakes := i, any := true, plock := i, plockTo := -1)
    case WantYield => Effect(me.(pc := Yield), plock := p, plockTo := c)
    case Yield => Effect(me.(pc := YieldGoing, state := RUNNABLE))
    case YieldGoing => Effect(me.(pc := YieldBack, on := -1), switches := true)
    case YieldBack => Effect(me.(pc := Out), plock := p, plockTo := -1)
  }

  function ActEffect(s: State, me: Proc, act: Act): Effect
    requires Shaped(s) && me.pc.In? && MayDo(s, me, act)
  {
    var In(k, owed, woke) := me.pc;
    match act
    case Assign(l, v) =>
      var held := if s.kind[l].Plain? then me.held else if v then me.held - {l} else me.held + {l};
      Effect(me.(pc := In(k, if v && l !in woke then owed + {l} else owed, woke), held := held), cond := l, condTo := v)
    case Wakeup(l) => Effect(me.(pc := Scan(k, l, 0, owed, woke)))
    case Sleep(l) => Effect(me.(pc := Doze(k, l)))
    case Leave => Effect(me.(pc := Out), lk := k, lkTo := -1)
  }

  predicate Acts(e: Event) { e.Choose? || e.Do? || e.Step? }

  function EffectOf(s: State, e: Event): Effect
    requires Shaped(s) && Enabled(s, e) && Acts(e)
  {
    var me := s.ps[s.cpus[e.c].p];
    match e
    case Choose(_, to) => Effect(me.(pc := to))
    case Do(_, act) => ActEffect(s, me, act)
    case Step(c) => StepEffect(s, c)
  }

  /** `if(p->state == SLEEPING && p->chan == chan) p->state = RUNNABLE` */
  function Wake(p: Proc, any: bool, chan: int): Proc {
    if p.state.SLEEPING? && (any || p.chan == chan) then p.(state := RUNNABLE) else p
  }

  predicate Fits(s: State, c: nat, e: Effect)
    requires Shaped(s)
  {
    && c < |s.cpus| && s.cpus[c].Runs? && PcOk(s, e.me.pc)
    && -1 <= e.plock < |s.ps| && -1 <= e.lk < |s.lk| && -1 <= e.cond < |s.cond| && -1 <= e.wakes < |s.ps|
  }

  function Perform(s: State, c: nat, e: Effect): State
    requires Shaped(s) && Fits(s, c, e)
  {
    var p := s.cpus[c].p;
    var ps := if e.wakes == -1 || e.wakes == p then s.ps else s.ps[e.wakes := Wake(s.ps[e.wakes], e.any, e.chan)];
    s.(ps := ps[p := e.me],
       plock := if e.plock == -1 then s.plock else s.plock[e.plock := e.plockTo],
       lk := if e.lk == -1 then s.lk else s.lk[e.lk := e.lkTo],
       cond := if e.cond == -1 then s.cond else s.cond[e.cond := e.condTo],
       holder := if e.cond == -1 then s.holder else s.holder[e.cond := if e.condTo then -1 else p],
       cpus := if e.switches then s.cpus[c := Returned(p)] else s.cpus)
  }

  lemma EffectFits(s: State, e: Event)
    requires Shaped(s) && Enabled(s, e) && Acts(e)
    ensures Fits(s, e.c, EffectOf(s, e))
  {
    assert PcOk(s, s.ps[s.cpus[e.c].p].pc);
  }

  function Apply(s: State, e: Event): State
    requires Shaped(s) && Enabled(s, e)
  {
    match e
    case Pick(c, p) => s.(cpus := s.cpus[c := Holds(p)], plock := s.plock[p := c])
    case Start(c) =>
      var p := s.cpus[c].p;
      if s.ps[p].state.RUNNABLE?
        then s.(ps := s.ps[p := s.ps[p].(state := RUNNING, on := c)], cpus := s.cpus[c := Runs(p)])
      else s.(cpus := s.cpus[c := Idle], plock := s.plock[p := -1])
    case Finish(c) => s.(cpus := s.cpus[c := Idle], plock := s.plock[s.cpus[c].p := -1])
    case _ => EffectFits(s, e); Perform(s, e.c, EffectOf(s, e))
  }

  /** The channels and their locks at boot: no sleep lock is held. */
  predicate Setup(nlk: nat, cond: seq<bool>, kind: seq<Kind>, lockOf: seq<nat>) {
    && |cond| == |kind| == |lockOf|
    && forall l :: 0 <= l < |cond| ==> lockOf[l] < nlk && (kind[l].SleepLock? ==> cond[l])
  }

  /** Boot: every process runnable and not yet run, every CPU in its scheduler. */
  function Init(nproc: nat, ncpu: nat, nlk: nat, cond: seq<bool>, kind: seq<Kind>, lockOf: seq<nat>): State {
    State(seq(nproc, _ => Proc(RUNNABLE, -1, YieldBack, -1, {})), seq(ncpu, _ => Idle), seq(nproc, _ => -1),
          seq(nlk, _ => -1), cond, seq(|cond|, _ => -1), kind, lockOf)
  }

  /** Process `q`, being at `pc`, holds the lock of process `x`. */
  predicate PcHolds(q: nat, pc: Pc, x: nat) {
    match pc
    case Drop(_, _) => x == q
    case Mark(_, _) => x == q
    case Going(_, _) => x == q
    case Woken(_, _) => x == q
    case Yield => x == q
    case YieldGoing => x == q
    case YieldBack => x == q
    case Poke(_, _, i, _, _) => x == i
    case Killing(i) => x == i
    case _ => false
  }

  /** The other lock held at `pc`, -1 if none. */
  function PcLock(pc: Pc): int {
    match pc
    case In(k, _, _) => k
    case Scan(k, _, _, _, _) => k
    case Poke(k, _, _, _, _) => k
    case Doze(k, _) => k
    case Drop(k, _) => k
    case _ => -1
  }

  predicate CpuHolds(s: State, c: nat, x: nat)
    requires Shaped(s) && c < |s.cpus|
  {
    match s.cpus[c]
    case Idle => false
    case Holds(q) => q == x
    case Returned(q) => q == x
    case Runs(q) => PcHolds(q, s.ps[q].pc, x)
  }

  function CpuLock(s: State, c: nat): int
    requires Shaped(s) && c < |s.cpus|
  {
    if s.cpus[c].Runs? then PcLock(s.ps[s.cpus[c].p].pc) else -1
  }

  /** The spin locks are exactly where the program counters say; in particular each has one holder. */
  ghost predicate LockInv(s: State)
    requires Shaped(s)
  {
    && (forall x :: 0 <= x < |s.ps| ==> -1 <= s.plock[x] < |s.cpus|)
    && (forall l :: 0 <= l < |s.lk| ==> -1 <= s.lk[l] < |s.cpus|)
    && (forall c, x :: 0 <= c < |s.cpus| && 0 <= x < |s.ps| ==> (s.plock[x] == c <==> CpuHolds(s, c, x)))
    && (forall c, l :: 0 <= c < |s.cpus| && 0 <= l < |s.lk| ==> (s.lk[l] == c <==> CpuLock(s, c) == l))
  }

  /** `on` says which CPU runs a process, so no process is on two. */
  ghost predicate RunInv(s: State)
    requires Shaped(s)
  {
    && (forall c, p :: 0 <= c < |s.cpus| && 0 <= p < |s.ps| ==> (s.ps[p].on == c <==> s.cpus[c] == Runs(p)))
    && (forall p :: 0 <= p < |s.ps| ==> ProcOk(s.ps[p], |s.cpus|))
  }

  predicate ProcOk(p: Proc, ncpu: nat) {
    && -1 <= p.on < ncpu
    && (p.state == RUNNING <==> p.on != -1 && !p.pc.Going? && !p.pc.YieldGoing?)
    && (p.on == -1 ==> p.pc.Woken? || p.pc.YieldBack?)
    && (p.state == SLEEPING ==> (p.pc.Going? || p.pc.Woken?) && p.chan == p.pc.l)
    && (p.pc.YieldGoing? ==> p.state == RUNNABLE)
    && (p.pc.Going? ==> p.state == SLEEPING)
  }

  /** `p` has decided to sleep on `l` and will need a wakeup. */
  predicate Waiting(p: Proc, l: nat) {
    (p.state == SLEEPING && p.chan == l) || (p.pc.Mark? && p.pc.l == l)
  }

  function Owed(pc: Pc): set<nat> { if pc.In? || pc.Scan? || pc.Poke? then pc.owed else {} }

  function WokeSet(pc: Pc): set<nat> { if pc.In? || pc.Scan? || pc.Poke? then pc.woke else {} }

  /** A wakeup on `l` is under way and has dealt with process `p`. */
  predicate Passed(pc: Pc, l: nat, p: int) {
    (pc.Scan? || pc.Poke?) && pc.l == l && p < pc.i
  }

  /** Whoever has called wakeup on `l` since taking the lock knows that process `p` does not wait there. */
  predicate Clear(pc: Pc, l: nat, p: int) {
    l in WokeSet(pc) || Passed(pc, l, p)
  }

  ghost predicate SomeOwes(s: State, l: nat) {
    exists q :: 0 <= q < |s.ps| && l in Owed(s.ps[q].pc)
  }

  /** No lost wakeup: while somebody waits for a condition that holds, the wakeup is owed; and nobody waits where one
      has been. */
  ghost predicate WaitInv(s: State)
    requires Shaped(s)
  {
    && (forall p, l :: 0 <= p < |s.ps| && 0 <= l < |s.cond| && Waiting(s.ps[p], l) && s.cond[l] ==> SomeOwes(s, l))
    && (forall p, q, l: nat :: 0 <= p < |s.ps| && 0 <= q < |s.ps| && Clear(s.ps[q].pc, l, p) ==> !Waiting(s.ps[p], l))
    && (forall p :: 0 <= p < |s.ps| && (s.ps[p].pc.Doze? || s.ps[p].pc.Drop?) ==> !s.cond[s.ps[p].pc.l])
  }

  /** A held sleep lock is locked, and has one holder. */
  ghost predicate HeldInv(s: State)
    requires Shaped(s)
  {
    forall p :: 0 <= p < |s.ps| ==> HeldOk(s, p, s.ps[p].held)
  }

  ghost predicate HeldOk(s: State, p: nat, held: set<nat>)
    requires Shaped(s)
  {
    forall l :: l in held ==> l < |s.cond| && s.kind[l].SleepLock? && !s.cond[l] && s.holder[l] == p
  }

  ghost predicate Inv(s: State) {
    Shaped(s) && LockInv(s) && RunInv(s) && WaitInv(s) && HeldInv(s)
  }

  /** The process lock that the effect moves is the one that the program counters say. */
  ghost predicate MovesPlock(s: State, c: nat, e: Effect)
    requires Shaped(s) && Fits(s, c, e)
  {
    var p := s.cpus[c].p;
    && (e.plock != -1 ==> e.plockTo in {-1, c as int} && s.plock[e.plock] in {-1, c as int})
    && (forall x :: 0 <= x < |s.ps| ==>
          (PcHolds(p, e.me.pc, x) <==> if x == e.plock then e.plockTo == c else PcHolds(p, s.ps[p].pc, x)))
    && (e.switches ==> forall x :: 0 <= x < |s.ps| ==> (PcHolds(p, e.me.pc, x) <==> x == p))
    && (e.wakes != -1 ==> PcHolds(p, s.ps[p].pc, e.wakes))
  }

  ghost predicate MovesLk(s: State, c: nat, e: Effect)
    requires Shaped(s) && Fits(s, c, e)
  {
    var p := s.cpus[c].p;
    && (e.lk != -1 ==> e.lkTo in {-1, c as int} && s.lk[e.lk] in {-1, c as int})
    && (if e.lk == -1 then PcLock(e.me.pc) == PcLock(s.ps[p].pc)
        else if e.lkTo == c then PcLock(s.ps[p].pc) == -1 && PcLock(e.me.pc) == e.lk
        else PcLock(s.ps[p].pc) == e.lk && PcLock(e.me.pc) == -1)
    && (e.switches ==> PcLock(e.me.pc) == -1)
  }

  ghost predicate Moves(s: State, c: nat, e: Effect)
    requires Shaped(s) && Fits(s, c, e)
  {
    MovesPlock(s, c, e) && MovesLk(s, c, e) && e.me.on == (if e.switches then -1 else c) && ProcOk(e.me, |s.cpus|)
  }

  lemma PerformShaped(s: State, c: nat, e: Effect)
    requires Shaped(s) && RunInv(s) && Fits(s, c, e)
    ensures Shaped(Perform(s, c, e))
  {}

  lemma PerformLock(s: State, c: nat, e: Effect)
    requires Shaped(s) && LockInv(s) && RunInv(s) && Fits(s, c, e) && Moves(s, c, e)
    requires Shaped(Perform(s, c, e))
    ensures LockInv(Perform(s, c, e))
  {
    hide PcHolds, PcLock, ProcOk, PcOk;
    var s', p := Perform(s, c, e), s.cpus[c].p;
    assert s.ps[p].on == c;
    assert CpuLock(s, c) == PcLock(s.ps[p].pc);
    forall d, x | 0 <= d < |s.cpus| && 0 <= x < |s.ps| ensures s'.plock[x] == d <==> CpuHolds(s', d, x) {
      assert s.plock[x] == d <==> CpuHolds(s, d, x);
      assert s.plock[x] == c <==> CpuHolds(s, c, x);
    }
    forall d, l | 0 <= d < |s.cpus| && 0 <= l < |s.lk| ensures s'.lk[l] == d <==> CpuLock(s', d) == l {
      assert s.lk[l] == d <==> CpuLock(s, d) == l;
      assert s.lk[l] == c <==> CpuLock(s, c) == l;
    }
  }

  lemma PerformRun(s: State, c: nat, e: Effect)
    requires Shaped(s) && LockInv(s) && RunInv(s) && Fits(s, c, e) && Moves(s, c, e)
    requires Shaped(Perform(s, c, e))
    ensures RunInv(Perform(s, c, e))
  {
    hide PcHolds, PcLock, PcOk;
    var s', p := Perform(s, c, e), s.cpus[c].p;
    assert s.ps[p].on == c;
    if e.wakes != -1 && e.wakes != p {
      WakesSleeper(s, c, e.wakes);
    }
  }

  /** A process whose lock another CPU holds is not about to switch away. */
  lemma WakesSleeper(s: State, c: nat, x: nat)
    requires Shaped(s) && LockInv(s) && RunInv(s) && c < |s.cpus| && s.cpus[c].Runs? && s.cpus[c].p != x < |s.ps|
    requires CpuHolds(s, c, x)
    ensures !s.ps[x].pc.Going? && !s.ps[x].pc.Mark?
    ensures s.ps[x].state == SLEEPING ==> s.ps[x].on == -1 && s.ps[x].pc.Woken?
  {
    var d := s.ps[x].on;
    if d != -1 {
      assert s.cpus[d] == Runs(x);
      assert s.plock[x] == c;
      assert s.plock[x] == d <==> CpuHolds(s, d, x);
    }
  }

  /** The table of effects is in order. */
  lemma EffectPlock(s: State, e: Event)
    requires Shaped(s) && LockInv(s) && RunInv(s) && Enabled(s, e) && Acts(e) && Fits(s, e.c, EffectOf(s, e))
    ensures MovesPlock(s, e.c, EffectOf(s, e))
  {
    hide PcHolds, PcLock, ProcOk, PcOk, ActEffect, StepEffect, Guards, RunInv;
    var p := s.cpus[e.c].p;
    forall x | 0 <= x < |s.ps| ensures s.plock[x] == e.c <==> PcHolds(p, s.ps[p].pc, x) {
      assert s.plock[x] == e.c <==> CpuHolds(s, e.c, x);
    }
    match e
    case Choose(_, to) => OutsidePlock(s.ps[p].pc, to, s);
    case Do(_, act) => ActPlock(s, s.ps[p], act);
    case Step(c) => StepPlock(s, c);
  }

  lemma OutsidePlock(pc: Pc, to: Pc, s: State)
    requires pc.Out? && MayCall(s, to)
    ensures forall q: nat, x: nat :: !PcHolds(q, pc, x) && !PcHolds(q, to, x)
  {}

  lemma StepPlock(s: State, c: nat)
    requires Shaped(s) && Enabled(s, Step(c)) && Fits(s, c, StepEffect(s, c))
    requires forall x :: 0 <= x < |s.ps| ==> (s.plock[x] == c <==> PcHolds(s.cpus[c].p, s.ps[s.cpus[c].p].pc, x))
    ensures MovesPlock(s, c, StepEffect(s, c))
  {
    hide PcOk, Guards;
  }

  lemma ActPlock(s: State, me: Proc, act: Act)
    requires Shaped(s) && me.pc.In? && MayDo(s, me, act)
    ensures var f := ActEffect(s, me, act);
            && f.plock == f.wakes == -1 && !f.switches
            && forall q: nat, x: nat :: !PcHolds(q, me.pc, x) && !PcHolds(q, f.me.pc, x)
  {}

  lemma EffectLk(s: State, e: Event)
    requires Shaped(s) && LockInv(s) && RunInv(s) && Enabled(s, e) && Acts(e) && Fits(s, e.c, EffectOf(s, e))
    ensures MovesLk(s, e.c, EffectOf(s, e))
  {
    hide PcHolds, ProcOk;
    var p := s.cpus[e.c].p;
    assert CpuLock(s, e.c) == PcLock(s.ps[p].pc);
  }

  lemma EffectProc(s: State, e: Event)
    requires Shaped(s) && RunInv(s) && Enabled(s, e) && Acts(e) && Fits(s, e.c, EffectOf(s, e))
    ensures var f := EffectOf(s, e); f.me.on == (if f.switches then -1 else e.c) && ProcOk(f.me, |s.cpus|)
  {
    hide PcHolds, PcLock, PcOk;
    var p := s.cpus[e.c].p;
    assert s.ps[p].on == e.c;
    assert ProcOk(s.ps[p], |s.cpus|);
  }

  /** Going to sleep needs a false condition; a condition that becomes true is owed a wakeup, unless there was one; a
      wakeup moves past a process only after waking it. */
  ghost predicate MovesWait(s: State, c: nat, e: Effect)
    requires Shaped(s) && Fits(s, c, e)
  {
    var pc, pc' := s.ps[s.cpus[c].p].pc, e.me.pc;
    && (forall l: nat :: Waiting(e.me, l) ==> Waiting(s.ps[s.cpus[c].p], l) || (pc.Drop? && pc.l == l && e.cond == -1))
    && (pc'.Doze? || pc'.Drop? ==> e.cond == -1 && !s.cond[pc'.l])
    && (e.cond != -1 ==> s.lockOf[e.cond] == PcLock(pc) && (e.condTo ==> e.cond in Owed(pc') || e.cond in WokeSet(pc)))
    && (forall l :: l in Owed(pc) && l !in Owed(pc') ==> Passed(pc, l, |s.ps| - 1))
  }

  ghost predicate MovesClear(s: State, c: nat, e: Effect)
    requires Shaped(s) && Fits(s, c, e)
  {
    var p := s.cpus[c].p;
    forall l: nat, r :: 0 <= r < |s.ps| && Clear(e.me.pc, l, r) ==>
      Clear(s.ps[p].pc, l, r) || r == p || (e.wakes == r && e.chan == l)
  }

  lemma EffectWait(s: State, e: Event)
    requires Shaped(s) && RunInv(s) && WaitInv(s) && Enabled(s, e) && Acts(e) && Fits(s, e.c, EffectOf(s, e))
    ensures MovesWait(s, e.c, EffectOf(s, e))
  {
    hide PcHolds, PcOk;
    var p := s.cpus[e.c].p;
    assert s.ps[p].on == e.c;
    assert ProcOk(s.ps[p], |s.cpus|) && PcOk(s, s.ps[p].pc);
  }

  lemma EffectClear(s: State, e: Event)
    requires Shaped(s) && Enabled(s, e) && Acts(e) && Fits(s, e.c, EffectOf(s, e))
    ensures MovesClear(s, e.c, EffectOf(s, e))
  {
    hide PcHolds, PcOk, PcLock;
  }

  /** Two processes at places that hold the same lock are one. */
  lemma OneLockHolder(s: State, c: nat, r: nat)
    requires Shaped(s) && LockInv(s) && RunInv(s) && c < |s.cpus| && s.cpus[c].Runs? && r < |s.ps|
    requires PcLock(s.ps[r].pc) == PcLock(s.ps[s.cpus[c].p].pc) && 0 <= PcLock(s.ps[r].pc) < |s.lk|
    ensures r == s.cpus[c].p
  {
    var l, d := PcLock(s.ps[r].pc), s.ps[r].on;
    assert ProcOk(s.ps[r], |s.cpus|);
    assert s.cpus[d] == Runs(r);
    assert s.lk[l] == d <==> CpuLock(s, d) == l;
    assert s.lk[l] == c <==> CpuLock(s, c) == l;
  }

  /** Nobody else waits where nobody waited. */
  lemma WaitedBefore(s: State, c: nat, e: Effect, r: nat, l: nat)
    requires Shaped(s) && Fits(s, c, e) && r < |s.ps| && r != s.cpus[c].p && Waiting(Perform(s, c, e).ps[r], l)
    ensures Waiting(s.ps[r], l)
  {
    hide PcOk;
  }

  lemma StillOwed(s: State, c: nat, e: Effect, l: nat, r: nat)
    requires Shaped(s) && WaitInv(s) && Fits(s, c, e) && MovesWait(s, c, e)
    requires l < |s.cond| && r < |s.ps| && Waiting(Perform(s, c, e).ps[r], l) && Perform(s, c, e).cond[l]
    ensures SomeOwes(Perform(s, c, e), l)
  {
    hide PcHolds, PcLock, PcOk, Waiting, Passed;
    var s', p := Perform(s, c, e), s.cpus[c].p;
    if r != p {
      WaitedBefore(s, c, e, r, l);
    }
    if Waiting(s.ps[r], l) {
      assert !Clear(s.ps[p].pc, l, r);
      if e.cond == l {
        assert l in Owed(s'.ps[p].pc);
      } else {
        var q :| 0 <= q < |s.ps| && l in Owed(s.ps[q].pc);
        PassedAll(s.ps[p].pc, l, r, |s.ps|);
        assert l in Owed(s'.ps[q].pc);
      }
    }
  }

  lemma PassedAll(pc: Pc, l: nat, r: int, n: int)
    requires r < n
    ensures Passed(pc, l, n - 1) ==> Clear(pc, l, r)
  {}

  lemma StillClear(s: State, c: nat, e: Effect, l: nat, q: nat, r: nat)
    requires Shaped(s) && LockInv(s) && RunInv(s) && WaitInv(s) && Fits(s, c, e) && Moves(s, c, e)
    requires MovesWait(s, c, e) && MovesClear(s, c, e)
    requires q < |s.ps| && r < |s.ps| && Clear(Perform(s, c, e).ps[q].pc, l, r)
    ensures !Waiting(Perform(s, c, e).ps[r], l)
  {
    hide PcHolds, PcLock, PcOk;
    var s', p := Perform(s, c, e), s.cpus[c].p;
    if Waiting(s'.ps[r], l) {
      if r == p {
        WaiterAlone(s, c, e, l, q);
      } else {
        WaitedBefore(s, c, e, r, l);
        assert !Clear(s.ps[q].pc, l, r);
        if e.wakes == r {
          WakesSleeper(s, c, r);
        }
      }
    }
  }

  lemma ClearGuards(s: State, pc: Pc, l: nat, p: int)
    requires PcOk(s, pc)
    ensures Clear(pc, l, p) || l in Owed(pc) ==> PcLock(pc) >= 0 && Guards(s, PcLock(pc), l)
  {
    if l in Owed(pc) || l in WokeSet(pc) {
      assert l in pc.owed + pc.woke;
    }
  }

  /** Who goes to sleep has held the lock until now, so nobody else has called wakeup under it. */
  lemma WaiterAlone(s: State, c: nat, e: Effect, l: nat, q: nat)
    requires Shaped(s) && LockInv(s) && RunInv(s) && WaitInv(s) && Fits(s, c, e) && Moves(s, c, e) && MovesWait(s, c, e)
    requires q < |s.ps| && Waiting(e.me, l)
    ensures forall r :: 0 <= r < |s.ps| ==> !(Clear(Perform(s, c, e).ps[q].pc, l, r) && r == s.cpus[c].p)
  {
    var p := s.cpus[c].p;
    assert s.ps[p].on == c;
    if Clear(Perform(s, c, e).ps[q].pc, l, p) {
      assert ProcOk(e.me, |s.cpus|);
      assert q != p;
      assert Clear(s.ps[q].pc, l, p);
      ClearGuards(s, s.ps[q].pc, l, p);
      assert PcOk(s, s.ps[p].pc);
      if !Waiting(s.ps[p], l) {
        OneLockHolder(s, c, q);
      }
    }
  }

  lemma PerformWait(s: State, c: nat, e: Effect)
    requires Shaped(s) && LockInv(s) && RunInv(s) && WaitInv(s) && Fits(s, c, e) && Moves(s, c, e)
    requires MovesWait(s, c, e) && MovesClear(s, c, e) && Shaped(Perform(s, c, e))
    ensures WaitInv(Perform(s, c, e))
  {
    hide PcHolds, SomeOwes, Waiting, Clear;
    var s', p := Perform(s, c, e), s.cpus[c].p;
    forall r, l | 0 <= r < |s.ps| && 0 <= l < |s.cond| && Waiting(s'.ps[r], l) && s'.cond[l] ensures SomeOwes(s', l) {
      StillOwed(s, c, e, l, r);
    }
    forall r, q, l: nat | 0 <= r < |s.ps| && 0 <= q < |s.ps| && Clear(s'.ps[q].pc, l, r) ensures !Waiting(s'.ps[r], l) {
      StillClear(s, c, e, l, q, r);
    }
    forall r | 0 <= r < |s.ps| && (s'.ps[r].pc.Doze? || s'.ps[r].pc.Drop?) ensures !s'.cond[s'.ps[r].pc.l] {
      if r != p && e.cond != -1 && s.ps[r].pc.l == e.cond {
        assert PcOk(s, s.ps[r].pc);
        OneLockHolder(s, c, r);
      }
    }
  }

  /** Sleep locks: taken when free, given up by their holder. */
  ghost predicate MovesHeld(s: State, c: nat, e: Effect)
    requires Shaped(s) && Fits(s, c, e)
  {
    var p := s.cpus[c].p;
    && (forall l :: l in e.me.held ==> l in s.ps[p].held || (e.cond == l && !e.condTo && s.kind[l].SleepLock?))
    && (e.cond != -1 && s.kind[e.cond].SleepLock? ==>
          if e.condTo then e.cond !in e.me.held && e.cond in s.ps[p].held else s.cond[e.cond])
  }

  lemma EffectHeld(s: State, e: Event)
    requires Shaped(s) && HeldInv(s) && Enabled(s, e) && Acts(e) && Fits(s, e.c, EffectOf(s, e))
    ensures MovesHeld(s, e.c, EffectOf(s, e))
  {
    hide PcHolds, PcLock, PcOk;
  }

  lemma PerformHeld(s: State, c: nat, e: Effect)
    requires Shaped(s) && HeldInv(s) && Fits(s, c, e) && MovesHeld(s, c, e)
    requires Shaped(Perform(s, c, e))
    ensures HeldInv(Perform(s, c, e))
  {
    hide PcHolds, PcLock, PcOk;
    var s', p := Perform(s, c, e), s.cpus[c].p;
    assert HeldOk(s, p, s.ps[p].held);
    forall r | 0 <= r < |s.ps| ensures HeldOk(s', r, s'.ps[r].held) {
      assert HeldOk(s, r, s.ps[r].held);
    }
  }

  lemma ActKeeps(s: State, e: Event)
    requires Inv(s) && Enabled(s, e) && Acts(e)
    ensures Inv(Apply(s, e))
  {
    hide LockInv, RunInv, WaitInv, HeldInv, Perform, MovesPlock, MovesLk, MovesWait, MovesClear, MovesHeld, Fits,
         EffectOf, ProcOk;
    EffectFits(s, e);
    EffectPlock(s, e);
    EffectLk(s, e);
    EffectProc(s, e);
    EffectWait(s, e);
    EffectClear(s, e);
    EffectHeld(s, e);
    var c, f := e.c, EffectOf(s, e);
    PerformShaped(s, c, f);
    PerformLock(s, c, f);
    PerformRun(s, c, f);
    PerformWait(s, c, f);
    PerformHeld(s, c, f);
  }

  /** Steps of the scheduler change no program counter. */
  lemma SchedulerKeeps(s: State, e: Event)
    requires Inv(s) && (e.Pick? || e.Start? || e.Finish?) && Enabled(s, e)
    ensures Inv(Apply(s, e))
  {
    hide LockInv, RunInv, WaitInv, HeldInv, PcHolds, PcLock;
    var s' := Apply(s, e);
    if e.Start? {
      NotElsewhere(s, e.c);
    }
    assert Shaped(s');
    SchedulerLock(s, e);
    SchedulerRun(s, e);
    SchedulerWait(s, e);
    SchedulerHeld(s, e);
  }

  /** The scheduler holds the lock of a runnable process that no CPU runs. */
  lemma NotElsewhere(s: State, c: nat)
    requires Shaped(s) && LockInv(s) && RunInv(s) && c < |s.cpus| && s.cpus[c].Holds?
    ensures var p := s.ps[s.cpus[c].p];
            p.state.RUNNABLE? ==> p.on == -1 && (p.pc.Woken? || p.pc.YieldBack?)
  {
    var x := s.cpus[c].p;
    var d := s.ps[x].on;
    assert ProcOk(s.ps[x], |s.cpus|);
    if d != -1 {
      assert s.cpus[d] == Runs(x);
      assert s.plock[x] == c <==> CpuHolds(s, c, x);
      assert s.plock[x] == d <==> CpuHolds(s, d, x);
    }
  }

  lemma SchedulerLock(s: State, e: Event)
    requires Inv(s) && (e.Pick? || e.Start? || e.Finish?) && Enabled(s, e) && Shaped(Apply(s, e))
    requires e.Start? ==> var p := s.ps[s.cpus[e.c].p]; p.state.RUNNABLE? ==> p.pc.Woken? || p.pc.YieldBack?
    ensures LockInv(Apply(s, e))
  {
    hide WaitInv, HeldInv, PcOk, ProcOk;
    var s' := Apply(s, e);
    forall d, x | 0 <= d < |s.cpus| && 0 <= x < |s.ps| ensures s'.plock[x] == d <==> CpuHolds(s', d, x) {
      assert s.plock[x] == d <==> CpuHolds(s, d, x);
      assert s.plock[x] == e.c <==> CpuHolds(s, e.c, x);
    }
    forall d, l | 0 <= d < |s.cpus| && 0 <= l < |s.lk| ensures s'.lk[l] == d <==> CpuLock(s', d) == l {
      assert s.lk[l] == d <==> CpuLock(s, d) == l;
    }
  }

  lemma SchedulerRun(s: State, e: Event)
    requires Inv(s) && (e.Pick? || e.Start? || e.Finish?) && Enabled(s, e) && Shaped(Apply(s, e))
    requires e.Start? ==> var p := s.ps[s.cpus[e.c].p]; p.state.RUNNABLE? ==>
               p.on == -1 && (p.pc.Woken? || p.pc.YieldBack?)
    ensures RunInv(Apply(s, e))
  {
    hide WaitInv, HeldInv, LockInv, PcOk;
  }

  lemma SchedulerWait(s: State, e: Event)
    requires Inv(s) && (e.Pick? || e.Start? || e.Finish?) && Enabled(s, e) && Shaped(Apply(s, e))
    ensures WaitInv(Apply(s, e))
  {
    hide RunInv, HeldInv, LockInv, PcOk;
    var s' := Apply(s, e);
    forall r | 0 <= r < |s.ps|
      ensures s'.ps[r].pc == s.ps[r].pc && forall l: nat :: Waiting(s'.ps[r], l) ==> Waiting(s.ps[r], l)
    {}
    forall l: nat | SomeOwes(s, l) ensures SomeOwes(s', l) {
      var q :| 0 <= q < |s.ps| && l in Owed(s.ps[q].pc);
      assert l in Owed(s'.ps[q].pc);
    }
  }

  lemma SchedulerHeld(s: State, e: Event)
    requires Inv(s) && (e.Pick? || e.Start? || e.Finish?) && Enabled(s, e) && Shaped(Apply(s, e))
    ensures HeldInv(Apply(s, e))
  {
    hide RunInv, WaitInv, LockInv, PcOk;
    var s' := Apply(s, e);
    forall r | 0 <= r < |s.ps| ensures HeldOk(s', r, s'.ps[r].held) {
      assert HeldOk(s, r, s.ps[r].held);
    }
  }

  /** States reached by any interleaving of any length. */
  ghost predicate IsRun(s: State, es: seq<Event>, s': State)
    decreases |es|
  {
    Shaped(s) && if es == [] then s' == s else Enabled(s, es[0]) && IsRun(Apply(s, es[0]), es[1..], s')
  }

  ghost predicate Reachable(s: State) {
    && Shaped(s)
    && exists nproc: nat, ncpu: nat, nlk: nat, cond, kind, lockOf, es ::
         Setup(nlk, cond, kind, lockOf) && IsRun(Init(nproc, ncpu, nlk, cond, kind, lockOf), es, s)
  }

  lemma {:induction false} RunKeeps(s: State, es: seq<Event>, s': State)
    requires Inv(s) && IsRun(s, es, s')
    ensures Inv(s')
    decreases |es|
  {
    hide LockInv, RunInv, WaitInv, HeldInv;
    if es != [] {
      if Acts(es[0]) {
        ActKeeps(s, es[0]);
      } else {
        SchedulerKeeps(s, es[0]);
      }
      RunKeeps(Apply(s, es[0]), es[1..], s');
    }
  }

  lemma ReachableInv(s: State)
    requires Reachable(s)
    ensures Inv(s)
  {
    var nproc: nat, ncpu: nat, nlk: nat, cond, kind, lockOf, es :|
      Setup(nlk, cond, kind, lockOf) && IsRun(Init(nproc, ncpu, nlk, cond, kind, lockOf), es, s);
    InitInv(nproc, ncpu, nlk, cond, kind, lockOf);
    RunKeeps(Init(nproc, ncpu, nlk, cond, kind, lockOf), es, s);
  }

  lemma InitInv(nproc: nat, ncpu: nat, nlk: nat, cond: seq<bool>, kind: seq<Kind>, lockOf: seq<nat>)
    requires Setup(nlk, cond, kind, lockOf)
    ensures Inv(Init(nproc, ncpu, nlk, cond, kind, lockOf))
  {
    var s := Init(nproc, ncpu, nlk, cond, kind, lockOf);
    assert forall p :: 0 <= p < nproc ==> s.ps[p] == Proc(RUNNABLE, -1, YieldBack, -1, {});
    assert forall p, l: nat :: 0 <= p < nproc ==> !Waiting(s.ps[p], l);
  }

  /** No lost wakeup: whenever the condition of channel `l` holds and its lock is free, or its holder owes no wakeup
      there, no process sleeps on the channel or is about to. */
  lemma NoLostWakeup(s: State, l: nat, p: nat)
    requires Reachable(s) && l < |s.cond| && s.cond[l] && p < |s.ps|
    requires forall q :: 0 <= q < |s.ps| ==> l !in Owed(s.ps[q].pc)
    ensures !Waiting(s.ps[p], l) && !((s.ps[p].pc.Doze? || s.ps[p].pc.Drop?) && s.ps[p].pc.l == l)
  {
    ReachableInv(s);
  }

  /** In particular nobody does while the lock of the channel is free. */
  lemma FreeLock(s: State, l: nat, p: nat)
    requires Reachable(s) && l < |s.cond| && s.cond[l] && s.lk[s.lockOf[l]] == -1 && p < |s.ps|
    ensures !Waiting(s.ps[p], l) && !((s.ps[p].pc.Doze? || s.ps[p].pc.Drop?) && s.ps[p].pc.l == l)
  {
    ReachableInv(s);
    forall q | 0 <= q < |s.ps| ensures l !in Owed(s.ps[q].pc) {
      ClearGuards(s, s.ps[q].pc, l, 0);
      LockTaken(s, q);
    }
    NoLostWakeup(s, l, p);
  }

  lemma LockTaken(s: State, q: nat)
    requires Inv(s) && q < |s.ps|
    ensures 0 <= PcLock(s.ps[q].pc) < |s.lk| ==> s.lk[PcLock(s.ps[q].pc)] == s.ps[q].on != -1
  {
    var k, d := PcLock(s.ps[q].pc), s.ps[q].on;
    assert ProcOk(s.ps[q], |s.cpus|);
    if 0 <= k < |s.lk| {
      assert s.cpus[d] == Runs(q);
      assert s.lk[k] == d <==> CpuLock(s, d) == k;
    }
  }

  /** A process runs on at most one CPU. */
  lemma OneCpu(s: State, p: nat, c: nat, d: nat)
    requires Reachable(s) && p < |s.ps| && c < |s.cpus| && d < |s.cpus| && s.cpus[c] == Runs(p) && s.cpus[d] == Runs(p)
    ensures c == d
  {
    ReachableInv(s);
    assert s.ps[p].on == c && s.ps[p].on == d;
  }

  /** A sleep lock has at most one holder, and only while it is locked; holdingsleep tells its holder from others. */
  lemma SleepLockExclusive(s: State, p: nat, q: nat, l: nat)
    requires Reachable(s) && p < |s.ps| && q < |s.ps| && l in s.ps[p].held
    ensures l < |s.cond| && !s.cond[l] && s.holder[l] == p && (l in s.ps[q].held ==> q == p)
  {
    ReachableInv(s);
    assert HeldOk(s, p, s.ps[p].held) && HeldOk(s, q, s.ps[q].held);
  }

  /** The panics of sched are unreachable: whoever switches holds its own lock and no other, and is not RUNNING. */
  lemma SchedNeverPanics(s: State, c: nat)
    requires Reachable(s) && c < |s.cpus| && s.cpus[c].Runs?
    requires s.ps[s.cpus[c].p].pc.Going? || s.ps[s.cpus[c].p].pc.YieldGoing?
    ensures s.ps[s.cpus[c].p].state != RUNNING
    ensures forall x :: 0 <= x < |s.ps| ==> (s.plock[x] == c <==> x == s.cpus[c].p)
    ensures forall l :: 0 <= l < |s.lk| ==> s.lk[l] != c
  {
    ReachableInv(s);
    forall x | 0 <= x < |s.ps| ensures s.plock[x] == c <==> x == s.cpus[c].p {
      assert s.plock[x] == c <==> CpuHolds(s, c, x);
    }
    forall l | 0 <= l < |s.lk| ensures s.lk[l] != c {
      assert s.lk[l] == c <==> CpuLock(s, c) == l;
    }
  }
}
