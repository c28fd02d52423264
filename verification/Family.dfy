/** fork, exit, wait and reparent of kernel/proc.c as steps of interleaved processes around wait_lock. Sleeping is
    atomic here: that no wakeup is lost in between is what module Sched shows. */
module Family {

  const INIT := 0                        // initproc

  /** Where a living process is, named by what it does next. */
  datatype Pc =
    | Run                                // anywhere else
    | Forking(np: nat)                   // slot np allocated: copy, then acquire(&wait_lock)
    | Linking(np: nat)                   // np->parent = p; release(&wait_lock)
    | Linked(np: nat)                    // np->state = RUNNABLE
    | Reparent(i: nat)                   // exit, holding wait_lock: look at slot i
    | WakeInit(i: nat)                   // wakeup(initproc)
    | Dying                              // acquire(&p->lock); p->state = ZOMBIE
    | Scan(i: nat, kids: bool)           // wait, holding wait_lock: look at slot i
    | Asleep(woken: bool)                // sleep(p, &wait_lock); once woken, acquire(&wait_lock)

  /** p->state. `Alive` stands for RUNNABLE, RUNNING and SLEEPING; the last three are ZOMBIE: holding wait_lock and
      p->lock, in sched holding p->lock, and off the CPU for good. */
  datatype Life = Unused | Used | Alive(pc: Pc) | Dead | Switching | Gone

  /** `maker` is the pid of the process that called fork. */
  datatype Slot = Slot(life: Life, pid: nat, parent: int, maker: nat)

  /** `wl` is the process that holds wait_lock, -1 if none; `waits` are the pids that wait has returned, `failed` those
      of forks that ran out of memory. */
  datatype State = State(slots: seq<Slot>, wl: int, nextpid: nat, waits: seq<nat>, failed: seq<nat>)

  datatype Event =
    | Fork(p: nat, np: nat)              // allocproc
    | ForkFails(p: nat)                  // uvmcopy fails: freeproc
    | Exit(p: nat)                       // acquire(&wait_lock)
    | Wait(p: nat)                       // acquire(&wait_lock)
    | Step(p: nat, fails: bool)          // next step; `fails`: copyout fails, or the process has been killed
    | Kill(p: nat)                       // a sleeper is woken for another reason

  predicate Zombie(x: Slot) { x.life.Dead? || x.life.Switching? || x.life.Gone? }

  predicate Sleeps(x: Slot) { x.life == Alive(Asleep(false)) }

  predicate Enabled(s: State, e: Event) {
    && e.p < |s.slots|
    && var life := s.slots[e.p].life;
       match e
       case Fork(_, np) => life == Alive(Run) && np < |s.slots| && s.slots[np].life == Unused
       case ForkFails(_) => life.Alive? && life.pc.Forking? && life.pc.np < |s.slots|
       case Exit(p) => life == Alive(Run) && p != INIT && s.wl == -1
       case Wait(_) => life == Alive(Run) && s.wl == -1
       case Kill(p) => life == Alive(Asleep(false))
       case Step(p, _) =>
         match life
         case Unused => false
         case Used => false
         case Gone => false
         case Dead => true
         case Switching => true
         case Alive(pc) =>
           match pc
           case Run => false
           case Forking(np) => np < |s.slots| && s.wl == -1
           case Linking(np) => np < |s.slots|
           case Linked(np) => np < |s.slots|
           case Reparent(i) => i <= |s.slots|
           case WakeInit(_) => true
           case Dying => true
           case Asleep(woken) => woken && s.wl == -1
           case Scan(i, _) =>       // a child that still holds its own lock blocks the scan
             i <= |s.slots| && (i < |s.slots| && s.slots[i].parent == p ==> !s.slots[i].life.Switching?)
  }

  function Free(): Slot { Slot(Unused, 0, -1, 0) }

  /** What a step does: the new record of the process that takes it, that of one other slot, and the globals. */
  datatype Effect = Effect(
    me: Slot, wl: int,
    nameonly q: int := -1, nameonly other: Slot := Free(),
    nameonly born: nat := 0, nameonly reaped: seq<nat> := [], nameonly lost: seq<nat> := [])

  /** wakeup on the channel of process `q`, while `p` becomes `me`. */
  function Waking(s: State, me: Slot, q: int): Effect {
    if 0 <= q < |s.slots|
    && Sleeps(s.slots[q]) then Effect(me, s.wl, q := q, other := s.slots[q].(life := Alive(Asleep(true))))
    else Effect(me, s.wl)
  }

  function EffectOf(s: State, e: Event): Effect
    requires Enabled(s, e)
  {
    var p := e.p;
    var me := s.slots[p];
    match e
    case Fork(_, np) => Effect(me.(life := Alive(Forking(np))), s.wl, q := np,
                                 other := Slot(Used, s.nextpid, -1, me.pid), born := 1)
    case ForkFails(_) => Effect(me.(life := Alive(Run)), s.wl, q := me.life.pc.np, other := Free(),
                                  lost := [s.slots[me.life.pc.np].pid])
    case Exit(_) => Effect(me.(life := Alive(Reparent(0))), p)
    case Wait(_) => Effect(me.(life := Alive(Scan(0, false))), p)
    case Kill(_) => Effect(me.(life := Alive(Asleep(true))), s.wl)
    case Step(_, fails) =>
      match me.life
      case Dead => Effect(me.(life := Switching), -1)
      case Switching => Effect(me.(life := Gone), s.wl)
      case Alive(pc) => StepEffect(s, p, pc, fails)
  }

  function StepEffect(s: State, p: nat, pc: Pc, fails: bool): Effect
    requires Enabled(s, Step(p, fails)) && s.slots[p].life == Alive(pc)
  {
    var me := s.slots[p];
    match pc
    case Forking(np) => Effect(me.(life := Alive(Linking(np))), p)
    case Linking(np) => Effect(me.(life := Alive(Linked(np))), -1, q := np, other := s.slots[np].(parent := p))
    case Linked(np) => Effect(me.(life := Alive(Run)), s.wl, q := np, other := s.slots[np].(life := Alive(Run)))
    case Reparent(i) =>
      if i == |s.slots| then Waking(s, me.(life := Alive(Dying)), me.parent)
      else if s.slots[i].parent == p
        then Effect(me.(life := Alive(WakeInit(i))), p, q := i, other := s.slots[i].(parent := INIT))
      else Effect(me.(life := Alive(Reparent(i + 1))), p)
    case WakeInit(i) => Waking(s, me.(life := Alive(Reparent(i + 1))), INIT)
    case Dying => Effect(me.(life := Dead), p)
    case Scan(i, kids) =>
      if i == |s.slots| then
        if !kids || fails then Effect(me.(life := Alive(Run)), -1)
        else Effect(me.(life := Alive(Asleep(false))), -1)
      else if s.slots[i].parent != p then Effect(me.(life := Alive(Scan(i + 1, kids))), p)
      else if !Zombie(s.slots[i]) then Effect(me.(life := Alive(Scan(i + 1, true))), p)
      else if fails then Effect(me.(life := Alive(Run)), -1)
      else Effect(me.(life := Alive(Run)), -1, q := i, other := Free(), reaped := [s.slots[i].pid])
    case Asleep(_) => Effect(me.(life := Alive(Scan(0, false))), p)
  }

  function Perform(s: State, p: nat, e: Effect): State
    requires p < |s.slots| && -1 <= e.q < |s.slots|
  {
    State((if e.q == -1 then s.slots else s.slots[e.q := e.other])[p := e.me], e.wl, s.nextpid + e.born,
          s.waits + e.reaped, s.failed + e.lost)
  }

  function Apply(s: State, e: Event): State
    requires Enabled(s, e)
  {
    Perform(s, e.p, EffectOf(s, e))
  }

  /** userinit: init alone. */
  function Init(n: nat): State
    requires n > 0
  {
    State(seq(n, i => if i == INIT then Slot(Alive(Run), 1, -1, 0) else Free()), -1, 2, [], [])
  }

  predicate HoldsWl(life: Life) {
    life.Dead? || (life.Alive?
                   && (life.pc.Linking? || life.pc.Reparent? || life.pc.WakeInit? || life.pc.Dying? || life.pc.Scan?))
  }

  function Target(life: Life): int {
    if life.Alive? && (life.pc.Forking? || life.pc.Linking? || life.pc.Linked?) then life.pc.np else -1
  }

  /** What holds of the record of slot `i` on its own. */
  predicate Local(x: Slot, i: int, n: int) {
    && -1 <= x.parent < n && x.parent != i && (x.life.Unused? ==> x == Free())
    && (if i == INIT then x.life.Alive? && x.parent == -1 && !x.life.pc.Reparent? && !x.life.pc.WakeInit?
                          && !x.life.pc.Dying?
        else x.life.Unused? || x.life.Used? || x.parent != -1)
    && (x.life.Alive? && (x.life.pc.Reparent? || x.life.pc.Scan?) ==> x.life.pc.i <= n)
    && (x.life.Alive? && x.life.pc.WakeInit? ==> x.life.pc.i < n)
    && -1 <= Target(x.life) < n
  }

  ghost predicate Locals(s: State) {
    |s.slots| > INIT && forall i :: 0 <= i < |s.slots| ==> Local(s.slots[i], i, |s.slots|)
  }

  /** wait_lock is held exactly where the program counters say. */
  ghost predicate WlOk(s: State) {
    -1 <= s.wl < |s.slots| && forall i :: 0 <= i < |s.slots| ==> (s.wl == i <==> HoldsWl(s.slots[i].life))
  }

  /** Parents are alive. */
  ghost predicate Parents(s: State)
    requires Locals(s)
  {
    forall i :: 0 <= i < |s.slots| ==> ParentOk(s, i)
  }

  ghost predicate ParentOk(s: State, i: nat)
    requires Locals(s) && i < |s.slots|
  {
    var q := s.slots[i].parent;
    assert Local(s.slots[i], i, |s.slots|);
    q != -1 ==> s.slots[q].life.Alive?
  }

  /** The slot that a process forks into is its own until the child runs. */
  ghost predicate Targets(s: State)
    requires Locals(s)
  {
    && (forall i :: 0 <= i < |s.slots| ==> TargetOk(s, i))
    && (forall p, q :: 0 <= p < |s.slots| && 0 <= q < |s.slots| && p != q
                       && Target(s.slots[p].life) == Target(s.slots[q].life) ==>
          Target(s.slots[p].life) == -1)
  }

  ghost predicate TargetOk(s: State, i: nat)
    requires Locals(s) && i < |s.slots|
  {
    var np := Target(s.slots[i].life);
    assert Local(s.slots[i], i, |s.slots|);
    && (np != -1 ==> s.slots[np].life.Used? && s.slots[np].parent == if s.slots[i].life.pc.Linked? then i else -1)
    && (s.slots[i].life.Used? && s.slots[i].parent != -1 ==> s.slots[s.slots[i].parent].life == Alive(Linked(i)))
  }

  /** Process `p` has no children among the first `n` slots. */
  ghost predicate Childless(s: State, p: int, n: int) {
    forall i :: 0 <= i < |s.slots| && i < n ==> s.slots[i].parent != p
  }

  ghost predicate ZombieFree(s: State, p: int, n: int) {
    forall i :: 0 <= i < |s.slots| && i < n && s.slots[i].parent == p ==> !Zombie(s.slots[i])
  }

  /** What the holder of wait_lock has established so far. */
  ghost predicate Progress(s: State, p: nat)
    requires p < |s.slots|
  {
    var x := s.slots[p];
    x.life.Alive? ==>
      match x.life.pc
      case Reparent(i) => Childless(s, p, i)
      case WakeInit(i) => Childless(s, p, i + 1)
      case Dying => Childless(s, p, |s.slots|) && 0 <= x.parent < |s.slots| && !Sleeps(s.slots[x.parent])
      case Scan(i, kids) => ZombieFree(s, p, i) && (!kids ==> Childless(s, p, i))
      case _ => true
  }

  /** Somebody is about to wake init. */
  ghost predicate InitPending(s: State) {
    0 <= s.wl < |s.slots| && s.slots[s.wl].life.Alive? && s.slots[s.wl].life.pc.WakeInit?
  }

  /** A sleeper in wait has no zombie child. */
  ghost predicate SleeperOk(s: State, p: nat)
    requires p < |s.slots|
  {
    Sleeps(s.slots[p]) ==> ZombieFree(s, p, |s.slots|) || (p == INIT && InitPending(s))
  }

  /** Pids in use are distinct and none of them has been returned by wait yet. */
  ghost predicate Pids(s: State) {
    && (forall i :: 0 <= i < |s.slots| ==>
                      s.slots[i].life.Unused? || (s.slots[i].pid < s.nextpid && s.slots[i].pid !in s.waits))
    && (forall i, j :: 0 <= i < |s.slots| && 0 <= j < |s.slots| && i != j && s.slots[i].pid == s.slots[j].pid ==>
          s.slots[i].life.Unused? || s.slots[j].life.Unused?)
    && (forall k :: 0 <= k < |s.waits| ==> s.waits[k] < s.nextpid)
    && (forall k, m :: 0 <= k < m < |s.waits| ==> s.waits[k] != s.waits[m])
  }

  ghost predicate Inv(s: State) {
    && Locals(s) && WlOk(s) && Parents(s) && Targets(s)
    && (forall p :: 0 <= p < |s.slots| ==> Progress(s, p))
    && (forall p :: 0 <= p < |s.slots| ==> SleeperOk(s, p))
    && Pids(s)
  }

  ghost predicate SoundMe(s: State, p: nat, e: Effect) {
    && p < |s.slots| && Local(e.me, p, |s.slots|) && (s.slots[p].life.Alive? || Zombie(s.slots[p]))
    && e.me.parent == s.slots[p].parent && e.me.pid == s.slots[p].pid
    && (if s.slots[p].life.Alive? then e.me.life.Alive?
                                       || (e.me.life.Dead? && s.slots[p].life.pc.Dying? && e.q == -1) else Zombie(e.me))
  }

  ghost predicate SoundOther(s: State, p: nat, e: Effect) {
    -1 <= e.q < |s.slots| && e.q != p && (e.q != -1 ==> Local(e.other, e.q, |s.slots|))
  }

  ghost predicate SoundLock(s: State, p: nat, e: Effect)
    requires p < |s.slots| && -1 <= e.q < |s.slots|
  {
    && (e.wl == s.wl || (s.wl in {-1, p as int} && e.wl in {-1, p as int}))
    && (HoldsWl(e.me.life) <==> e.wl == p) && (e.q != -1 ==> (HoldsWl(e.other.life) <==> HoldsWl(s.slots[e.q].life)))
  }

  /** The effect as a change of records and of wait_lock. */
  ghost predicate Sound(s: State, p: nat, e: Effect) {
    SoundMe(s, p, e) && SoundOther(s, p, e) && SoundLock(s, p, e)
  }

  lemma EffectMe(s: State, e: Event)
    requires Locals(s) && Enabled(s, e)
    ensures SoundMe(s, e.p, EffectOf(s, e))
  {
    hide HoldsWl;
    assert Local(s.slots[e.p], e.p, |s.slots|);
  }

  lemma EffectOther(s: State, e: Event)
    requires Locals(s) && Targets(s) && Enabled(s, e)
    ensures SoundOther(s, e.p, EffectOf(s, e))
  {
    hide HoldsWl;
    assert Local(s.slots[e.p], e.p, |s.slots|) && TargetOk(s, e.p);
    var q := EffectOf(s, e).q;
    if q != -1 {
      assert Local(s.slots[q], q, |s.slots|);
    }
  }

  lemma EffectLock(s: State, e: Event)
    requires Locals(s) && WlOk(s) && Targets(s) && Enabled(s, e) && SoundOther(s, e.p, EffectOf(s, e))
    ensures SoundLock(s, e.p, EffectOf(s, e))
  {
    hide Local;
    assert TargetOk(s, e.p);
    assert s.wl == e.p <==> HoldsWl(s.slots[e.p].life);
  }

  lemma PerformLocals(s: State, p: nat, e: Effect)
    requires Locals(s) && WlOk(s) && Sound(s, p, e)
    ensures Locals(Perform(s, p, e)) && WlOk(Perform(s, p, e))
  {
    hide Local, HoldsWl;
  }

  /** Who dies has no children; nobody is made the child of a dead process. */
  ghost predicate SoundParents(s: State, p: nat, e: Effect)
    requires Sound(s, p, e)
  {
    && (s.slots[p].life.Alive? && !e.me.life.Alive? ==> Childless(s, p, |s.slots|))
    && (e.q != -1 ==> (s.slots[e.q].life.Alive? ==> e.other.life.Alive?)
                      && (e.other.parent == s.slots[e.q].parent || e.other.parent == -1 || e.other.parent == INIT
                          || (e.other.parent == p && e.me.life.Alive?)))
  }

  lemma EffectParents(s: State, e: Event)
    requires Inv(s) && Enabled(s, e) && Sound(s, e.p, EffectOf(s, e))
    ensures SoundParents(s, e.p, EffectOf(s, e))
  {
    hide Local, HoldsWl, SleeperOk, Pids, WlOk;
    assert Progress(s, e.p) && TargetOk(s, e.p);
  }

  lemma PerformParents(s: State, p: nat, e: Effect)
    requires Inv(s) && Sound(s, p, e) && SoundParents(s, p, e) && Locals(Perform(s, p, e))
    ensures Parents(Perform(s, p, e))
  {
    hide HoldsWl, SleeperOk, Pids, WlOk, Progress, Targets;
    var s' := Perform(s, p, e);
    assert Local(s'.slots[INIT], INIT, |s.slots|);
    forall i | 0 <= i < |s.slots| ensures ParentOk(s', i) {
      assert ParentOk(s, i) && Local(s.slots[i], i, |s.slots|) && Local(s'.slots[i], i, |s.slots|);
    }
  }

  ghost predicate IsLinked(life: Life) { life.Alive? && life.pc.Linked? }

  ghost predicate SoundTargets(s: State, p: nat, e: Effect)
    requires Sound(s, p, e)
  {
    var t, t' := Target(s.slots[p].life), Target(e.me.life);
    && (t' == -1
        || (t' == e.q && e.other.life.Used? && e.other.parent == (if e.me.life.pc.Linked? then p else -1)
            && (t' == t || s.slots[t'].life.Unused?))
        || (t' != e.q && t' == t && e.me.life.pc.Linked? == s.slots[p].life.pc.Linked?))
    && (IsLinked(s.slots[p].life) ==> e.me.life == s.slots[p].life || e.q == t)
    && (e.q != -1 ==> && (s.slots[e.q].life.Used? ==> t == e.q)
                      && (IsLinked(s.slots[e.q].life) ==> e.other.life == s.slots[e.q].life)
                      && (Target(e.other.life) == -1 || e.other.life == s.slots[e.q].life)
                      && (e.other.life.Used? && e.other.parent != -1 ==>
                            e.other.parent == p && e.me.life == Alive(Linked(e.q))))
  }

  lemma EffectTargets(s: State, e: Event)
    requires Inv(s) && Enabled(s, e) && Sound(s, e.p, EffectOf(s, e))
    ensures SoundTargets(s, e.p, EffectOf(s, e))
  {
    hide Local, HoldsWl, SleeperOk, Pids, WlOk, Progress, Parents, SoundMe, SoundLock;
    assert TargetOk(s, e.p);
    var q := EffectOf(s, e).q;
    if q != -1 {
      assert TargetOk(s, q);
    }
  }

  lemma PerformTargets(s: State, p: nat, e: Effect)
    requires Inv(s) && Sound(s, p, e) && SoundTargets(s, p, e) && Locals(Perform(s, p, e))
    ensures Targets(Perform(s, p, e))
  {
    hide HoldsWl, SleeperOk, Pids, WlOk, Progress, Parents, SoundTargets, SoundLock, TargetOk;
    var s' := Perform(s, p, e);
    forall i | 0 <= i < |s.slots| ensures TargetOk(s', i) {
      TargetAfter(s, p, e, i);
    }
    TargetsApart(s, p, e);
  }

  lemma TargetAfter(s: State, p: nat, e: Effect, i: nat)
    requires Inv(s) && Sound(s, p, e) && SoundTargets(s, p, e) && Locals(Perform(s, p, e)) && i < |s.slots|
    ensures TargetOk(Perform(s, p, e), i)
  {
    hide HoldsWl, SleeperOk, Pids, WlOk, Progress, Parents, SoundLock;
    assert TargetOk(s, p) && TargetOk(s, i) && Local(s.slots[i], i, |s.slots|)
           && Local(Perform(s, p, e).slots[i], i, |s.slots|);
  }

  lemma TargetsApart(s: State, p: nat, e: Effect)
    requires Inv(s) && Sound(s, p, e) && SoundTargets(s, p, e)
    ensures var s' := Perform(s, p, e);
            forall i, j :: 0 <= i < |s.slots| && 0 <= j < |s.slots| && i != j
                           && Target(s'.slots[i].life) == Target(s'.slots[j].life) ==>
              Target(s'.slots[i].life) == -1
  {
    hide HoldsWl, SleeperOk, Pids, WlOk, Progress, Parents, Local;
    var s' := Perform(s, p, e);
    forall i, j | 0 <= i < |s.slots| && 0 <= j < |s.slots| && i != j
    && Target(s'.slots[i].life) == Target(s'.slots[j].life)
      ensures Target(s'.slots[i].life) == -1
    {
      assert TargetOk(s, i) && TargetOk(s, j);
    }
  }

  /** A process without wait_lock changes nothing that the holder relies on. */
  ghost predicate SoundProgress(s: State, p: nat, e: Effect)
    requires Sound(s, p, e)
  {
    Progress(Perform(s, p, e), p) && Quiet(s, p, e)
  }

  ghost predicate Quiet(s: State, p: nat, e: Effect)
    requires Sound(s, p, e)
  {
    && (s.wl != p && s.wl != -1 ==>
          && (Sleeps(e.me) ==> Sleeps(s.slots[p])) && (Zombie(e.me) ==> Zombie(s.slots[p]))
          && (e.q != -1 ==>
                s.wl != e.q && e.other.parent == s.slots[e.q].parent && !Zombie(e.other) && !Sleeps(e.other)))
  }

  lemma EffectOwn(s: State, e: Event)
    requires Inv(s) && Enabled(s, e) && Sound(s, e.p, EffectOf(s, e))
    ensures Progress(Apply(s, e), e.p)
  {
    hide SleeperOk, Pids, Parents, HoldsWl, WlOk, Targets, ZombieFree, Childless, Local, Perform;
    var life := s.slots[e.p].life;
    assert Progress(s, e.p);
    Emptily(Apply(s, e), e.p);
    SlotAfter(s, e.p, EffectOf(s, e));
    if e.Step? && life.Alive? {
      match life.pc
      case Reparent(i) => OwnReparent(s, e.p, e.fails);
      case WakeInit(i) => OwnReparent(s, e.p, e.fails);
      case Scan(i, kids) => OwnScan(s, e.p, e.fails);
      case _ =>
    }
  }

  lemma SlotAfter(s: State, p: nat, e: Effect)
    requires p < |s.slots| && -1 <= e.q < |s.slots|
    ensures Perform(s, p, e).slots[p] == e.me
  {}

  lemma Emptily(s: State, p: nat)
    ensures Childless(s, p, 0) && ZombieFree(s, p, 0)
  {}

  /** reparent has dealt with one more slot. */
  lemma OwnReparent(s: State, p: nat, fails: bool)
    requires Locals(s) && Enabled(s, Step(p, fails)) && s.slots[p].life.Alive? && Progress(s, p)
    requires s.slots[p].life.pc.Reparent? || s.slots[p].life.pc.WakeInit?
    requires SoundOther(s, p, EffectOf(s, Step(p, fails)))
    ensures Progress(Apply(s, Step(p, fails)), p)
  {
    assert Local(s.slots[p], p, |s.slots|);
  }

  /** wait has looked at one more slot. */
  lemma OwnScan(s: State, p: nat, fails: bool)
    requires Locals(s) && Enabled(s, Step(p, fails)) && s.slots[p].life.Alive? && Progress(s, p)
             && s.slots[p].life.pc.Scan?
    requires SoundOther(s, p, EffectOf(s, Step(p, fails)))
    ensures Progress(Apply(s, Step(p, fails)), p)
  {
    hide Local;
  }

  lemma EffectQuiet(s: State, e: Event)
    requires Inv(s) && Enabled(s, e) && Sound(s, e.p, EffectOf(s, e))
    ensures Quiet(s, e.p, EffectOf(s, e))
  {
    hide SleeperOk, Pids, Parents, Progress;
    assert TargetOk(s, e.p);
    assert s.wl == e.p <==> HoldsWl(s.slots[e.p].life);
    var q := EffectOf(s, e).q;
    if q != -1 {
      assert Local(s.slots[q], q, |s.slots|) && (s.wl == q <==> HoldsWl(s.slots[q].life));
    }
  }

  lemma PerformProgress(s: State, p: nat, e: Effect)
    requires Inv(s) && Sound(s, p, e) && SoundProgress(s, p, e) && Locals(Perform(s, p, e)) && WlOk(Perform(s, p, e))
    ensures forall r :: 0 <= r < |s.slots| ==> Progress(Perform(s, p, e), r)
  {
    hide Local, SleeperOk, Pids, Targets, Parents;
    var s' := Perform(s, p, e);
    forall r | 0 <= r < |s.slots| ensures Progress(s', r) {
      assert Progress(s, r);
      assert s.wl == r <==> HoldsWl(s.slots[r].life);
      assert s'.wl == r <==> HoldsWl(s'.slots[r].life);
    }
  }

  /** Nobody becomes the zombie child of a sleeper, except of init just before init is woken. */
  ghost predicate SoundSleep(s: State, p: nat, e: Effect)
    requires Sound(s, p, e)
  {
    && (Sleeps(e.me) ==> e.q == -1 && (Sleeps(s.slots[p]) || ZombieFree(s, p, |s.slots|)))
    && (Zombie(e.me) && !Zombie(s.slots[p]) ==> 0 <= e.me.parent < |s.slots| && !Sleeps(s.slots[e.me.parent]))
    && (e.q != -1 ==> (Zombie(e.other) ==> Zombie(s.slots[e.q])
                                           && (e.other.parent == s.slots[e.q].parent
                                               || (e.other.parent == INIT && e.wl == p && e.me.life.Alive?
                                                   && e.me.life.pc.WakeInit?)))
                      && (Sleeps(e.other) ==> Sleeps(s.slots[e.q])))
    && (s.wl == p && s.slots[p].life.Alive? && s.slots[p].life.pc.WakeInit? ==> !Sleeps(Perform(s, p, e).slots[INIT]))
  }

  lemma EffectSleep(s: State, e: Event)
    requires Inv(s) && Enabled(s, e) && Sound(s, e.p, EffectOf(s, e))
    ensures SoundSleep(s, e.p, EffectOf(s, e))
  {
    hide Pids, Parents, Local, SleeperOk;
    assert Progress(s, e.p) && TargetOk(s, e.p);
    assert s.wl == e.p <==> HoldsWl(s.slots[e.p].life);
  }

  lemma PerformSleep(s: State, p: nat, e: Effect)
    requires Inv(s) && Sound(s, p, e) && SoundProgress(s, p, e) && SoundSleep(s, p, e)
    ensures forall r :: 0 <= r < |s.slots| ==> SleeperOk(Perform(s, p, e), r)
  {
    hide Pids, Parents, Local, Progress, Targets, HoldsWl;
    var s' := Perform(s, p, e);
    forall r | 0 <= r < |s.slots| ensures SleeperOk(s', r) {
      assert SleeperOk(s, r);
    }
  }

  ghost predicate SoundPids(s: State, p: nat, e: Effect)
    requires Sound(s, p, e)
  {
    if e.q == -1 then e.born == 0 && e.reaped == []
    else if e.born == 1 then e.other.pid == s.nextpid && e.reaped == []
    else e.born == 0 && (e.other == Free() || (e.other.pid == s.slots[e.q].pid && !s.slots[e.q].life.Unused?))
         && (e.reaped == [] || (e.reaped == [s.slots[e.q].pid] && e.other == Free() && !s.slots[e.q].life.Unused?))
  }

  lemma EffectPids(s: State, e: Event)
    requires Inv(s) && Enabled(s, e) && Sound(s, e.p, EffectOf(s, e))
    ensures SoundPids(s, e.p, EffectOf(s, e))
  {
    hide Pids, Parents, Local, SleeperOk, Progress, HoldsWl, WlOk;
    assert TargetOk(s, e.p);
    var q := EffectOf(s, e).q;
    if q != -1 && s.slots[q].life.Unused? {
      assert s.slots[q] == Free() by { FreeSlot(s, q); }
    }
  }

  lemma FreeSlot(s: State, q: nat)
    requires Locals(s) && q < |s.slots| && s.slots[q].life.Unused?
    ensures s.slots[q] == Free()
  {
    assert Local(s.slots[q], q, |s.slots|);
  }

  lemma PerformPids(s: State, p: nat, e: Effect)
    requires Inv(s) && Sound(s, p, e) && SoundPids(s, p, e)
    ensures Pids(Perform(s, p, e))
  {
    hide Parents, Local, SleeperOk, Progress, HoldsWl, WlOk, Targets;
    var s' := Perform(s, p, e);
    forall i | 0 <= i < |s.slots| && !s'.slots[i].life.Unused? ensures s'.slots[i].pid < s'.nextpid
    && s'.slots[i].pid !in s'.waits {
      assert i != p && i != e.q ==> s'.slots[i] == s.slots[i];
    }
  }

  lemma StepKeeps(s: State, e: Event)
    requires Inv(s) && Enabled(s, e)
    ensures Inv(Apply(s, e))
  {
    hide Locals, WlOk, Parents, Targets, Progress, SleeperOk, Pids, SoundMe, SoundLock, SoundParents, SoundTargets,
         Quiet,
         SoundSleep, SoundPids, EffectOf;
    var f := EffectOf(s, e);
    EffectMe(s, e);
    EffectOther(s, e);
    EffectLock(s, e);
    PerformLocals(s, e.p, f);
    EffectParents(s, e);
    PerformParents(s, e.p, f);
    EffectTargets(s, e);
    PerformTargets(s, e.p, f);
    EffectOwn(s, e);
    EffectQuiet(s, e);
    PerformProgress(s, e.p, f);
    EffectSleep(s, e);
    PerformSleep(s, e.p, f);
    EffectPids(s, e);
    PerformPids(s, e.p, f);
  }

  /** A process that is in exit, or past it. */
  predicate Exiting(x: Slot) {
    Zombie(x) || (x.life.Alive? && (x.life.pc.Reparent? || x.life.pc.WakeInit? || x.life.pc.Dying?))
  }

  /** Whoever had pid `x` has called exit. */
  ghost predicate Left(s: State, x: nat) {
    x < s.nextpid && forall j :: 0 <= j < |s.slots| && s.slots[j].pid == x ==>
                                   s.slots[j].life.Unused? || Exiting(s.slots[j])
  }

  /** A process stays with the one that forked it, until that one exits and init takes over. */
  ghost predicate MakerOk(s: State, i: nat)
    requires i < |s.slots|
  {
    var q := s.slots[i].parent;
    && (q != -1 ==> 0 <= q < |s.slots|
                    && (s.slots[q].pid == s.slots[i].maker || (q == INIT && Left(s, s.slots[i].maker))))
    && var np := Target(s.slots[i].life);
       np != -1 ==> 0 <= np < |s.slots| && s.slots[np].maker == s.slots[i].pid
  }

  ghost predicate Makers(s: State) {
    forall i :: 0 <= i < |s.slots| ==> MakerOk(s, i)
  }

  ghost predicate InTable(s: State, x: nat) {
    exists i :: 0 <= i < |s.slots| && !s.slots[i].life.Unused? && s.slots[i].pid == x
  }

  /** Every pid ever given out is still in the table, was returned by wait, or belongs to a fork that failed. */
  ghost predicate Accounts(s: State) {
    && (forall x: nat :: 1 <= x < s.nextpid ==> InTable(s, x) || x in s.waits || x in s.failed)
    && (forall x :: x in s.failed ==> x < s.nextpid && x !in s.waits && !InTable(s, x))
  }

  ghost predicate SoundOrigin(s: State, p: nat, e: Effect)
    requires Sound(s, p, e) && e.q != -1
  {
    var was := s.slots[e.q];
    if e.born == 1 then
      e.other.pid == s.nextpid && e.other.parent == -1 && e.other.maker == s.slots[p].pid && e.other.life.Used?
      && was.life.Unused?
      && e.reaped == e.lost == []
    else if e.other == Free() then
      && e.born == 0 && !was.life.Unused? && !was.life.Alive?
      && ((e.reaped == [was.pid] && e.lost == []) || (e.reaped == [] && e.lost == [was.pid]))
    else
      && e.born == 0 && e.reaped == e.lost == []
      && e.other.pid == was.pid && e.other.maker == was.maker && !was.life.Unused? && !e.other.life.Unused?
      && (Exiting(was) ==> Exiting(e.other))
      && (was.life.Alive? ==> e.other.life.Alive?)
      && (e.other.parent == was.parent || (e.other.parent == p && was.maker == s.slots[p].pid)
          || (e.other.parent == INIT && was.parent == p && Exiting(s.slots[p])))
  }

  ghost predicate SoundStay(s: State, p: nat, e: Effect)
    requires Sound(s, p, e)
  {
    && e.me.maker == s.slots[p].maker && (Exiting(s.slots[p]) ==> Exiting(e.me))
    && (Target(e.me.life) == -1 || Target(e.me.life) == Target(s.slots[p].life)
        || (Target(e.me.life) == e.q && e.born == 1))
    && (e.q == -1 ==> e.born == 0 && e.reaped == e.lost == [])
  }

  lemma EffectStay(s: State, e: Event)
    requires Inv(s) && Enabled(s, e) && Sound(s, e.p, EffectOf(s, e))
    ensures SoundStay(s, e.p, EffectOf(s, e))
  {
    hide Pids, Parents, Local, SleeperOk, Progress, HoldsWl, WlOk, Targets;
  }

  lemma EffectOrigin(s: State, e: Event)
    requires Inv(s) && Makers(s) && Enabled(s, e) && Sound(s, e.p, EffectOf(s, e)) && EffectOf(s, e).q != -1
    ensures SoundOrigin(s, e.p, EffectOf(s, e))
  {
    hide Pids, Parents, Local, SleeperOk, Progress, HoldsWl, WlOk, Left;
    assert TargetOk(s, e.p) && MakerOk(s, e.p);
    var q := EffectOf(s, e).q;
    if s.slots[q].life.Unused? {
      assert s.slots[q] == Free() by { FreeSlot(s, q); }
    }
  }

  /** Nobody who has left comes back. */
  lemma LeftStays(s: State, p: nat, e: Effect, x: nat)
    requires Sound(s, p, e) && SoundStay(s, p, e) && (e.q != -1 ==> SoundOrigin(s, p, e)) && Left(s, x)
    ensures Left(Perform(s, p, e), x)
  {
    hide Local, HoldsWl;
  }

  /** When a parent in exit gives its child away, the maker of the child has left. */
  lemma GivenAway(s: State, i: nat)
    requires Pids(s) && i < |s.slots| && MakerOk(s, i) && 0 <= s.slots[i].parent < |s.slots|
             && s.slots[i].parent != INIT
    requires s.slots[s.slots[i].parent].life.Alive? && Exiting(s.slots[s.slots[i].parent])
    ensures Left(s, s.slots[i].maker)
  {}

  lemma MakerAfter(s: State, p: nat, e: Effect, i: nat)
    requires Inv(s) && Makers(s) && Sound(s, p, e) && SoundStay(s, p, e) && SoundTargets(s, p, e)
    requires (e.q != -1 ==> SoundOrigin(s, p, e)) && i < |s.slots|
    ensures MakerOk(Perform(s, p, e), i)
  {
    hide Local, HoldsWl, SleeperOk, Progress, WlOk, Left, Pids;
    var s' := Perform(s, p, e);
    assert MakerOk(s, i) && MakerOk(s, p) && TargetOk(s, i) && ParentOk(s, i);
    if Left(s, s.slots[i].maker) {
      LeftStays(s, p, e, s.slots[i].maker);
    }
    if s'.slots[i].parent != s.slots[i].parent && s'.slots[i].parent == INIT && s.slots[i].parent == p {
      GivenAway(s, i);
      LeftStays(s, p, e, s.slots[i].maker);
    }
  }

  lemma PerformMakers(s: State, p: nat, e: Effect)
    requires Inv(s) && Makers(s) && Sound(s, p, e) && SoundStay(s, p, e) && SoundTargets(s, p, e)
    requires e.q != -1 ==> SoundOrigin(s, p, e)
    ensures Makers(Perform(s, p, e))
  {
    hide Inv, MakerOk, SoundStay, SoundTargets, SoundOrigin;
    forall i | 0 <= i < |s.slots| ensures MakerOk(Perform(s, p, e), i) {
      MakerAfter(s, p, e, i);
    }
  }

  lemma TableAfter(s: State, p: nat, e: Effect, x: nat)
    requires Sound(s, p, e) && SoundStay(s, p, e) && (e.q != -1 ==> SoundOrigin(s, p, e)) && Pids(s)
    ensures InTable(s, x) ==> InTable(Perform(s, p, e), x) || x in e.reaped || x in e.lost
    ensures InTable(Perform(s, p, e), x) ==>
              (InTable(s, x) && x !in e.reaped && x !in e.lost) || (e.born == 1 && x == s.nextpid)
  {
    hide Local, HoldsWl;
    var s' := Perform(s, p, e);
    if InTable(s, x) {
      var i :| 0 <= i < |s.slots| && !s.slots[i].life.Unused? && s.slots[i].pid == x;
      assert s'.slots[i].life.Unused? || s'.slots[i].pid == x;
    }
    if InTable(s', x) {
      var i :| 0 <= i < |s'.slots| && !s'.slots[i].life.Unused? && s'.slots[i].pid == x;
      assert i != e.q ==> !s.slots[i].life.Unused? && s.slots[i].pid == x;
    }
  }

  lemma BornAfter(s: State, p: nat, e: Effect)
    requires Sound(s, p, e) && e.q != -1 && SoundOrigin(s, p, e) && e.born == 1
    ensures InTable(Perform(s, p, e), s.nextpid)
  {
    hide Local, HoldsWl;
    assert Perform(s, p, e).slots[e.q] == e.other;
  }

  lemma PerformAccounts(s: State, p: nat, e: Effect)
    requires Inv(s) && Accounts(s) && Sound(s, p, e) && SoundStay(s, p, e) && (e.q != -1 ==> SoundOrigin(s, p, e))
    ensures Accounts(Perform(s, p, e))
  {
    hide Local, HoldsWl, SleeperOk, Progress, WlOk, Targets, Parents, InTable, Exiting;
    var s' := Perform(s, p, e);
    forall x: nat ensures 1 <= x < s'.nextpid ==> InTable(s', x) || x in s'.waits || x in s'.failed {
      TableAfter(s, p, e, x);
      if e.born == 1 {
        BornAfter(s, p, e);
      }
    }
    forall x | x in s'.failed ensures x < s'.nextpid && x !in s'.waits && !InTable(s', x) {
      TableAfter(s, p, e, x);
      InTableBy(s, e.q);
    }
  }

  lemma InTableBy(s: State, q: int)
    ensures 0 <= q < |s.slots| && !s.slots[q].life.Unused? ==> InTable(s, s.slots[q].pid)
  {}

  ghost predicate History(s: State) {
    Makers(s) && Accounts(s)
  }

  lemma HistoryStep(s: State, e: Event)
    requires Inv(s) && History(s) && Enabled(s, e)
    ensures History(Apply(s, e))
  {
    hide Inv, Makers, Accounts, SoundMe, SoundLock, SoundTargets, SoundStay, SoundOrigin, EffectOf;
    var f := EffectOf(s, e);
    InvParts(s);
    EffectMe(s, e);
    EffectOther(s, e);
    EffectLock(s, e);
    EffectTargets(s, e);
    EffectStay(s, e);
    if f.q != -1 {
      EffectOrigin(s, e);
    }
    PerformMakers(s, e.p, f);
    PerformAccounts(s, e.p, f);
  }

  lemma InvParts(s: State)
    requires Inv(s)
    ensures Locals(s) && WlOk(s) && Targets(s)
  {}

  ghost predicate IsRun(s: State, es: seq<Event>, s': State)
    decreases |es|
  {
    if es == [] then s' == s else Enabled(s, es[0]) && IsRun(Apply(s, es[0]), es[1..], s')
  }

  ghost predicate Reachable(s: State) {
    exists n: nat, es :: n > 0 && IsRun(Init(n), es, s)
  }

  lemma {:induction false} RunKeeps(s: State, es: seq<Event>, s': State)
    requires Inv(s) && History(s) && IsRun(s, es, s')
    ensures Inv(s') && History(s')
    decreases |es|
  {
    hide Inv, History;
    if es != [] {
      StepKeeps(s, es[0]);
      HistoryStep(s, es[0]);
      RunKeeps(Apply(s, es[0]), es[1..], s');
    }
  }

  lemma ReachableInv(s: State)
    requires Reachable(s)
    ensures Inv(s) && History(s)
  {
    var n: nat, es :| n > 0 && IsRun(Init(n), es, s);
    InitInv(n);
    InitHistory(n);
    RunKeeps(Init(n), es, s);
  }

  lemma InitHistory(n: nat)
    requires n > 0
    ensures History(Init(n))
  {
    var s := Init(n);
    assert forall i :: 0 <= i < n && i != INIT ==> s.slots[i] == Free();
    InTableBy(s, INIT);
  }

  lemma InitInv(n: nat)
    requires n > 0
    ensures Inv(Init(n))
  {
    var s := Init(n);
    assert forall i :: 0 <= i < n && i != INIT ==> s.slots[i] == Free();
    assert Locals(s);
    assert WlOk(s);
    assert Parents(s);
    assert Targets(s);
    assert Pids(s);
  }

  /** In every interleaving every parent is alive, in particular neither ZOMBIE nor UNUSED; every other process and
      every zombie has one, and init lives. */
  lemma ParentsLive(s: State, i: nat)
    requires Reachable(s) && i < |s.slots|
    ensures -1 <= s.slots[i].parent < |s.slots| && (s.slots[i].parent != -1 ==> s.slots[s.slots[i].parent].life.Alive?)
    ensures (s.slots[i].life.Alive? && i != INIT) || Zombie(s.slots[i]) ==> s.slots[i].parent != -1
    ensures s.slots[INIT].life.Alive?
  {
    ReachableInv(s);
    assert Local(s.slots[i], i, |s.slots|) && ParentOk(s, i) && Local(s.slots[INIT], INIT, |s.slots|);
  }

  /** Over a whole run no pid is returned by wait twice. */
  lemma ReapedOnce(s: State, k: nat, m: nat)
    requires Reachable(s) && k < m < |s.waits|
    ensures s.waits[k] != s.waits[m]
  {
    ReachableInv(s);
  }

  /** While wait_lock is free nobody sleeps in wait with a zombie child. */
  lemma NoUnnoticedZombie(s: State, p: nat, i: nat)
    requires Reachable(s) && s.wl == -1 && p < |s.slots| && i < |s.slots| && Sleeps(s.slots[p])
             && s.slots[i].parent == p
    ensures !Zombie(s.slots[i])
  {
    ReachableInv(s);
    assert SleeperOk(s, p);
  }

  /** The process that wait frees has left its CPU, and is freed by its own parent. */
  lemma ReapsOnlyGone(s: State, p: nat)
    requires Reachable(s) && Enabled(s, Step(p, false)) && |Apply(s, Step(p, false)).waits| > |s.waits|
    ensures var i := s.slots[p].life.pc.i;
            i < |s.slots| && s.slots[i].life.Gone? && s.slots[i].parent == p
            && Apply(s, Step(p, false)).slots[i] == Free()
  {
    ReachableInv(s);
    var i := s.slots[p].life.pc.i;
    assert s.wl == i <==> HoldsWl(s.slots[i].life);
    assert s.wl == p <==> HoldsWl(s.slots[p].life);
  }

  /** wait reports no children only when there are none, unless the process was killed or copyout failed. */
  lemma NoChildrenMeansNone(s: State, p: nat)
    requires Reachable(s) && p < |s.slots| && s.slots[p].life == Alive(Scan(|s.slots|, false))
    ensures Childless(s, p, |s.slots|)
  {
    ReachableInv(s);
    assert Progress(s, p);
  }

  /** Over a whole run the parent of a process is the one that forked it; only when that one has called exit,
      it is init. */
  lemma ParentIsMaker(s: State, i: nat)
    requires Reachable(s) && i < |s.slots| && s.slots[i].parent != -1
    ensures var q := s.slots[i].parent;
            0 <= q < |s.slots| && (s.slots[q].pid == s.slots[i].maker || (q == INIT && Left(s, s.slots[i].maker)))
  {
    ReachableInv(s);
    assert MakerOk(s, i);
  }

  /** No process is lost: each pid given out so far is in the table, was returned by wait, or belongs to a failed fork,
      and only one of these. */
  lemma NobodyLost(s: State, x: nat)
    requires Reachable(s) && 1 <= x < s.nextpid
    ensures InTable(s, x) || x in s.waits || x in s.failed
    ensures !(InTable(s, x) && x in s.waits) && !(InTable(s, x) && x in s.failed) && !(x in s.waits && x in s.failed)
  {
    ReachableInv(s);
  }
}
