/** Whole runs of driver and device: what becomes of every request, whatever the order of their steps, and in particular
    when the device finishes requests while the interrupt handler runs. */
module VirtioRun {
  import opened Virtio

  /** What happens to a request. */
  datatype Stage = SPost | STake | SComplete | SConsume | SRelease

  /** The life of a request: each stage once, in this order. */
  function Life(): seq<Stage> { [SPost, STake, SComplete, SConsume, SRelease] }

  function Lived(p: Phase): (n: nat)
    ensures 1 <= n <= 4
  {
    match p
    case Posted => 1
    case Taken => 2
    case Done => 3
    case Seen => 4
  }

  /** The steps of the driver and of the device. `EAck` and `EReturn` begin and end virtio_disk_intr, which has
      vdisk_lock in between; posting and releasing need the lock. */
  datatype Event = EPost(h: int, c: Chain) | ETake | EComplete(h: int, status: nat) | EAck | EConsume | EReturn
    | ERelease(h: int)

  /** The queue, whether the device has an interrupt pending, whether the handler is running, and for the proof: the
      requests by number, what has happened to each and its buffer, and the numbers of those in flight. */
  datatype State = State(q: Queue, irq: bool, handling: bool, hist: seq<seq<Stage>>, bufs: seq<int>, id: map<int, nat>)

  ghost predicate Enabled(s: State, e: Event) {
    match e
    case EPost(h, c) => !s.handling && CanPost(s.q, h, c) && |s.q.own| == NUM
    case ETake => s.q.devIdx != s.q.availIdx
    case EComplete(h, _) => h in s.q.chains && s.q.chains[h].phase == Taken
    case EAck => !s.handling && s.irq
    case EConsume => s.handling && s.q.seen != s.q.usedIdx && Status(s.q) == 0
    case EReturn => s.handling && s.q.seen == s.q.usedIdx
    case ERelease(h) =>
      !s.handling && h in s.q.chains && 0 <= s.q.chains[h].b < |s.q.busy| && !s.q.busy[s.q.chains[h].b]
  }

  /** The entry of the used ring that the handler looks at, and the status it finds. */
  function Next(q: Queue): int { if |q.used| == NUM then q.used[q.seen % NUM] else -1 }

  function Status(q: Queue): nat { if 0 <= Next(q) < |q.info| then q.info[Next(q)].status else 1 }

  /** `stage` happens to request `h`. */
  ghost function Noted(s: State, h: int, stage: Stage): seq<seq<Stage>> {
    if h in s.id && s.id[h] < |s.hist| then s.hist[s.id[h] := s.hist[s.id[h]] + [stage]] else s.hist
  }

  ghost function Apply(s: State, e: Event): State
    requires RunInv(s) && Enabled(s, e)
  {
    match e
    case EPost(h, c) =>
      s.(q := Post(s.q, h, c), hist := s.hist + [[SPost]], bufs := s.bufs + [c.b], id := s.id[h := |s.hist|])
    case ETake =>
      Pending(s.q);
      s.(q := Take(s.q), hist := Noted(s, s.q.avail[s.q.devIdx % NUM], STake))
    case EComplete(h, status) =>
      CompleteKeeps(s.q, h, status);
      s.(q := Complete(s.q, h, status), irq := true, hist := Noted(s, h, SComplete))
    case EAck => s.(irq := false, handling := true)
    case EConsume =>
      Finished(s.q);
      s.(q := Consume(s.q), hist := Noted(s, Next(s.q), SConsume))
    case EReturn => s.(handling := false)
    case ERelease(h) =>
      ChainIs(s.q, h);
      s.(q := Release(s.q, h), hist := Noted(s, h, SRelease), id := s.id - {h})
  }

  ghost predicate Init(s: State) {
    && Inv(s.q) && s.q.chains == map[] && (forall b :: 0 <= b < |s.q.busy| ==> !s.q.busy[b])
    && !s.irq && !s.handling && s.hist == [] && s.bufs == [] && s.id == map[]
  }

  /** Each request in flight has come as far as its phase says, all others have come to their end. */
  ghost predicate Lives(s: State) {
    && s.id.Keys == s.q.chains.Keys && |s.bufs| == |s.hist|
    && (forall h, g :: h in s.id && g in s.id && s.id[h] == s.id[g] ==> h == g)
    && (forall h :: h in s.id ==> Live(s, h))
    && (forall r :: 0 <= r < |s.hist| && !InFlight(s.id, r) ==> s.hist[r] == Life())
  }

  ghost predicate InFlight(id: map<int, nat>, r: int) {
    exists h :: h in id && id[h] == r
  }

  ghost predicate Live(s: State, h: int)
    requires h in s.id
  {
    && h in s.q.chains && s.id[h] < |s.hist| == |s.bufs|
    && s.hist[s.id[h]] == Life()[..Lived(s.q.chains[h].phase)] && s.bufs[s.id[h]] == s.q.chains[h].b
  }

  /** A buffer is busy only for a request. */
  ghost predicate Quiet(q: Queue) {
    forall b :: 0 <= b < |q.busy| && q.busy[b] ==> exists h :: h in q.chains && q.chains[h].b == b
  }

  ghost predicate RunInv(s: State) {
    Inv(s.q) && Lives(s) && Quiet(s.q) && (s.q.done != [] ==> s.irq || s.handling)
  }

  lemma Pending(q: Queue)
    requires Inv(q) && q.devIdx != q.availIdx
    ensures q.pending != [] && q.pending[0] in q.chains && q.avail[q.devIdx % NUM] == q.pending[0]
  {
    hide Partition;
    RingEmpty(q.avail, q.devIdx, q.availIdx, q.pending);
    TakeKeeps(q);
  }

  lemma Finished(q: Queue)
    requires Inv(q) && q.seen != q.usedIdx
    ensures q.done != [] && q.done[0] in q.chains && 0 <= q.chains[q.done[0]].b < |q.busy|
    ensures Next(q) == q.done[0] && 0 <= Next(q) < |q.info| && q.chains[Next(q)].phase == Done
    ensures q.info[Next(q)].b == q.chains[Next(q)].b && q.busy[q.chains[Next(q)].b]
  {
    hide Partition;
    RingEmpty(q.used, q.seen, q.usedIdx, q.done);
    ConsumeKeeps(q);
  }

  lemma FirstThere(q: Queue, heads: seq<int>, phase: Phase)
    requires Heads(q, heads, phase) && heads != []
    ensures heads[0] in q.chains
  {}

  lemma InitInv(s: State)
    requires Init(s)
    ensures RunInv(s)
  {
    hide RingHolds, Partition, Heads;
    if s.q.done != [] {
      FirstThere(s.q, s.q.done, Done);
    }
  }

  /** Request `h` moves on by one stage. */
  lemma LivesOn(s: State, s': State, h: int, phase: Phase, stage: Stage)
    requires Lives(s) && h in s.q.chains && s'.q.chains == s.q.chains[h := s.q.chains[h].(phase := phase)]
    requires s'.hist == Noted(s, h, stage) && s'.bufs == s.bufs && s'.id == s.id
    requires Lived(phase) == Lived(s.q.chains[h].phase) + 1 && stage == Life()[Lived(s.q.chains[h].phase)]
    ensures Lives(s')
  {
    assert Live(s, h);
    assert Life()[..Lived(phase)] == Life()[..Lived(s.q.chains[h].phase)] + [stage];
    forall g | g in s'.id ensures Live(s', g) {
      assert Live(s, g);
    }
    assert InFlight(s'.id, s.id[h]);
  }

  lemma LivesPost(s: State, s': State, h: int, c: Chain)
    requires Lives(s) && h !in s.q.chains && c.phase == Posted && s'.q.chains == s.q.chains[h := c]
    requires s'.hist == s.hist + [[SPost]] && s'.bufs == s.bufs + [c.b] && s'.id == s.id[h := |s.hist|]
    ensures Lives(s')
  {
    assert Life()[..1] == [SPost];
    forall g | g in s'.id ensures Live(s', g) {
      if g != h {
        assert Live(s, g);
      }
    }
    forall g | g in s.id ensures s.id[g] != |s.hist| {
      assert Live(s, g);
    }
    assert s'.id[h] == |s.hist| && InFlight(s'.id, |s.hist|);
    forall r | 0 <= r < |s.hist| && InFlight(s.id, r) ensures InFlight(s'.id, r) {
      var g :| g in s.id && s.id[g] == r;
      assert s'.id[g] == r;
    }
  }

  lemma LivesRelease(s: State, s': State, h: int)
    requires Lives(s) && h in s.q.chains && s.q.chains[h].phase == Seen && s'.q.chains == s.q.chains - {h}
    requires s'.hist == Noted(s, h, SRelease) && s'.bufs == s.bufs && s'.id == s.id - {h}
    ensures Lives(s')
  {
    assert Live(s, h);
    assert Life() == Life()[..4] + [SRelease];
    forall g | g in s'.id ensures Live(s', g) {
      assert Live(s, g);
    }
    forall r | 0 <= r < |s.hist| && InFlight(s.id, r) && r != s.id[h] ensures InFlight(s'.id, r) {
      var g :| g in s.id && s.id[g] == r;
      assert s'.id[g] == r;
    }
  }

  lemma StepKeeps(s: State, e: Event)
    requires RunInv(s) && Enabled(s, e)
    ensures RunInv(Apply(s, e))
  {
    hide Inv, Lives, Quiet, Noted;
    match e {
      case EPost(h, c) =>
        PostKeeps(s.q, h, c);
        LivesPost(s, Apply(s, e), h, c);
        QuietPost(s.q, h, c);
      case ETake =>
        Pending(s.q);
        TakeKeeps(s.q);
        PhaseOf(s.q);
        LivesOn(s, Apply(s, e), s.q.pending[0], Taken, STake);
        QuietMove(s.q, Take(s.q));
      case EComplete(h, status) =>
        CompleteKeeps(s.q, h, status);
        Shapes(s.q);
        LivesOn(s, Apply(s, e), h, Done, SComplete);
        QuietMove(s.q, Complete(s.q, h, status));
      case EAck =>
        SameLives(s, Apply(s, e));
      case EConsume =>
        Finished(s.q);
        ConsumeKeeps(s.q);
        LivesOn(s, Apply(s, e), s.q.done[0], Seen, SConsume);
        QuietMove(s.q, Consume(s.q));
      case EReturn =>
        RingsOf(s.q);
        SameLives(s, Apply(s, e));
      case ERelease(h) =>
        Idle(s.q, h);
        ReleaseKeeps(s.q, h);
        LivesRelease(s, Apply(s, e), h);
        QuietRelease(s.q, h);
    }
  }

  lemma SameLives(s: State, s': State)
    requires Lives(s) && s'.q == s.q && s'.hist == s.hist && s'.bufs == s.bufs && s'.id == s.id
    ensures Lives(s')
  {
    forall h | h in s'.id ensures Live(s', h) {
      assert Live(s, h);
    }
  }

  lemma PhaseOf(q: Queue)
    requires Inv(q) && q.pending != []
    ensures q.pending[0] in q.chains && q.chains[q.pending[0]].phase == Posted
  {}

  lemma RingsOf(q: Queue)
    requires Inv(q)
    ensures q.seen == q.usedIdx <==> q.done == []
  {
    hide Partition;
    RingEmpty(q.used, q.seen, q.usedIdx, q.done);
  }

  /** b->disk is clear exactly when the handler has seen the request. */
  lemma Idle(q: Queue, h: int)
    requires Inv(q) && h in q.chains
    ensures ChainOk(q, h) && 0 <= q.chains[h].b < |q.busy| && (!q.busy[q.chains[h].b] <==> q.chains[h].phase == Seen)
  {
    hide RingHolds, Heads;
    ChainIs(q, h);
  }

  lemma QuietPost(q: Queue, h: int, c: Chain)
    requires Inv(q) && CanPost(q, h, c) && Quiet(q) && h !in q.chains
    ensures Quiet(Post(q, h, c))
  {
    hide RingHolds, Heads, Partition;
    var q' := Post(q, h, c);
    forall b | 0 <= b < |q'.busy| && q'.busy[b] ensures exists g :: g in q'.chains && q'.chains[g].b == b {
      if b == c.b {
        assert q'.chains[h].b == b;
      } else {
        var g :| g in q.chains && q.chains[g].b == b;
        assert q'.chains[g].b == b;
      }
    }
  }

  lemma QuietMove(q: Queue, q': Queue)
    requires Quiet(q) && |q'.busy| == |q.busy| && q'.chains.Keys == q.chains.Keys
    requires forall b :: 0 <= b < |q.busy| && q'.busy[b] ==> q.busy[b]
    requires forall h :: h in q.chains ==> q'.chains[h].b == q.chains[h].b
    ensures Quiet(q')
  {
    forall b | 0 <= b < |q'.busy| && q'.busy[b] ensures exists g :: g in q'.chains && q'.chains[g].b == b {
      var g :| g in q.chains && q.chains[g].b == b;
      assert q'.chains[g].b == b;
    }
  }

  lemma QuietRelease(q: Queue, h: int)
    requires Inv(q) && Quiet(q) && h in q.chains && ChainOk(q, h) && q.chains[h].phase == Seen
    ensures Quiet(Release(q, h))
  {
    hide RingHolds, Heads, Partition;
    var q' := Release(q, h);
    forall b | 0 <= b < |q'.busy| && q'.busy[b] ensures exists g :: g in q'.chains && q'.chains[g].b == b {
      var g :| g in q.chains && q.chains[g].b == b;
      assert g in q'.chains && q'.chains[g].b == b;
    }
  }

  /** `es` leads from `s` to `s'`. */
  ghost predicate Leads(s: State, es: seq<Event>, s': State)
    requires RunInv(s)
    decreases |es|
  {
    if es == [] then s' == s
    else Enabled(s, es[0]) && (StepKeeps(s, es[0]); Leads(Apply(s, es[0]), es[1..], s'))
  }

  ghost predicate IsRun(s: State, es: seq<Event>, s': State) {
    Init(s) && (InitInv(s); Leads(s, es, s'))
  }

  lemma {:induction false} RunKeeps(s: State, es: seq<Event>, s': State)
    requires RunInv(s) && Leads(s, es, s')
    ensures RunInv(s')
    decreases |es|
  {
    hide RunInv, Enabled;
    if es != [] {
      StepKeeps(s, es[0]);
      RunKeeps(Apply(s, es[0]), es[1..], s');
    }
  }

  /** In every run each request goes through its life once and in order: it is never completed, seen or freed twice. A
      request that is not in flight any more has been through all of it, and the descriptors not free are those of
      requests in flight. */
  lemma OnceEach(s: State, es: seq<Event>, s': State)
    requires IsRun(s, es, s')
    ensures forall r :: 0 <= r < |s'.hist| ==> s'.hist[r] <= Life()
    ensures forall r :: 0 <= r < |s'.hist| ==>
              (s'.hist[r] < Life() <==> InFlight(s'.id, r))
    ensures s'.id.Keys == s'.q.chains.Keys
    ensures Count(s'.q.free) + 3 * |s'.id| == NUM
  {
    InitInv(s);
    RunKeeps(s, es, s');
    Whole(s');
  }

  lemma Whole(s: State)
    requires RunInv(s)
    ensures forall r :: 0 <= r < |s.hist| ==> s.hist[r] <= Life()
    ensures forall r :: 0 <= r < |s.hist| ==>
              (s.hist[r] < Life() <==> InFlight(s.id, r))
    ensures s.id.Keys == s.q.chains.Keys
    ensures Count(s.q.free) + 3 * |s.id| == NUM
  {
    hide RingHolds, Heads, ChainOk, Count;
    Conserved(s.q);
    assert |s.id.Keys| == |s.q.chains.Keys|;
    forall r | 0 <= r < |s.hist|
      ensures s.hist[r] <= Life() && (s.hist[r] < Life() <==> InFlight(s.id, r))
    {
      if InFlight(s.id, r) {
        var h :| h in s.id && s.id[h] == r;
        assert Live(s, h);
      }
    }
  }

  /** b->disk is set when a request for the buffer is posted and cleared when its completion is seen, and at no other
      step. */
  lemma BusyChanges(s: State, e: Event, b: nat)
    requires RunInv(s) && Enabled(s, e) && b < |s.q.busy|
    ensures |Apply(s, e).q.busy| == |s.q.busy|
    ensures !s.q.busy[b] && Apply(s, e).q.busy[b] <==> e.EPost? && e.c.b == b
    ensures s.q.busy[b] && !Apply(s, e).q.busy[b] <==>
            e.EConsume? && Next(s.q) in s.id && s.id[Next(s.q)] < |s.bufs| && s.bufs[s.id[Next(s.q)]] == b
  {
    hide RingHolds, Heads, Partition, Noted;
    match e {
      case EPost(h, c) =>
      case ETake =>
        Pending(s.q);
      case EComplete(h, status) =>
        CompleteKeeps(s.q, h, status);
      case EConsume =>
        Finished(s.q);
        assert Live(s, Next(s.q));
      case ERelease(h) =>
        ChainIs(s.q, h);
      case EAck =>
      case EReturn =>
    }
  }

  /** No completion goes unnoticed: while the used ring has an entry that the handler has not seen, an interrupt is
      pending or the handler will look again; and when it returns, no finished request is left. */
  lemma NoneMissed(s: State, es: seq<Event>, s': State)
    requires IsRun(s, es, s')
    ensures (exists h :: h in s'.q.chains && s'.q.chains[h].phase == Done) ==> s'.irq || s'.handling
    ensures Enabled(s', EReturn) ==> forall h :: h in s'.q.chains ==> s'.q.chains[h].phase != Done
  {
    hide RingHolds, Partition;
    InitInv(s);
    RunKeeps(s, es, s');
    RingsOf(s'.q);
    NoneDone(s'.q);
  }
}
