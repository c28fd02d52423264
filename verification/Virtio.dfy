/** The virtio queue of kernel/virtio_disk.c, with the device as a second actor (sections 2.6 and 5.2 of VIRTIO 1.1). */
module Virtio {

  const NUM := 8
  const IDX := 0x1_0000                  // ring counters are 16 bits wide

  /** What a descriptor points at: a request header, the data of a buffer, a status byte. */
  datatype Addr = Nowhere | Ops(i: int) | Data(b: int) | Status(i: int)

  datatype Desc = Desc(addr: Addr, len: nat, next: bool, write: bool, link: int)

  /** struct virtio_blk_req */
  datatype Req = Req(write: bool, sector: nat)

  datatype Info = Info(b: int, status: nat)

  /** Where a request is: in the avail ring, with the device, in the used ring, or seen by virtio_disk_intr. */
  datatype Phase = Posted | Taken | Done | Seen

  /** A request in flight, named by its first descriptor. */
  datatype Chain = Chain(d: int, st: int, b: int, req: Req, phase: Phase)

  /** The rings, the driver's books and the device's cursor; from `own` on it is bookkeeping of the proof. */
  datatype Queue = Queue(
    free: seq<bool>, desc: seq<Desc>, ops: seq<Req>, info: seq<Info>, busy: seq<bool>,
    avail: seq<int>, availIdx: nat, devIdx: nat, used: seq<int>, usedIdx: nat, seen: nat,
    own: seq<int>, chains: map<int, Chain>, pending: seq<int>, done: seq<int>)

  function Empty(): Desc { Desc(Nowhere, 0, false, false, 0) }

  ghost predicate NoDup(s: seq<int>) {
    forall i, j :: 0 <= i < j < |s| ==> s[i] != s[j]
  }

  ghost predicate Shaped(q: Queue) {
    && |q.free| == |q.desc| == |q.ops| == |q.info| == |q.avail| == |q.used| == |q.own| == NUM
    && q.availIdx < IDX && q.devIdx < IDX && q.usedIdx < IDX && q.seen < IDX
  }

  /** The descriptors are split into the free ones and three for each request in flight. */
  ghost predicate Partition(q: Queue)
    requires Shaped(q)
  {
    && (forall i :: 0 <= i < NUM ==> (q.free[i] <==> q.own[i] == -1))
    && (forall i :: 0 <= i < NUM && q.own[i] != -1 ==>
          q.own[i] in q.chains && (i == q.own[i] || i == q.chains[q.own[i]].d || i == q.chains[q.own[i]].st))
    && (forall h :: h in q.chains ==> ChainOk(q, h))
  }

  function HeadDesc(h: int, c: Chain): Desc { Desc(Ops(h), 16, true, false, c.d) }

  function DataDesc(c: Chain): Desc { Desc(Data(c.b), 1024, true, !c.req.write, c.st) }

  function StatusDesc(h: int): Desc { Desc(Status(h), 1, false, true, 0) }

  /** The descriptors of request `h` are linked as section 2.6.5 wants, and its record names its buffer. */
  ghost predicate ChainOk(q: Queue, h: int)
    requires Shaped(q) && h in q.chains
  {
    var c := q.chains[h];
    && 0 <= h < NUM && 0 <= c.d < NUM && 0 <= c.st < NUM && h != c.d && h != c.st && c.d != c.st
    && q.own[h] == h && q.own[c.d] == h && q.own[c.st] == h
    && q.desc[h] == HeadDesc(h, c) && q.desc[c.d] == DataDesc(c) && q.desc[c.st] == StatusDesc(h) && q.ops[h] == c.req
    && 0 <= c.b < |q.busy| && q.info[h].b == c.b && (q.busy[c.b] <==> c.phase != Seen)
    && (c.phase == Seen ==> q.info[h].status == 0)
  }

  /** A ring from `from` up to `to`, counters wrapping at 2^16, holds `heads`. */
  ghost predicate RingHolds(ring: seq<int>, from: nat, to: nat, heads: seq<int>)
    requires |ring| == NUM
  {
    && |heads| <= NUM && to == (from + |heads|) % IDX
    && (forall k :: 0 <= k < |heads| ==> ring[At(from, k)] == heads[k])
  }

  /** The slot of entry `k` counted from counter value `from`. */
  function At(from: nat, k: int): (i: nat)
    requires k >= 0
    ensures i < NUM
  {
    (from + k) % IDX % NUM
  }

  ghost predicate Heads(q: Queue, heads: seq<int>, phase: Phase) {
    && NoDup(heads)
    && (forall k :: 0 <= k < |heads| ==> heads[k] in q.chains && q.chains[heads[k]].phase == phase)
    && (forall h :: h in q.chains && q.chains[h].phase == phase ==> h in heads)
  }

  /** No buffer has two requests. */
  ghost predicate OneBufEach(q: Queue) {
    forall h, g :: h in q.chains && g in q.chains && q.chains[h].b == q.chains[g].b ==> h == g
  }

  ghost predicate Inv(q: Queue) {
    && Shaped(q) && Partition(q)
    && OneBufEach(q)
    && Heads(q, q.pending, Posted) && RingHolds(q.avail, q.devIdx, q.availIdx, q.pending)
    && Heads(q, q.done, Done) && RingHolds(q.used, q.seen, q.usedIdx, q.done)
  }

  /** Counters that wrap at 2^16 still index the ring consistently: 8 divides 65536. */
  lemma AtStep(from: nat, k: nat)
    requires from < IDX
    ensures At((from + 1) % IDX, k) == At(from, k + 1)
    ensures At(from, k) == (from + k) % NUM
  {
    assert (from + k) % IDX == from + k - (from + k) / IDX * IDX;
    assert ((from + 1) % IDX + k) % IDX == (from + k + 1) % IDX;
  }

  lemma AtApart(from: nat, k: nat, m: nat)
    requires from < IDX && k < m < k + NUM
    ensures At(from, k) != At(from, m)
  {
    hide At;
    AtStep(from, k);
    AtStep(from, m);
  }

  lemma Advance(from: nat, m: nat)
    requires from < IDX
    ensures (from + m) % IDX % NUM == At(from, m) && ((from + m) % IDX + 1) % IDX == (from + (m + 1)) % IDX
  {}

  lemma RingPush(ring: seq<int>, from: nat, to: nat, heads: seq<int>, h: int)
    requires |ring| == NUM && from < IDX && to < IDX && RingHolds(ring, from, to, heads) && |heads| < NUM
    ensures RingHolds(ring[to % NUM := h], from, (to + 1) % IDX, heads + [h])
  {
    hide At;
    Advance(from, |heads|);
    forall k | 0 <= k < |heads| + 1 ensures ring[to % NUM := h][At(from, k)] == (heads + [h])[k] {
      if k < |heads| {
        AtApart(from, k, |heads|);
      }
    }
  }

  lemma RingPop(ring: seq<int>, from: nat, to: nat, heads: seq<int>)
    requires |ring| == NUM && from < IDX && to < IDX && RingHolds(ring, from, to, heads) && heads != []
    ensures ring[from % NUM] == heads[0] && RingHolds(ring, (from + 1) % IDX, to, heads[1..])
  {
    AtStep(from, 0);
    assert At(from, 0) == from % NUM;
    forall k | 0 <= k < |heads| - 1 ensures ring[At((from + 1) % IDX, k)] == heads[1..][k] {
      AtStep(from, k);
    }
    assert ((from + 1) % IDX + (|heads| - 1)) % IDX == (from + |heads|) % IDX;
  }

  lemma RingEmpty(ring: seq<int>, from: nat, to: nat, heads: seq<int>)
    requires |ring| == NUM && from < IDX && to < IDX && RingHolds(ring, from, to, heads)
    ensures from == to <==> heads == []
  {}

  lemma {:induction false} FewHeads(heads: seq<int>, n: nat)
    requires NoDup(heads) && forall k :: 0 <= k < |heads| ==> 0 <= heads[k] < n
    ensures |heads| <= n
    decreases n
  {
    if heads != [] {
      assert 0 <= heads[0] < n;
      if j :| 0 <= j < |heads| && heads[j] == n - 1 {
        FewHeads(heads[..j] + heads[j + 1..], n - 1);
      } else {
        FewHeads(heads, n - 1);
      }
    }
  }

  /** Request `h` moves on to `phase`. */
  function Moved(q: Queue, h: int, phase: Phase): map<int, Chain>
    requires h in q.chains
  {
    q.chains[h := q.chains[h].(phase := phase)]
  }

  /** virtio_disk_rw posts request `c` on three free descriptors, the first of them `h`. */
  function Post(q: Queue, h: int, c: Chain): Queue
    requires |q.free| == |q.own| == |q.desc| == |q.ops| == |q.info| == |q.avail| == NUM
    requires 0 <= h < NUM && 0 <= c.d < NUM && 0 <= c.st < NUM && 0 <= c.b < |q.busy|
  {
    q.(free := q.free[h := false][c.d := false][c.st := false], own := q.own[h := h][c.d := h][c.st := h],
       desc := q.desc[h := HeadDesc(h, c)][c.d := DataDesc(c)][c.st := StatusDesc(h)], ops := q.ops[h := c.req],
       info := q.info[h := Info(c.b, 0xff)], busy := q.busy[c.b := true],
       avail := q.avail[q.availIdx % NUM := h], availIdx := (q.availIdx + 1) % IDX,
       chains := q.chains[h := c], pending := q.pending + [h])
  }

  ghost predicate CanPost(q: Queue, h: int, c: Chain) {
    && 0 <= h < |q.own| && 0 <= c.d < |q.own| && 0 <= c.st < |q.own| && h != c.d && h != c.st && c.d != c.st
    && q.own[h] == -1 && q.own[c.d] == -1 && q.own[c.st] == -1 && 0 <= c.b < |q.busy| && c.phase == Posted
    && (forall g :: g in q.chains ==> q.chains[g].b != c.b)
  }

  /** Request `h` joins those of its phase. */
  lemma HeadsMore(q: Queue, q': Queue, heads: seq<int>, h: int, c: Chain)
    requires Heads(q, heads, c.phase) && q'.chains == q.chains[h := c]
             && (h in q.chains ==> q.chains[h].phase != c.phase)
    ensures Heads(q', heads + [h], c.phase)
  {
    assert h !in heads;
  }

  lemma HeadsSame(q: Queue, q': Queue, heads: seq<int>, phase: Phase, h: int, c: Chain)
    requires Heads(q, heads, phase) && q'.chains == q.chains[h := c] && c.phase != phase
    requires h in q.chains ==> q.chains[h].phase != phase
    ensures Heads(q', heads, phase)
  {}

  lemma FewOf(q: Queue, heads: seq<int>, phase: Phase)
    requires Shaped(q) && (forall h :: h in q.chains ==> 0 <= h < NUM) && Heads(q, heads, phase)
    ensures |heads| <= NUM
  {
    FewHeads(heads, NUM);
  }

  lemma PostPartition(q: Queue, h: int, c: Chain)
    requires Shaped(q) && Partition(q) && CanPost(q, h, c)
    ensures Partition(Post(q, h, c)) && h !in q.chains
  {
    var q' := Post(q, h, c);
    assert h !in q.chains;
    forall g | g in q'.chains ensures ChainOk(q', g) {
      if g != h {
        assert ChainOk(q, g);
      }
    }
  }

  lemma PostKeeps(q: Queue, h: int, c: Chain)
    requires Inv(q) && CanPost(q, h, c)
    ensures h !in q.chains && Inv(Post(q, h, c))
  {
    hide RingHolds, Heads, ChainOk;
    var q' := Post(q, h, c);
    PostPartition(q, h, c);
    HeadsMore(q, q', q.pending, h, c);
    HeadsSame(q, q', q.done, Done, h, c);
    Numbers(q');
    FewOf(q', q'.pending, Posted);
    RingPush(q.avail, q.devIdx, q.availIdx, q.pending, h);
  }

  lemma Numbers(q: Queue)
    requires Shaped(q) && Partition(q)
    ensures forall h :: h in q.chains ==> 0 <= h < NUM
  {
    forall h | h in q.chains ensures 0 <= h < NUM {
      assert ChainOk(q, h);
    }
  }

  /** The device takes the next entry of the avail ring. */
  function Take(q: Queue): Queue
    requires q.pending != [] && q.pending[0] in q.chains
  {
    q.(devIdx := (q.devIdx + 1) % IDX, pending := q.pending[1..], chains := Moved(q, q.pending[0], Taken))
  }

  /** Moving request `h` on leaves the descriptors as they are. */
  lemma PhaseKeeps(q: Queue, q': Queue, h: int, phase: Phase)
    requires Shaped(q) && Shaped(q') && Partition(q) && OneBufEach(q) && h in q.chains && ChainOk(q, h)
             && q'.chains == Moved(q, h, phase)
    requires q'.free == q.free && q'.own == q.own && q'.desc == q.desc && q'.ops == q.ops
    requires q'.info == q.info[h := q'.info[h]] && q'.info[h].b == q.info[h].b
    requires phase == Seen ==> q'.info[h].status == 0
    requires q'.busy == q.busy[q.chains[h].b := phase != Seen]
    ensures Partition(q') && OneBufEach(q')
  {
    forall g | g in q'.chains ensures ChainOk(q', g) {
      assert ChainOk(q, g);
    }
  }

  lemma TakeKeeps(q: Queue)
    requires Inv(q) && q.pending != []
    ensures q.avail[q.devIdx % NUM] == q.pending[0] && Inv(Take(q))
  {
    hide RingHolds, Partition, OneBufEach;
    var q', h := Take(q), q.pending[0];
    RingPop(q.avail, q.devIdx, q.availIdx, q.pending);
    PendingChain(q);
    assert q'.busy == q.busy[q.chains[h].b := true] && q'.info == q.info[h := q.info[h]];
    PhaseKeeps(q, q', h, Taken);
  }

  /** The device finishes a request: status byte, 0 unless it failed, used ring, counter. */
  function Complete(q: Queue, h: int, status: nat): Queue
    requires h in q.chains && 0 <= h < |q.info| && |q.used| == NUM
  {
    q.(info := q.info[h := q.info[h].(status := status)], used := q.used[q.usedIdx % NUM := h],
         usedIdx := (q.usedIdx + 1) % IDX,
       done := q.done + [h], chains := Moved(q, h, Done))
  }

  lemma CompleteKeeps(q: Queue, h: int, status: nat)
    requires Inv(q) && h in q.chains && q.chains[h].phase == Taken
    ensures 0 <= h < NUM && Inv(Complete(q, h, status))
  {
    hide RingHolds, Heads, Partition, OneBufEach;
    ChainIs(q, h);
    var q', c := Complete(q, h, status), q.chains[h].(phase := Done);
    assert q'.busy == q.busy[q.chains[h].b := true];
    PhaseKeeps(q, q', h, Done);
    HeadsMore(q, q', q.done, h, c);
    HeadsSame(q, q', q.pending, Posted, h, c);
    Numbers(q');
    FewOf(q', q'.done, Done);
    RingPush(q.used, q.seen, q.usedIdx, q.done, h);
  }

  lemma ChainIs(q: Queue, h: int)
    requires Shaped(q) && Partition(q) && h in q.chains
    ensures ChainOk(q, h)
  {}

  /** virtio_disk_intr handles one entry of the used ring. */
  function Consume(q: Queue): Queue
    requires q.done != [] && q.done[0] in q.chains && 0 <= q.chains[q.done[0]].b < |q.busy|
  {
    var h := q.done[0];
    q.(busy := q.busy[q.chains[h].b := false], seen := (q.seen + 1) % IDX, done := q.done[1..],
         chains := Moved(q, h, Seen))
  }

  lemma ConsumeKeeps(q: Queue)
    requires Inv(q) && q.done != []
    ensures var h := q.done[0];
            && h in q.chains && 0 <= h < NUM && 0 <= q.chains[h].b < |q.busy|
            && q.used[q.seen % NUM] == h && ChainOk(q, h) && q.info[h].b == q.chains[h].b && q.busy[q.chains[h].b]
            && (q.info[h].status == 0 ==> Inv(Consume(q)))
  {
    hide RingHolds, Partition, OneBufEach;
    var h := q.done[0];
    ChainIs(q, h);
    RingPop(q.used, q.seen, q.usedIdx, q.done);
    if q.info[h].status == 0 {
      var q' := Consume(q);
      assert q'.info == q.info[h := q.info[h]];
      PhaseKeeps(q, q', h, Seen);
    }
  }

  /** free_chain gives the three descriptors of a finished request back. */
  function Release(q: Queue, h: int): Queue
    requires |q.free| == |q.own| == |q.desc| == |q.info| == NUM && h in q.chains
    requires 0 <= h < NUM && 0 <= q.chains[h].d < NUM && 0 <= q.chains[h].st < NUM
  {
    var d, st := q.chains[h].d, q.chains[h].st;
    q.(free := q.free[h := true][d := true][st := true], own := q.own[h := -1][d := -1][st := -1],
       desc := q.desc[h := Empty()][d := Empty()][st := Empty()], info := q.info[h := q.info[h].(b := -1)],
       chains := q.chains - {h})
  }

  lemma ReleasePartition(q: Queue, h: int)
    requires Shaped(q) && Partition(q) && h in q.chains
    ensures ChainOk(q, h) && Shaped(Release(q, h)) && Partition(Release(q, h))
  {
    assert ChainOk(q, h);
    var q' := Release(q, h);
    forall g | g in q'.chains ensures ChainOk(q', g) {
      assert ChainOk(q, g);
    }
  }

  lemma ReleaseKeeps(q: Queue, h: int)
    requires Inv(q) && h in q.chains && q.chains[h].phase == Seen
    ensures ChainOk(q, h) && Inv(Release(q, h))
  {
    hide RingHolds, Partition;
    ReleasePartition(q, h);
  }

  /** Descriptors are neither lost nor made: those free and three per request are all NUM. */
  lemma {:induction false} Conserved(q: Queue)
    requires Shaped(q) && Partition(q)
    ensures Count(q.free) + 3 * |q.chains| == NUM
    decreases |q.chains|
  {
    hide Partition;
    if |q.chains.Keys| > 0 {
      var h := Some(q.chains.Keys);
      ReleasePartition(q, h);
      var q', c := Release(q, h), q.chains[h];
      assert |q'.chains| == |q.chains| - 1 by { assert q'.chains.Keys == q.chains.Keys - {h}; Sizes(q.chains, h); }
      Conserved(q');
      OwnedNotFree(q, h);
      CountSet(q.free, h, true);
      CountSet(q.free[h := true], c.d, true);
      CountSet(q.free[h := true][c.d := true], c.st, true);
    } else {
      assert q.chains.Keys == {};
      AllFree(q);
    }
  }

  lemma Some<T>(s: set<T>) returns (x: T)
    requires |s| > 0
    ensures x in s
  {
    x :| x in s;
  }

  lemma Sizes(m: map<int, Chain>, h: int)
    requires h in m
    ensures |m - {h}| == |m| - 1
  {
    assert m == (m - {h})[h := m[h]];
  }

  lemma OwnedNotFree(q: Queue, h: int)
    requires Shaped(q) && Partition(q) && h in q.chains
    ensures ChainOk(q, h) && !q.free[h] && !q.free[q.chains[h].d] && !q.free[q.chains[h].st]
  {
    assert ChainOk(q, h);
  }

  lemma AllFree(q: Queue)
    requires Shaped(q) && Partition(q) && q.chains.Keys == {}
    ensures Count(q.free) == NUM
  {
    assert forall i :: 0 <= i < NUM ==> q.free[i];
    CountAll(q.free);
  }

  lemma {:induction false} CountAll(free: seq<bool>)
    requires forall i :: 0 <= i < |free| ==> free[i]
    ensures Count(free) == |free|
  {
    if free != [] {
      CountAll(free[1..]);
    }
  }

  /** The loop of virtio_disk_intr, up to the first request that failed. */
  ghost function ConsumeAll(q: Queue): (r: Queue)
    requires Inv(q)
    ensures Inv(r) && r.info == q.info
    ensures r.done != [] ==> 0 <= r.done[0] < NUM && q.info[r.done[0]].status != 0
    decreases |q.done|
  {
    if q.done == [] then q else ConsumeKeeps(q); if q.info[q.done[0]].status != 0 then q else ConsumeAll(Consume(q))
  }

  /** All requests in the used ring went well. */
  ghost predicate Healthy(q: Queue) {
    forall k :: 0 <= k < |q.done| ==> 0 <= q.done[k] < |q.info| && q.info[q.done[k]].status == 0
  }

  /** The loop comes to the end of the used ring exactly when no request in it failed. */
  lemma {:induction false} EndIffHealthy(q: Queue)
    requires Inv(q)
    ensures ConsumeAll(q).done == [] <==> Healthy(q)
    decreases |q.done|
  {
    hide RingHolds, Partition, ChainOk;
    if q.done != [] {
      ConsumeKeeps(q);
      if q.info[q.done[0]].status == 0 {
        EndIffHealthy(Consume(q));
        assert forall k :: 1 <= k < |q.done| ==> q.done[k] == Consume(q).done[k - 1];
      }
    }
  }

  /** An interrupt clears b->disk for exactly the buffers whose requests it takes from the used ring, which are all in
      it unless one failed, and touches no other request. */
  lemma {:induction false} ClearsExactly(q: Queue)
    requires Inv(q)
    ensures var r := ConsumeAll(q);
            && |r.busy| == |q.busy| && r.chains.Keys == q.chains.Keys && r.free == q.free && r.desc == q.desc
            && (forall h :: h in q.chains ==>
                  r.chains[h] == q.chains[h].(phase := if q.chains[h].phase == Done
                                                       && h !in r.done then Seen else q.chains[h].phase))
            && (forall b :: 0 <= b < |q.busy| ==> (r.busy[b] <==> q.busy[b] && Apart(q, r.done, b)))
    decreases |q.done|
  {
    hide RingHolds, Partition, ChainOk;
    var r := ConsumeAll(q);
    if q.done == [] {
      NoneDone(q);
    } else {
      ConsumeKeeps(q);
      if q.info[q.done[0]].status == 0 {
        var q1, h0 := Consume(q), q.done[0];
        ClearsExactly(q1);
        assert h0 !in r.done;
        forall b | 0 <= b < |q.busy| ensures r.busy[b] <==> q.busy[b] && Apart(q, r.done, b) {
          if b == q.chains[h0].b {
            assert !q1.busy[b];
          } else {
            assert forall h :: h in q.chains && h != h0 ==> q1.chains[h] == q.chains[h];
          }
        }
      } else {
        NoneDone(q);
      }
    }
  }

  /** Buffer `b` is not that of a finished request outside `left`. */
  ghost predicate Apart(q: Queue, left: seq<int>, b: int) {
    forall h :: h in q.chains && q.chains[h].phase == Done && h !in left ==> q.chains[h].b != b
  }

  /** The finished requests are those in the used ring. */
  lemma NoneDone(q: Queue)
    requires Inv(q)
    ensures forall h :: h in q.chains && q.chains[h].phase == Done ==> h in q.done
  {}

  function Count(free: seq<bool>): nat {
    if free == [] then 0 else (if free[0] then 1 else 0) + Count(free[1..])
  }

  lemma {:induction false} CountSet(free: seq<bool>, i: nat, v: bool)
    requires i < |free|
    ensures Count(free[i := v]) == Count(free) - (if free[i] then 1 else 0) + (if v then 1 else 0)
  {
    if i > 0 {
      CountSet(free[1..], i - 1, v);
      assert free[i := v][1..] == free[1..][i - 1 := v];
    } else {
      assert free[i := v][1..] == free[1..];
    }
  }

  lemma {:induction false} CountZero(free: seq<bool>)
    ensures Count(free) == 0 <==> forall i :: 0 <= i < |free| ==> !free[i]
  {
    if free != [] {
      CountZero(free[1..]);
      assert forall i :: 1 <= i < |free| ==> free[i] == free[1..][i - 1];
    }
  }

  /** Descriptors that are free may hold anything. */
  lemma FreeDescs(q: Queue, q': Queue)
    requires Inv(q) && q' == q.(desc := q'.desc) && |q'.desc| == NUM
    requires forall i :: 0 <= i < NUM && !q.free[i] ==> q'.desc[i] == q.desc[i]
    ensures Inv(q')
  {
    hide RingHolds;
    forall h | h in q'.chains ensures ChainOk(q', h) {
      assert ChainOk(q, h);
    }
  }

  class Disk {
    const free: array<bool>
    const desc: array<Desc>
    const ops: array<Req>
    const info: array<Info>
    const busy: array<bool>              // b->disk of every buffer
    const avail: array<int>
    const used: array<int>
    var availIdx: nat
    var usedIdx: nat
    var seen: nat                        // disk.used_idx
    var devIdx: nat                      // how far the device has read the avail ring
    ghost var own: seq<int>
    ghost var chains: map<int, Chain>
    ghost var pending: seq<int>
    ghost var done: seq<int>

    ghost function Q(): Queue
      reads this, free, desc, ops, info, busy, avail, used
    {
      Queue(free[..], desc[..], ops[..], info[..], busy[..], avail[..], availIdx, devIdx, used[..], usedIdx, seen, own,
              chains, pending, done)
    }

    ghost predicate Valid()
      reads this, free, desc, ops, info, busy, avail, used
    {
      free != busy && avail != used && Inv(Q())
    }

    constructor (nbuf: nat)
      ensures Valid() && busy.Length == nbuf && chains == map[]
      ensures fresh(free) && fresh(desc) && fresh(ops) && fresh(info) && fresh(busy) && fresh(avail) && fresh(used)
    {
      free := new bool[NUM](_ => true);
      desc := new Desc[NUM](_ => Empty());
      ops := new Req[NUM](_ => Req(false, 0));
      info := new Info[NUM](_ => Info(-1, 0));
      busy := new bool[nbuf](_ => false);
      avail := new int[NUM](_ => 0);
      used := new int[NUM](_ => 0);
      availIdx, usedIdx, seen, devIdx := 0, 0, 0, 0;
      own, chains, pending, done := seq(NUM, _ => -1), map[], [], [];
    }

    /** alloc_desc: the lowest free descriptor, -1 if there is none. */
    method AllocDesc() returns (i: int)
      requires free.Length == NUM
      modifies free
      ensures -1 <= i < NUM && (i == -1 <==> Count(old(free[..])) == 0)
      ensures i == -1 ==> free[..] == old(free[..])
      ensures i != -1 ==> old(free[i]) && free[..] == old(free[..])[i := false]
      ensures i != -1 ==> forall j :: 0 <= j < i ==> !old(free[j])
      ensures i != -1 ==> Count(free[..]) == Count(old(free[..])) - 1
    {
      CountZero(free[..]);
      i := 0;
      while i < NUM
        invariant 0 <= i <= NUM && forall j :: 0 <= j < i ==> !free[j]
        invariant free[..] == old(free[..])
      {
        if free[i] {
          CountSet(free[..], i, false);
          free[i] := false;
          return;
        }
        i := i + 1;
      }
      i := -1;
    }

    /** free_desc; `false` is one of its panics. */
    method FreeDesc(i: int) returns (ok: bool)
      requires free.Length == desc.Length == NUM && i >= 0
      modifies free, desc
      ensures ok <==> i < NUM && !old(free[i])
      ensures ok ==> free[..] == old(free[..])[i := true] && desc[..] == old(desc[..])[i := Empty()]
      ensures !ok ==> free[..] == old(free[..]) && desc[..] == old(desc[..])
    {
      if i >= NUM {
        return false;
      }
      if free[i] {
        return false;
      }
      desc[i] := Empty();
      free[i] := true;
      ok := true;
    }

    /** alloc3_desc: three descriptors, or none taken. */
    method Alloc3Desc(idx: array<int>) returns (ok: bool)
      requires free.Length == desc.Length == NUM && idx.Length == 3 && idx != avail && idx != used
      modifies free, desc, idx
      ensures ok <==> Count(old(free[..])) >= 3
      ensures !ok ==> free[..] == old(free[..]) && forall i :: 0 <= i < NUM && !free[i] ==> desc[i] == old(desc[i])
      ensures ok ==> desc[..] == old(desc[..]) && 0 <= idx[0] < NUM && 0 <= idx[1] < NUM && 0 <= idx[2] < NUM
      ensures ok ==> idx[0] != idx[1] && idx[0] != idx[2] && idx[1] != idx[2]
      ensures ok ==> old(free[..])[idx[0]] && old(free[..])[idx[1]] && old(free[..])[idx[2]]
      ensures ok ==> free[..] == old(free[..])[idx[0] := false][idx[1] := false][idx[2] := false]
    {
      hide Cleared, Count;
      ghost var f0, d0, taken := free[..], desc[..], [];
      ClearedNone(f0);
      for i := 0 to 3
        invariant |taken| == i && idx[..i] == taken && NoDup(taken)
        invariant forall j :: 0 <= j < i ==> 0 <= taken[j] < NUM && f0[taken[j]]
        invariant desc[..] == d0 && Count(free[..]) == Count(f0) - i && free[..] == Cleared(f0, taken)
      {
        ClearedAt(f0, taken);
        var r := AllocDesc();
        idx[i] := r;
        assert idx[..i] == taken;
        if idx[i] < 0 {
          GiveBack(idx, i, f0, taken);
          return false;
        }
        ClearedMore(f0, taken, r);
        taken := taken + [r];
        assert idx[..i + 1] == taken;
      }
      assert taken == [idx[0], idx[1], idx[2]];
      ClearedThree(f0, idx[0], idx[1], idx[2]);
      ok := true;
    }

    /** The inner loop of alloc3_desc. */
    method GiveBack(idx: array<int>, n: nat, ghost f0: seq<bool>, ghost taken: seq<int>)
      requires free.Length == desc.Length == |f0| == NUM && n <= idx.Length && idx[..n] == taken && NoDup(taken)
      requires idx != avail && idx != used
      requires (forall j :: 0 <= j < n ==> 0 <= taken[j] < NUM && f0[taken[j]]) && free[..] == Cleared(f0, taken)
      modifies free, desc
      ensures free[..] == f0 && forall i :: 0 <= i < NUM && !free[i] ==> desc[i] == old(desc[i])
    {
      for j := 0 to n
        invariant free[..] == Cleared(f0, taken[j..])
        invariant forall i :: 0 <= i < NUM && !f0[i] ==> desc[i] == old(desc[i])
      {
        assert idx[j] == taken[..][j] && idx[..n][j] == idx[j];
        ClearedAt(f0, taken[j..]);
        ClearedAt(f0, taken[j + 1..]);
        assert taken[j..][0] == idx[j] && taken[j..][1..] == taken[j + 1..];
        ghost var f1 := free[..];
        var ok := FreeDesc(idx[j]);
        assert free[..] == Cleared(f0, taken[j + 1..]);
      }
    }

    /** free_chain */
    method FreeChain(h: int)
      requires Valid() && h in chains
      modifies free, desc
      ensures ChainOk(old(Q()), h)
      ensures var c := chains[h]; free[..] == old(free[..])[h := true][c.d := true][c.st := true]
      ensures var c := chains[h]; desc[..] == old(desc[..])[h := Empty()][c.d := Empty()][c.st := Empty()]
    {
      hide RingHolds, Heads;
      ghost var c := chains[h];
      ghost var path := [h, c.d, c.st];
      assert ChainOk(Q(), h);
      var i := h;
      ghost var k := 0;
      while true
        invariant 0 <= k < 3 && i == path[k]
        invariant free[..] ==
                    (if k == 0 then old(free[..]) else if k == 1 then old(free[..])[h := true]
                       else old(free[..])[h := true][c.d := true])
        invariant desc[..] == (if k == 0 then old(desc[..]) else if k == 1 then old(desc[..])[h := Empty()]
                               else old(desc[..])[h := Empty()][c.d := Empty()])
        decreases 3 - k
      {
        var flag, nxt := desc[i].next, desc[i].link;
        var _ := FreeDesc(i);
        if flag {
          i := nxt;
          k := k + 1;
        } else {
          break;
        }
      }
    }

    /** virtio_disk_rw up to the notification; -1 when it has to sleep for descriptors. `sector` is the first sector
        of buffer `b`, which the caller has locked and which has no request in flight. */
    method Submit(b: int, sector: nat, write: bool) returns (h: int)
      requires Valid() && 0 <= b < busy.Length && forall g :: g in chains ==> chains[g].b != b
      modifies this`availIdx, this`own, this`chains, this`pending, free, desc, ops, info, busy, avail
      ensures Valid() && (h == -1 <==> Count(old(free[..])) < 3)
      ensures h == -1 ==> Q() == old(Q()).(desc := desc[..])
      ensures h != -1 ==> h in chains && h !in old(chains) && chains == old(chains)[h := chains[h]]
      ensures h != -1 ==> chains[h].b == b && chains[h].req == Req(write, sector) && chains[h].phase == Posted
      ensures h != -1 ==> CanPost(old(Q()), h, chains[h]) && Q() == Post(old(Q()), h, chains[h])
    {
      hide Inv;
      ghost var q0 := Q();
      Shapes(q0);
      var idx := new int[3];
      var ok := Alloc3Desc(idx);
      if !ok {
        FreeDescs(q0, Q());
        return -1;
      }
      h := idx[0];
      ghost var c := Chain(idx[1], idx[2], b, Req(write, sector), Posted);
      Unowned(q0, idx[0], idx[1], idx[2]);
      PostKeeps(q0, h, c);
      assert Q() == q0.(free := free[..]);
      Format(idx[0], idx[1], idx[2], b, sector, write);
      Publish(h, c);
    }

    /** Fills in the three descriptors, the request header and the record of the request. */
    method Format(i0: int, i1: int, i2: int, b: int, sector: nat, write: bool)
      requires free != busy && desc.Length == ops.Length == info.Length == NUM && 0 <= b < busy.Length
      requires 0 <= i0 < NUM && 0 <= i1 < NUM && 0 <= i2 < NUM && i0 != i1 && i0 != i2 && i1 != i2
      modifies desc, ops, info, busy
      ensures var c := Chain(i1, i2, b, Req(write, sector), Posted);
              Q() == old(Q()).(desc := old(desc[..])[i0 := HeadDesc(i0, c)][i1 := DataDesc(c)][i2 := StatusDesc(i0)],
                               ops := old(ops[..])[i0 := c.req], info := old(info[..])[i0 := Info(b, 0xff)],
                               busy := old(busy[..])[b := true])
    {
      ops[i0] := Req(write, sector);
      desc[i0] := Desc(Ops(i0), 16, true, false, i1);
      desc[i1] := Desc(Data(b), 1024, true, !write, i2);
      info[i0] := Info(info[i0].b, 0xff);
      desc[i2] := Desc(Status(i0), 1, false, true, 0);
      busy[b] := true;
      info[i0] := Info(b, info[i0].status);
    }

    /** Puts the head into the avail ring and advances the counter. */
    method Publish(h: int, ghost c: Chain)
      requires avail != used && avail.Length == NUM && |own| == NUM && 0 <= h < NUM && 0 <= c.d < NUM && 0 <= c.st < NUM
      modifies this`availIdx, this`own, this`chains, this`pending, avail
      ensures Q() == old(Q()).(avail := old(avail[..])[old(availIdx) % NUM := h], availIdx := (old(availIdx) + 1) % IDX,
                               own := old(own)[h := h][c.d := h][c.st := h], chains := old(chains)[h := c],
                                 pending := old(pending) + [h])
    {
      avail[availIdx % NUM] := h;
      availIdx := (availIdx + 1) % IDX;
      own := own[h := h][c.d := h][c.st := h];
      chains, pending := chains[h := c], pending + [h];
    }

    /** The wait loop of virtio_disk_rw and what follows it: once b->disk is clear the descriptors go back. `false`
        while it has to sleep. */
    method Collect(h: int) returns (woke: bool)
      requires Valid() && h in chains
      modifies this`own, this`chains, free, desc, info
      ensures Valid() && (woke <==> old(chains)[h].phase == Seen)
      ensures !woke ==> Q() == old(Q())
      ensures woke ==> ChainOk(old(Q()), h) && Q() == Release(old(Q()), h)
    {
      hide RingHolds, Heads;
      ghost var q0 := Q();
      assert ChainOk(q0, h);
      var b := info[h].b;
      if busy[b] {
        return false;
      }
      ReleaseKeeps(q0, h);
      FreeChain(h);
      info[h] := info[h].(b := -1);
      own := own[h := -1][chains[h].d := -1][chains[h].st := -1];
      chains := chains - {h};
      assert Q() == Release(q0, h);
      woke := true;
    }

    /** virtio_disk_intr; it panics exactly when a request in the used ring has failed, and then at the first of
        them. */
    method Intr() returns (ok: bool)
      requires Valid()
      modifies this`seen, this`chains, this`done, busy
      ensures Valid() && Q() == ConsumeAll(old(Q())) && (ok <==> Healthy(old(Q())))
      ensures ok <==> seen == usedIdx
    {
      hide RingHolds, Heads, Partition, Consume, Healthy;
      ghost var q := Q();
      EndIffHealthy(q);
      ok := true;
      while seen != usedIdx
        invariant Valid() && ConsumeAll(Q()) == ConsumeAll(q)
        decreases |done|
      {
        RingEmpty(used[..], seen, usedIdx, done);
        ok := IntrOne();
        if !ok {
          return;
        }
      }
      RingEmpty(used[..], seen, usedIdx, done);
    }

    /** One entry of the used ring. */
    method IntrOne() returns (ok: bool)
      requires Valid() && done != []
      modifies this`seen, this`chains, this`done, busy
      ensures Valid() && (ok ==> |done| == |old(done)| - 1)
      ensures var q := old(Q());
              && q.done[0] in q.chains && 0 <= q.chains[q.done[0]].b < |q.busy| && 0 <= q.done[0] < |q.info|
              && (ok <==> q.info[q.done[0]].status == 0) && (ok ==> Q() == Consume(q))
      ensures !ok ==> Q() == old(Q()) && ConsumeAll(Q()) == Q()
      ensures ConsumeAll(Q()) == ConsumeAll(old(Q()))
    {
      hide RingHolds, Heads, Partition;
      ghost var q := Q();
      ConsumeKeeps(q);
      var id := used[seen % NUM];
      if info[id].status != 0 {
        return false;
      }
      var b := info[id].b;
      busy[b] := false;
      seen := (seen + 1) % IDX;
      chains, done := chains[id := chains[id].(phase := Seen)], done[1..];
      assert Q() == Consume(q);
      ok := true;
    }

    /** The device reads the next head from the avail ring. */
    method DevTake() returns (h: int)
      requires Valid()
      modifies this`devIdx, this`chains, this`pending
      ensures Valid() && (h == -1 <==> old(pending) == [])
      ensures h == -1 ==> Q() == old(Q())
      ensures h != -1 ==> h == old(pending)[0] && h in old(chains) && Q() == Take(old(Q()))
    {
      hide RingHolds, Partition;
      RingEmpty(avail[..], devIdx, availIdx, pending);
      if devIdx == availIdx {
        return -1;
      }
      ghost var q := Q();
      TakeKeeps(q);
      h := avail[devIdx % NUM];
      assert ChainOk(q, h) by { PendingChain(q); }
      devIdx := (devIdx + 1) % IDX;
      chains, pending := chains[h := chains[h].(phase := Taken)], pending[1..];
      assert Q() == Take(q);
    }

    /** The device finishes a request it has taken: it finds the status byte through the descriptors. */
    method DevComplete(h: int, status: nat)
      requires Valid() && h in chains && chains[h].phase == Taken
      modifies this`usedIdx, this`chains, this`done, info, used
      ensures Valid() && 0 <= h < NUM && Q() == Complete(old(Q()), h, status)
    {
      hide RingHolds, Heads;
      ghost var q := Q();
      assert ChainOk(q, h);
      CompleteKeeps(q, h, status);
      var st := desc[desc[h].link].link;
      var at := desc[st].addr.i;
      info[at] := info[at].(status := status);
      used[usedIdx % NUM] := h;
      usedIdx := (usedIdx + 1) % IDX;
      chains, done := chains[h := chains[h].(phase := Done)], done + [h];
      assert Q() == Complete(q, h, status);
    }
  }

  lemma Unowned(q: Queue, a: int, b: int, c: int)
    requires Inv(q) && 0 <= a < NUM && 0 <= b < NUM && 0 <= c < NUM && q.free[a] && q.free[b] && q.free[c]
    ensures q.own[a] == -1 && q.own[b] == -1 && q.own[c] == -1
  {}

  lemma Shapes(q: Queue)
    requires Inv(q)
    ensures |q.free| == |q.desc| == |q.ops| == |q.info| == |q.avail| == |q.used| == |q.own| == NUM
  {}

  lemma PendingChain(q: Queue)
    requires Inv(q) && q.pending != []
    ensures q.pending[0] in q.chains && ChainOk(q, q.pending[0])
  {}

  /** `free` with some descriptors taken. */
  function Cleared(free: seq<bool>, taken: seq<int>): (r: seq<bool>)
    ensures |r| == |free|
  {
    seq(|free|, i requires 0 <= i < |free| => free[i] && i !in taken)
  }

  lemma ClearedAt(free: seq<bool>, taken: seq<int>)
    ensures forall i :: 0 <= i < |free| ==> (Cleared(free, taken)[i] <==> free[i] && i !in taken)
    ensures forall j :: 0 <= j < |taken| && 0 <= taken[j] < |free| ==> !Cleared(free, taken)[taken[j]]
  {}

  lemma ClearedNone(free: seq<bool>)
    ensures Cleared(free, []) == free
  {}

  lemma ClearedMore(free: seq<bool>, taken: seq<int>, r: int)
    requires 0 <= r < |free|
    ensures Cleared(free, taken)[r := false] == Cleared(free, taken + [r])
  {}

  lemma ClearedThree(free: seq<bool>, a: int, b: int, c: int)
    requires 0 <= a < |free| && 0 <= b < |free| && 0 <= c < |free|
    ensures Cleared(free, [a, b, c]) == free[a := false][b := false][c := false]
  {}
}
