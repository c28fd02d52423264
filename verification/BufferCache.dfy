/** The buffer cache of kernel/bio.c: NBUF buffers on one doubly linked ring in order of
    use, in front of a disk whose writes are atomic and ordered. */
module BufferCache {

  const BWORDS := 256                 // BSIZE / sizeof(uint)

  type Block = b: seq<int> | |b| == BWORDS witness seq(BWORDS, _ => 0)
  datatype Addr = Addr(dev: nat, blockno: nat)
  type Disk = map<Addr, Block>

  datatype Buf = Buf(valid: bool, at: Addr, refcnt: int, data: Block)

  datatype Option<T> = None | Some(value: T)

  ghost predicate NoDup<T>(s: seq<T>) {
    forall i, j :: 0 <= i < j < |s| ==> s[i] != s[j]
  }

  /** The element after position `i` of a cycle. */
  ghost function After(r: seq<nat>, i: nat): nat
    requires i < |r|
  {
    if i + 1 < |r| then r[i + 1] else r[0]
  }

  ghost predicate Linked(next: seq<nat>, prev: seq<nat>, r: seq<nat>, i: nat)
    requires i < |r|
  {
    && r[i] < |next| && next[r[i]] == After(r, i)
    && After(r, i) < |prev| && prev[After(r, i)] == r[i]
  }

  /** `next` and `prev` lead once around the cycle `r` in both directions. */
  ghost predicate Ring(next: seq<nat>, prev: seq<nat>, r: seq<nat>) {
    && r != [] && |next| == |prev| && NoDup(r)
    && forall i :: 0 <= i < |r| ==> Linked(next, prev, r, i)
  }

  /** Taking the element at position `k` out of the cycle. */
  lemma Unlink(next: seq<nat>, prev: seq<nat>, r: seq<nat>, k: nat)
    requires Ring(next, prev, r) && 0 < k < |r|
    ensures var b := r[k];
            && Linked(next, prev, r, k) && Linked(next, prev, r, k - 1)
            && Ring(next[prev[b] := next[b]], prev[next[b] := prev[b]], r[..k] + r[k + 1..])
  {
    var b := r[k];
    assert Linked(next, prev, r, k) && Linked(next, prev, r, k - 1);
    var p, x := prev[b], next[b];
    var next', prev', r' := next[p := x], prev[x := p], r[..k] + r[k + 1..];
    forall i | 0 <= i < |r'| ensures Linked(next', prev', r', i) {
      var j := if i < k then i else i + 1;
      assert Linked(next, prev, r, j);
      assert r'[i] == r[j];
    }
  }

  /** Putting `b` right behind the head. */
  lemma InsertFront(next: seq<nat>, prev: seq<nat>, r: seq<nat>, b: nat)
    requires Ring(next, prev, r) && b !in r && b < |next|
    ensures Linked(next, prev, r, 0)
    ensures var h := r[0];
            var first := next[h];
            Ring(next[b := first][h := b], prev[b := h][first := b], [h, b] + r[1..])
  {
    var h := r[0];
    assert Linked(next, prev, r, 0);
    var first := next[h];
    var next', prev', r' := next[b := first][h := b], prev[b := h][first := b], [h, b] + r[1..];
    forall i | 0 <= i < |r'| ensures Linked(next', prev', r', i) {
      if i >= 2 {
        assert Linked(next, prev, r, i - 1);
      }
    }
  }

  /** The buffers agree with the disk: no two hold the same block of a device other than 0, and a
      buffer nobody references is clean. */
  ghost predicate BufsInv(bufs: seq<Buf>, disk: Disk) {
    && (forall a :: a in disk ==> a.dev != 0)
    && (forall i :: 0 <= i < |bufs| ==> BufOk(bufs[i], disk))
    && (forall i, j :: 0 <= i < j < |bufs| && bufs[i].at == bufs[j].at ==> bufs[i].at.dev == 0)
  }

  ghost predicate BufOk(b: Buf, disk: Disk) {
    && b.refcnt >= 0
    && (b.valid || b.refcnt > 0 ==> b.at in disk)
    && (b.valid && b.refcnt == 0 ==> b.data == disk[b.at])
  }

  ghost predicate HoldsBlock(bufs: seq<Buf>, i: int, a: Addr) {
    0 <= i < |bufs| && bufs[i].valid && bufs[i].at == a
  }

  /** What a reader of block `a` must get: the cached contents, else the disk's. */
  ghost function Latest(bufs: seq<Buf>, disk: Disk, a: Addr): Block
    requires a in disk
  {
    if i :| HoldsBlock(bufs, i, a) then bufs[i].data else disk[a]
  }

  ghost function ViewOf(bufs: seq<Buf>, disk: Disk): Disk {
    map a | a in disk :: Latest(bufs, disk, a)
  }

  lemma LatestIs(bufs: seq<Buf>, disk: Disk, i: int)
    requires BufsInv(bufs, disk) && 0 <= i < |bufs| && bufs[i].valid
    ensures bufs[i].at in disk && Latest(bufs, disk, bufs[i].at) == bufs[i].data
  {
    assert BufOk(bufs[i], disk);
    assert HoldsBlock(bufs, i, bufs[i].at);
  }

  /** Changing one buffer changes the latest contents of its block only. */
  lemma LatestElsewhere(bufs: seq<Buf>, disk: Disk, i: int, b: Buf, disk': Disk, a: Addr)
    requires BufsInv(bufs, disk) && 0 <= i < |bufs| && BufsInv(bufs[i := b], disk')
    requires a in disk && a in disk' && disk'[a] == disk[a]
    requires (bufs[i].valid ==> bufs[i].at != a) && (b.valid ==> b.at != a)
    ensures Latest(bufs[i := b], disk', a) == Latest(bufs, disk, a)
  {
    var bufs' := bufs[i := b];
    if j :| HoldsBlock(bufs, j, a) {
      assert HoldsBlock(bufs', j, a);
      LatestIs(bufs, disk, j);
      LatestIs(bufs', disk', j);
    } else {
      forall j ensures !HoldsBlock(bufs', j, a) {
        assert !HoldsBlock(bufs, j, a);
      }
    }
  }

  /** A buffer keeps its block and contents: nobody can tell. */
  lemma SameView(bufs: seq<Buf>, disk: Disk, i: int, b: Buf)
    requires BufsInv(bufs, disk) && 0 <= i < |bufs| && BufOk(b, disk)
    requires b.at == bufs[i].at && b.valid == bufs[i].valid && (b.valid ==> b.data == bufs[i].data)
    ensures BufsInv(bufs[i := b], disk) && ViewOf(bufs[i := b], disk) == ViewOf(bufs, disk)
  {
    var bufs' := bufs[i := b];
    forall a | a in disk ensures Latest(bufs', disk, a) == Latest(bufs, disk, a) {
      if b.valid && b.at == a {
        LatestIs(bufs, disk, i);
        LatestIs(bufs', disk, i);
      } else {
        LatestElsewhere(bufs, disk, i, b, disk, a);
      }
    }
  }

  /** A clean, unreferenced buffer is recycled for a block that no buffer holds. */
  lemma Recycle(bufs: seq<Buf>, disk: Disk, i: int, b: Buf)
    requires BufsInv(bufs, disk) && 0 <= i < |bufs| && bufs[i].refcnt == 0
    requires b.at in disk && b.refcnt == 1 && !b.valid
    requires forall j :: 0 <= j < |bufs| ==> bufs[j].at != b.at
    ensures BufsInv(bufs[i := b], disk) && ViewOf(bufs[i := b], disk) == ViewOf(bufs, disk)
  {
    var bufs' := bufs[i := b];
    assert BufOk(bufs[i], disk);
    forall a | a in disk ensures Latest(bufs', disk, a) == Latest(bufs, disk, a) {
      if bufs[i].valid && bufs[i].at == a {
        LatestIs(bufs, disk, i);
        forall j ensures !HoldsBlock(bufs', j, a) {}
      } else {
        LatestElsewhere(bufs, disk, i, b, disk, a);
      }
    }
  }

  /** virtio_disk_rw(b, 0): an invalid buffer receives the disk's contents. */
  lemma Fetch(bufs: seq<Buf>, disk: Disk, i: int)
    requires BufsInv(bufs, disk) && 0 <= i < |bufs| && !bufs[i].valid && bufs[i].at in disk
    ensures var bufs' := bufs[i := bufs[i].(valid := true, data := disk[bufs[i].at])];
            BufsInv(bufs', disk) && ViewOf(bufs', disk) == ViewOf(bufs, disk)
  {
    var bufs' := bufs[i := bufs[i].(valid := true, data := disk[bufs[i].at])];
    assert BufOk(bufs[i], disk);
    forall a | a in disk ensures Latest(bufs', disk, a) == Latest(bufs, disk, a) {
      if bufs[i].at == a {
        LatestIs(bufs', disk, i);
        forall j ensures !HoldsBlock(bufs, j, a) {}
      } else {
        LatestElsewhere(bufs, disk, i, bufs'[i], disk, a);
      }
    }
  }

  /** The holder of a referenced buffer changes its data. */
  lemma Modify(bufs: seq<Buf>, disk: Disk, i: int, data: Block)
    requires BufsInv(bufs, disk) && 0 <= i < |bufs| && bufs[i].valid && bufs[i].refcnt > 0
    ensures var bufs' := bufs[i := bufs[i].(data := data)];
            BufsInv(bufs', disk) && ViewOf(bufs', disk) == ViewOf(bufs, disk)[bufs[i].at := data]
  {
    var bufs' := bufs[i := bufs[i].(data := data)];
    assert BufOk(bufs[i], disk);
    forall a | a in disk ensures Latest(bufs', disk, a) == if a == bufs[i].at then data else Latest(bufs, disk, a) {
      if bufs[i].at == a {
        LatestIs(bufs', disk, i);
      } else {
        LatestElsewhere(bufs, disk, i, bufs'[i], disk, a);
      }
    }
  }

  /** bwrite moves the buffer's contents to the disk; readers see no difference. */
  lemma Flush(bufs: seq<Buf>, disk: Disk, i: int)
    requires BufsInv(bufs, disk) && 0 <= i < |bufs| && bufs[i].valid
    ensures bufs[i].at in disk
    ensures var disk' := disk[bufs[i].at := bufs[i].data];
            BufsInv(bufs, disk') && ViewOf(bufs, disk') == ViewOf(bufs, disk)
  {
    assert BufOk(bufs[i], disk);
    var disk' := disk[bufs[i].at := bufs[i].data];
    forall j | 0 <= j < |bufs| ensures BufOk(bufs[j], disk') {
      assert BufOk(bufs[j], disk);
    }
    forall a | a in disk ensures Latest(bufs, disk', a) == Latest(bufs, disk, a) {
      if bufs[i].at == a {
        LatestIs(bufs, disk, i);
        LatestIs(bufs, disk', i);
      } else {
        assert bufs[i := bufs[i]] == bufs;
        LatestElsewhere(bufs, disk, i, bufs[i], disk', a);
      }
    }
  }

  /** Moving an element to the front of a cycle loses none. */
  lemma FrontCovers(r: seq<nat>, k: nat)
    requires NoDup(r) && 0 < k < |r|
    ensures var r1 := r[..k] + r[k + 1..];
            && r[k] !in r1 && r1[0] == r[0] && r1 != []
            && (forall x :: x in r ==> x in [r[0], r[k]] + r1[1..])
            && [r[0], r[k]] + r1[1..] == [r[0], r[k]] + r[1..k] + r[k + 1..]
  {
    var r1 := r[..k] + r[k + 1..];
    forall x | x in r ensures x in [r[0], r[k]] + r1[1..] {
      var i :| 0 <= i < |r| && r[i] == x;
      if i != k && i != 0 {
        assert r1[1..][if i < k then i - 1 else i - 2] == x;
      }
    }
  }

  lemma BlankView(bufs: seq<Buf>, disk: Disk)
    requires forall a :: a in disk ==> a.dev != 0
    requires forall i :: 0 <= i < |bufs| ==> !bufs[i].valid && bufs[i].at == Addr(0, 0) && bufs[i].refcnt == 0
    ensures BufsInv(bufs, disk) && ViewOf(bufs, disk) == disk
  {}

  class Cache {
    const nbuf: nat                  // NBUF; also the index of the list head
    const next: array<nat>
    const prev: array<nat>
    const bufs: array<Buf>
    var disk: Disk
    ghost var ring: seq<nat>         // the head, then the buffers from most to least recently used
    ghost var trace: seq<Disk>       // the disk after each write

    ghost predicate Valid()
      reads this, next, prev, bufs
    {
      && next.Length == prev.Length == nbuf + 1 && bufs.Length == nbuf && next != prev
      && RingInv(next[..], prev[..], ring, nbuf)
      && BufsInv(bufs[..], disk)
    }

    /** One cycle through the head and all buffers. */
    static ghost predicate RingInv(next: seq<nat>, prev: seq<nat>, ring: seq<nat>, nbuf: nat) {
      && Ring(next, prev, ring) && ring[0] == nbuf
      && (forall j :: 1 <= j < |ring| ==> ring[j] < nbuf)
      && (forall b: nat :: b < nbuf ==> b in ring)
    }

    ghost function View(): Disk
      reads this, bufs
    {
      ViewOf(bufs[..], disk)
    }

    /** The statically zeroed cache in front of a disk without blocks of device 0. */
    constructor (nbuf: nat, disk: Disk, zero: Block)
      requires forall a :: a in disk ==> a.dev != 0
      ensures this.nbuf == nbuf && this.disk == disk && trace == [] && Blank()
      ensures fresh(next) && fresh(prev) && fresh(bufs)
    {
      this.nbuf := nbuf;
      next := new nat[nbuf + 1];
      prev := new nat[nbuf + 1];
      bufs := new Buf[nbuf](_ => Buf(false, Addr(0, 0), 0, zero));
      this.disk := disk;
      ring, trace := [], [];
    }

    ghost predicate Blank()
      reads this, next, prev, bufs
    {
      && next.Length == prev.Length == nbuf + 1 && bufs.Length == nbuf && next != prev
      && (forall a :: a in disk ==> a.dev != 0)
      && (forall i :: 0 <= i < nbuf ==> !bufs[i].valid && bufs[i].at == Addr(0, 0) && bufs[i].refcnt == 0)
    }

    /** binit: links all buffers behind the head. */
    method BInit()
      requires Blank()
      modifies this`ring, next, prev
      ensures Valid() && View() == disk
    {
      next[nbuf], prev[nbuf] := nbuf, nbuf;
      ring := [nbuf];
      assert Linked(next[..], prev[..], ring, 0);
      var b: nat := 0;
      while b < nbuf
        invariant 0 <= b <= nbuf && Ring(next[..], prev[..], ring) && ring[0] == nbuf
        invariant forall j :: 1 <= j < |ring| ==> ring[j] < b
        invariant forall x: nat :: x < b ==> x in ring[1..]
      {
        ghost var r := ring;
        PushFront(b);
        assert ring[1..] == [b] + r[1..];
        b := b + 1;
      }
      assert ring == [nbuf] + ring[1..];
      BlankView(bufs[..], disk);
    }

    /** The first scan of bget, along `next`. */
    method FindCached(a: Addr) returns (b: nat)
      requires Valid()
      ensures b <= nbuf
      ensures b < nbuf ==> bufs[b].at == a
      ensures b == nbuf ==> forall i :: 0 <= i < nbuf ==> bufs[i].at != a
    {
      b := next[nbuf];
      ghost var k := 1;
      assert Linked(next[..], prev[..], ring, 0);
      while b != nbuf
        invariant 1 <= k <= |ring| && b == (if k < |ring| then ring[k] else ring[0])
        invariant forall j :: 1 <= j < k ==> bufs[ring[j]].at != a
        decreases |ring| - k
      {
        assert b in ring && k < |ring|;
        if bufs[b].at == a {
          return;
        }
        assert Linked(next[..], prev[..], ring, k);
        b := next[b];
        k := k + 1;
      }
      forall i | 0 <= i < nbuf ensures bufs[i].at != a {
        assert i in ring;
      }
    }

    /** The second scan of bget, along `prev`: the least recently used unreferenced buffer. */
    method FindUnused() returns (b: nat, ghost k: nat)
      requires Valid()
      ensures b <= nbuf
      ensures b < nbuf ==> bufs[b].refcnt == 0 && 1 <= k < |ring| && ring[k] == b
      ensures b < nbuf ==> forall j :: k < j < |ring| ==> bufs[ring[j]].refcnt != 0
      ensures b == nbuf ==> forall i :: 0 <= i < nbuf ==> bufs[i].refcnt != 0
    {
      b := prev[nbuf];
      k := |ring| - 1;
      assert Linked(next[..], prev[..], ring, |ring| - 1);
      while b != nbuf
        invariant 0 <= k < |ring| && b == ring[k]
        invariant forall j :: k < j < |ring| ==> bufs[ring[j]].refcnt != 0
        decreases k
      {
        assert b in ring && k > 0;
        if bufs[b].refcnt == 0 {
          return;
        }
        assert Linked(next[..], prev[..], ring, k - 1);
        b := prev[b];
        k := k - 1;
      }
      assert k == 0;
      forall i | 0 <= i < nbuf ensures bufs[i].refcnt != 0 {
        assert i in ring;
      }
    }

    /** Somebody can still be served block `a`: it is cached, or some buffer is unreferenced. */
    ghost predicate Room(a: Addr)
      reads this, bufs
    {
      exists i :: 0 <= i < bufs.Length && (bufs[i].at == a || bufs[i].refcnt == 0)
    }

    /** Buffers other than `b` keep their block and data, and the references others hold. */
    static ghost predicate OthersKept(before: seq<Buf>, after: seq<Buf>, b: nat) {
      |after| == |before| && forall i :: 0 <= i < |before| && i != b ==> after[i] == before[i]
    }

    /** bget: the buffer of block `a`, one reference more; None is the panic when all are in use. */
    method BGet(a: Addr) returns (r: Option<nat>)
      requires Valid() && a in disk
      modifies bufs
      ensures Valid() && View() == old(View())
      ensures r.Some? <==> old(Room(a))
      ensures r.None? ==> bufs[..] == old(bufs[..])
      ensures r.Some? ==> r.value < nbuf && OthersKept(old(bufs[..]), bufs[..], r.value)
      ensures r.Some? ==> bufs[r.value].at == a && bufs[r.value].refcnt >= 1
      ensures r.Some? && old(bufs[r.value].at) == a ==>
                bufs[r.value] == old(bufs[r.value]).(refcnt := old(bufs[r.value].refcnt) + 1)
      ensures r.Some? && old(bufs[r.value].at) != a ==>
                old(bufs[r.value].refcnt) == 0 && bufs[r.value].refcnt == 1 && !bufs[r.value].valid
    {
      var b := FindCached(a);
      if b < nbuf {
        assert BufOk(bufs[b], disk);
        SameView(bufs[..], disk, b, bufs[b].(refcnt := bufs[b].refcnt + 1));
        bufs[b] := bufs[b].(refcnt := bufs[b].refcnt + 1);
        assert bufs[..] == old(bufs[..])[b := bufs[b]];
        return Some(b);
      }
      ghost var k;
      b, k := FindUnused();
      if b < nbuf {
        var fresh_ := bufs[b].(valid := false, at := a, refcnt := 1);
        Recycle(bufs[..], disk, b, fresh_);
        bufs[b] := fresh_;
        assert bufs[..] == old(bufs[..])[b := bufs[b]];
        return Some(b);
      }
      return None;
    }

    /** bread: the buffer holds the latest contents of the block. */
    method BRead(a: Addr) returns (r: Option<nat>)
      requires Valid() && a in disk
      modifies bufs
      ensures Valid() && View() == old(View())
      ensures r.Some? <==> old(Room(a))
      ensures r.None? ==> bufs[..] == old(bufs[..])
      ensures r.Some? ==> r.value < nbuf && OthersKept(old(bufs[..]), bufs[..], r.value)
      ensures r.Some? ==> bufs[r.value].at == a && bufs[r.value].valid && bufs[r.value].data == View()[a]
      ensures r.Some? ==>
                bufs[r.value].refcnt == 1 + (if old(bufs[r.value].at) == a then old(bufs[r.value].refcnt) else 0)
      ensures r.Some? && old(bufs[r.value].at) != a ==> old(bufs[r.value].refcnt) == 0
    {
      r := BGet(a);
      if r.Some? {
        var b := r.value;
        if !bufs[b].valid {
          ghost var before := bufs[..];
          Fetch(before, disk, b);
          bufs[b] := bufs[b].(valid := true, data := disk[a]);
          assert bufs[..] == before[b := bufs[b]];
        }
        LatestIs(bufs[..], disk, b);
      }
    }

    /** A store to b->data by the process that holds the buffer. */
    method SetData(b: nat, data: Block)
      requires Valid() && b < nbuf && bufs[b].valid && bufs[b].refcnt > 0
      modifies bufs
      ensures Valid() && bufs[..] == old(bufs[..])[b := old(bufs[b]).(data := data)]
      ensures View() == old(View())[bufs[b].at := data]
    {
      Modify(bufs[..], disk, b, data);
      bufs[b] := bufs[b].(data := data);
      assert bufs[..] == old(bufs[..])[b := bufs[b]];
    }

    /** bwrite: one atomic write of the disk. */
    method BWrite(b: nat)
      requires Valid() && b < nbuf && bufs[b].valid
      modifies this`disk, this`trace
      ensures Valid() && View() == old(View())
      ensures disk == old(disk)[bufs[b].at := bufs[b].data] && disk.Keys == old(disk).Keys
      ensures trace == old(trace) + [disk]
    {
      Flush(bufs[..], disk, b);
      disk := disk[bufs[b].at := bufs[b].data];
      trace := trace + [disk];
    }

    /** bpin */
    method BPin(b: nat)
      requires Valid() && b < nbuf && bufs[b].refcnt > 0
      modifies bufs
      ensures Valid() && View() == old(View())
      ensures bufs[..] == old(bufs[..])[b := old(bufs[b]).(refcnt := old(bufs[b].refcnt) + 1)]
    {
      hide Ring, Linked, ViewOf;
      assert BufOk(bufs[b], disk);
      SameView(bufs[..], disk, b, bufs[b].(refcnt := bufs[b].refcnt + 1));
      bufs[b] := bufs[b].(refcnt := bufs[b].refcnt + 1);
      assert bufs[..] == old(bufs[..])[b := bufs[b]];
    }

    /** bunpin: the last reference may go only when the disk has the contents. */
    method BUnpin(b: nat)
      requires Valid() && b < nbuf && bufs[b].refcnt > 0
      requires bufs[b].valid && bufs[b].refcnt == 1 ==> bufs[b].data == disk[bufs[b].at]
      modifies bufs
      ensures Valid() && View() == old(View())
      ensures bufs[..] == old(bufs[..])[b := old(bufs[b]).(refcnt := old(bufs[b].refcnt) - 1)]
    {
      hide Ring, Linked, ViewOf;
      assert BufOk(bufs[b], disk);
      SameView(bufs[..], disk, b, bufs[b].(refcnt := bufs[b].refcnt - 1));
      bufs[b] := bufs[b].(refcnt := bufs[b].refcnt - 1);
      assert bufs[..] == old(bufs[..])[b := bufs[b]];
    }

    /** brelse: drops the reference; an unreferenced buffer moves to the front of the ring. */
    method BRelse(b: nat)
      requires Valid() && b < nbuf && bufs[b].refcnt > 0
      requires bufs[b].valid && bufs[b].refcnt == 1 ==> bufs[b].data == disk[bufs[b].at]
      modifies this`ring, bufs, next, prev
      ensures Valid() && View() == old(View())
      ensures bufs[..] == old(bufs[..])[b := old(bufs[b]).(refcnt := old(bufs[b].refcnt) - 1)]
      ensures old(bufs[b].refcnt) > 1 ==> ring == old(ring)
      ensures old(bufs[b].refcnt) == 1 ==>
                exists k :: 1 <= k < |old(ring)| && old(ring)[k] == b
                            && ring == [nbuf, b] + old(ring)[1..k] + old(ring)[k + 1..]
    {
      BUnpin(b);
      if bufs[b].refcnt == 0 {
        ToFront(b);
      }
    }

    /** The relinking at the end of brelse. */
    method ToFront(b: nat)
      requires Valid() && b < nbuf
      modifies this`ring, next, prev
      ensures Valid()
      ensures exists k :: 1 <= k < |old(ring)| && old(ring)[k] == b
                          && ring == [nbuf, b] + old(ring)[1..k] + old(ring)[k + 1..]
    {
      hide BufOk, ViewOf, NoDup;
      assert b in ring;
      ghost var k :| 0 <= k < |ring| && ring[k] == b;
      FrontCovers(ring, k);
      TakeOut(b, k);
      PushFront(b);
      assert ring == [nbuf, b] + old(ring)[1..k] + old(ring)[k + 1..];
    }

    method TakeOut(b: nat, ghost k: nat)
      requires next.Length == prev.Length == nbuf + 1 && next != prev
      requires Ring(next[..], prev[..], ring) && 0 < k < |ring| && ring[k] == b <= nbuf
      modifies this`ring, next, prev
      ensures ring == old(ring)[..k] + old(ring)[k + 1..] && Ring(next[..], prev[..], ring)
    {
      hide NoDup;
      Unlink(next[..], prev[..], ring, k);
      ghost var n0: seq<nat>, p0: seq<nat> := next[..], prev[..];
      prev[next[b]] := prev[b];
      next[prev[b]] := next[b];
      assert next[..] == n0[p0[b] := n0[b]];
      assert prev[..] == p0[n0[b] := p0[b]];
      ring := ring[..k] + ring[k + 1..];
    }

    /** The four pointer writes that put a buffer behind the head. */
    method PushFront(b: nat)
      requires next.Length == prev.Length == nbuf + 1 && next != prev && b < nbuf
      requires Ring(next[..], prev[..], ring) && ring[0] == nbuf && b !in ring
      modifies this`ring, next, prev
      ensures ring == [nbuf, b] + old(ring)[1..] && Ring(next[..], prev[..], ring)
    {
      hide NoDup;
      InsertFront(next[..], prev[..], ring, b);
      ghost var n0: seq<nat>, p0: seq<nat> := next[..], prev[..];
      next[b] := next[nbuf];
      prev[b] := nbuf;
      prev[next[nbuf]] := b;
      next[nbuf] := b;
      assert next[..] == n0[b := n0[nbuf]][nbuf := b];
      assert prev[..] == p0[b := nbuf][n0[nbuf] := b];
      ring := [nbuf, b] + ring[1..];
    }
  }
}
