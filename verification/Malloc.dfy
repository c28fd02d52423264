/** The allocator of user/umalloc.c (section 8.7 of Kernighan and Ritchie). Addresses count 16-byte headers. */
module Malloc {

  /** `list` is the circular free list from the base header on, `size` the sizes in the headers, `live` the blocks
      handed out. `tag` names for each unit of memory the block it belongs to, 0 for none: it is bookkeeping of the
      proof. */
  datatype Heap = Heap(list: seq<int>, ptr: map<int, int>, size: map<int, int>, live: set<int>, tag: int -> int)

  /** Block `a` is on the free list or in use. */
  ghost predicate Block(h: Heap, a: int) {
    (a in h.list && a != h.list[0]) || a in h.live
  }

  ghost predicate InBlock(h: Heap, a: int, u: int) {
    a in h.size && a <= u < a + h.size[a]
  }

  ghost predicate Sorted(s: seq<int>) {
    forall i, j :: 0 <= i < j < |s| ==> s[i] < s[j]
  }

  function Next(s: seq<int>, i: int): int
    requires 0 <= i < |s|
  {
    if i + 1 < |s| then s[i + 1] else s[0]
  }

  ghost predicate Linked(s: seq<int>, ptr: map<int, int>) {
    forall i :: 0 <= i < |s| ==> s[i] in ptr && ptr[s[i]] == Next(s, i)
  }

  /** One address-ordered cycle, with the base header lowest. */
  ghost predicate Cycle(h: Heap) {
    && h.list != [] && h.list[0] > 0 && h.list[0] in h.size && h.size[h.list[0]] == 0
    && Sorted(h.list) && Linked(h.list, h.ptr)
  }

  /** Free and live blocks are disjoint and tile the memory that has a tag. */
  ghost predicate Tiling(h: Heap)
    requires h.list != []
  {
    && (forall a :: Block(h, a) ==> a > h.list[0] && a in h.size && h.size[a] > 0)
    && (forall a :: a in h.live ==> a !in h.list)
    && (forall u :: h.tag(u) != 0 ==> Block(h, h.tag(u)) && InBlock(h, h.tag(u), u))
    && (forall a, u :: Block(h, a) && InBlock(h, a, u) ==> h.tag(u) == a)
  }

  /** Free block `list[j]` ends where the next one begins. */
  ghost predicate Touch(h: Heap, j: int) {
    1 <= j && j + 1 < |h.list| && h.list[j] in h.size && h.list[j] + h.size[h.list[j]] == h.list[j + 1]
  }

  ghost predicate NoTouch(h: Heap) {
    forall j :: 1 <= j && j + 1 < |h.list| ==> !Touch(h, j)
  }

  ghost predicate Shape(h: Heap) {
    Cycle(h) && Tiling(h)
  }

  ghost predicate Inv(h: Heap) {
    Shape(h) && NoTouch(h)
  }

  lemma AtList(h: Heap, i: int)
    requires Shape(h) && 0 < i < |h.list|
    ensures Block(h, h.list[i]) && h.list[i] in h.size && h.size[h.list[i]] > 0 && h.list[i] !in h.live
            && h.list[i] > h.list[0]
  {
    assert h.list[i] in h.list && h.list[0] < h.list[i];
  }

  /** Blocks do not overlap. */
  lemma Apart(h: Heap, a: int, b: int)
    requires Shape(h) && Block(h, a) && Block(h, b) && a < b
    ensures a + h.size[a] <= b
  {
    if b < a + h.size[a] {
      assert InBlock(h, a, b) && InBlock(h, b, b);
    }
  }

  function InsertAt(s: seq<int>, i: nat, b: int): seq<int>
    requires i < |s|
  {
    s[..i + 1] + [b] + s[i + 1..]
  }

  function RemoveAt(s: seq<int>, i: nat): seq<int>
    requires i < |s|
  {
    s[..i] + s[i + 1..]
  }

  lemma InsertAtIs(s: seq<int>, i: nat, b: int)
    requires i < |s|
    ensures |InsertAt(s, i, b)| == |s| + 1
    ensures forall k :: 0 <= k <= |s| ==>
                          InsertAt(s, i, b)[k] == if k <= i then s[k] else if k == i + 1 then b else s[k - 1]
  {}

  lemma InsertAtHas(s: seq<int>, i: nat, b: int)
    requires i < |s|
    ensures forall x :: x in InsertAt(s, i, b) <==> x in s || x == b
  {
    assert s == s[..i + 1] + s[i + 1..];
  }

  lemma RemoveAtIs(s: seq<int>, i: nat)
    requires i < |s|
    ensures |RemoveAt(s, i)| == |s| - 1
    ensures forall k :: 0 <= k < |s| - 1 ==> RemoveAt(s, i)[k] == if k < i then s[k] else s[k + 1]
  {}

  lemma RemoveAtHas(s: seq<int>, i: nat)
    requires i < |s| && Sorted(s)
    ensures Sorted(RemoveAt(s, i)) && forall x :: x in RemoveAt(s, i) <==> x in s && x != s[i]
  {
    assert s == s[..i] + [s[i]] + s[i + 1..];
  }

  lemma InsertSorted(s: seq<int>, i: nat, b: int)
    requires Sorted(s) && Between(s, i, b)
    ensures Sorted(InsertAt(s, i, b)) && b !in s
  {

    InsertAtIs(s, i, b);
    var r := InsertAt(s, i, b);
    forall j, k | 0 <= j < k < |r| ensures r[j] < r[k] {
      if k == i + 1 {
        assert s[j] <= s[i];
      } else if j == i + 1 {
        assert s[i + 1] <= s[k - 1];
      } else {
        var j0, k0 := if j <= i then j else j - 1, if k <= i then k else k - 1;
        assert r[j] == s[j0] && r[k] == s[k0] && j0 < k0;
      }
    }
    forall k | 0 <= k < |s| ensures s[k] != b {
      assert k <= i ==> s[k] <= s[i];
      assert k > i ==> s[i + 1] <= s[k];
    }
  }

  /** Position of element `k` of the new list in the old one. */
  lemma InsertLinked(s: seq<int>, ptr: map<int, int>, i: nat, b: int)
    requires Sorted(s) && Linked(s, ptr) && i < |s| && b !in s
    ensures Linked(InsertAt(s, i, b), ptr[b := Next(s, i)][s[i] := b])
  {
    hide Sorted, Linked;
    InsertAtIs(s, i, b);
    var r, p := InsertAt(s, i, b), ptr[b := Next(s, i)][s[i] := b];
    forall k | 0 <= k < |r| ensures r[k] in p && p[r[k]] == Next(r, k) {
      if k < i {
        OneLink(s, ptr, k, i);
      } else if k > i + 1 {
        OneLink(s, ptr, k - 1, i);
      }
    }
    assert Linked(r, p) by { LinkedIf(r, p); }
  }

  lemma LinkedIf(s: seq<int>, ptr: map<int, int>)
    requires forall i :: 0 <= i < |s| ==> s[i] in ptr && ptr[s[i]] == Next(s, i)
    ensures Linked(s, ptr)
  {}

  lemma OneLink(s: seq<int>, ptr: map<int, int>, k: int, i: int)
    requires Sorted(s) && Linked(s, ptr) && 0 <= k < |s| && 0 <= i < |s|
    ensures s[k] in s && s[k] in ptr && ptr[s[k]] == Next(s, k) && (k != i ==> s[k] != s[i])
  {}

  lemma RemoveLinked(s: seq<int>, ptr: map<int, int>, i: nat)
    requires Sorted(s) && Linked(s, ptr) && 0 < i < |s|
    ensures s[i] in ptr && Linked(RemoveAt(s, i), ptr[s[i - 1] := ptr[s[i]]])
  {
    hide Sorted, Linked;
    RemoveAtIs(s, i);
    OneLink(s, ptr, i, i);
    var r, p := RemoveAt(s, i), ptr[s[i - 1] := ptr[s[i]]];
    forall k | 0 <= k < |r| ensures r[k] in p && p[r[k]] == Next(r, k) {
      OneLink(s, ptr, if k < i then k else k + 1, i - 1);
    }
    assert Linked(r, p) by { LinkedIf(r, p); }
  }

  ghost predicate Between(s: seq<int>, i: nat, b: int) {
    i < |s| && s[i] < b && (i + 1 < |s| ==> b < s[i + 1])
  }

  /** Block `b` leaves use and enters the list behind `list[i]`. */
  ghost function Insert(h: Heap, i: nat, b: int): Heap
    requires i < |h.list|
  {
    h.(list := InsertAt(h.list, i, b), ptr := h.ptr[b := Next(h.list, i)][h.list[i] := b], live := h.live - {b})
  }

  lemma InsertKeeps(h: Heap, i: nat, b: int)
    requires Inv(h) && b in h.live && Between(h.list, i, b)
    ensures Shape(Insert(h, i, b))
    ensures forall j :: Touch(Insert(h, i, b), j) ==> j == i || j == i + 1
  {
    hide Sorted, Linked;
    var h' := Insert(h, i, b);
    InsertSorted(h.list, i, b);
    InsertAtIs(h.list, i, b);
    InsertAtHas(h.list, i, b);
    InsertLinked(h.list, h.ptr, i, b);
    assert Cycle(h');
    assert forall a :: Block(h', a) <==> Block(h, a);
    assert forall a, u :: InBlock(h', a, u) <==> InBlock(h, a, u);
    forall j | j != i && j != i + 1 ensures !Touch(h', j) {
      assert j < i && Touch(h', j) ==> Touch(h, j);
      assert j > i + 1 && Touch(h', j) ==> Touch(h, j - 1);
    }
  }

  /** Free block `list[i]` takes in the next one, which it touches. */
  ghost function Absorb(h: Heap, i: nat): Heap
    requires 0 < i && i + 1 < |h.list| && h.list[i] in h.size && h.list[i + 1] in h.size && h.list[i + 1] in h.ptr
  {
    var a, b := h.list[i], h.list[i + 1];
    h.(list := RemoveAt(h.list, i + 1), ptr := h.ptr[a := h.ptr[b]], size := h.size[a := h.size[a] + h.size[b]],
       tag := u => if h.tag(u) == b then a else h.tag(u))
  }

  lemma AbsorbCycle(h: Heap, i: nat)
    requires Shape(h) && Touch(h, i)
    ensures h.list[i + 1] in h.size && h.list[i + 1] in h.ptr && Cycle(Absorb(h, i))
    ensures Absorb(h, i).list[0] == h.list[0]
    ensures forall x :: Block(Absorb(h, i), x) <==> Block(h, x) && x != h.list[i + 1]
  {
    hide Sorted, Linked;
    AtList(h, i);
    AtList(h, i + 1);
    RemoveLinked(h.list, h.ptr, i + 1);
    RemoveAtHas(h.list, i + 1);
    RemoveAtIs(h.list, i + 1);
    OneLink(h.list, h.ptr, i, i + 1);
  }

  lemma AbsorbTiling(h: Heap, i: nat)
    requires Shape(h) && Touch(h, i) && h.list[i + 1] in h.size && h.list[i + 1] in h.ptr
    requires Absorb(h, i).list != [] && Absorb(h, i).list[0] == h.list[0]
    requires forall x :: Block(Absorb(h, i), x) <==> Block(h, x) && x != h.list[i + 1]
    ensures Tiling(Absorb(h, i))
  {
    hide Sorted, Linked, Block;
    AtList(h, i);
    AtList(h, i + 1);
    var h', a, b := Absorb(h, i), h.list[i], h.list[i + 1];
    assert a != b;
    assert forall x, u :: x != a && x != b ==> (InBlock(h', x, u) <==> InBlock(h, x, u));
    assert forall u :: InBlock(h', a, u) <==> InBlock(h, a, u) || InBlock(h, b, u);
    forall x | x in h'.live ensures x !in h'.list {
      RemoveAtHas(h.list, i + 1);
    }
  }

  lemma AbsorbKeeps(h: Heap, i: nat)
    requires Shape(h) && Touch(h, i)
    ensures h.list[i + 1] in h.size && h.list[i + 1] in h.ptr && Shape(Absorb(h, i))
    ensures Absorb(h, i).list != [] && Absorb(h, i).list[0] == h.list[0]
    ensures forall j :: Touch(Absorb(h, i), j) ==> Touch(h, if j < i then j else j + 1)
    ensures forall u :: Absorb(h, i).tag(u) == 0 <==> h.tag(u) == 0
  {
    hide Sorted, Linked, Tiling;
    AbsorbCycle(h, i);
    AbsorbTiling(h, i);
    AbsorbTouch(h, i);
    AtListPositive(h, i);
    AtListPositive(h, i + 1);
  }

  lemma AtListPositive(h: Heap, i: nat)
    requires Shape(h) && i < |h.list|
    ensures h.list[i] > 0
  {
    assert i > 0 ==> h.list[0] < h.list[i];
  }

  lemma AbsorbTouch(h: Heap, i: nat)
    requires Shape(h) && Touch(h, i) && h.list[i + 1] in h.size && h.list[i + 1] in h.ptr
    ensures forall j :: Touch(Absorb(h, i), j) ==> Touch(h, if j < i then j else j + 1)
  {
    hide Linked, Tiling;
    RemoveAtIs(h.list, i + 1);
    forall j | Touch(Absorb(h, i), j) ensures Touch(h, if j < i then j else j + 1) {
      assert h.list[if j <= i then j else j + 1] in h.list;
    }
  }

  /** free, first half: block `b` is entered behind `list[i]` and merged with what follows it. */
  ghost function Up(h: Heap, i: nat, b: int): (r: Heap)
    requires Inv(h) && b in h.live && Between(h.list, i, b)
    ensures Shape(r)
  {
    InsertKeeps(h, i, b);
    var r := Insert(h, i, b);
    if Touch(r, i + 1) then AbsorbKeeps(r, i + 1); Absorb(r, i + 1) else r
  }

  /** free, second half: what precedes the block is merged with it. */
  ghost function Down(h: Heap, i: nat): Heap
    requires Shape(h)
  {
    if Touch(h, i) then AbsorbKeeps(h, i); Absorb(h, i) else h
  }

  ghost function Freed(h: Heap, i: nat, b: int): Heap
    requires Inv(h) && b in h.live && Between(h.list, i, b)
  {
    Down(Up(h, i, b), i)
  }

  lemma UpKeeps(h: Heap, i: nat, b: int)
    requires Inv(h) && b in h.live && Between(h.list, i, b)
    ensures var r := Up(h, i, b);
            && r.live == h.live - {b} && r.list != [] && r.list[0] == h.list[0]
            && (forall u :: r.tag(u) == 0 <==> h.tag(u) == 0)
            && (forall a :: a in h.live && a != b ==> a in r.size && r.size[a] == h.size[a])
            && (forall j :: Touch(r, j) ==> j == i)
  {
    hide Shape, Absorb, Insert;
    LiveSized(h);
    InsertKeeps(h, i, b);
    InsertFrame(h, i, b);
    var h1 := Insert(h, i, b);
    if Touch(h1, i + 1) {
      AbsorbKeeps(h1, i + 1);
      AbsorbFrame(h1, i + 1);
    }
  }

  /** The list is in order again: no two free blocks touch, and no unit of memory was lost or gained. */
  lemma FreedKeeps(h: Heap, i: nat, b: int)
    requires Inv(h) && b in h.live && Between(h.list, i, b)
    ensures Inv(Freed(h, i, b)) && Freed(h, i, b).live == h.live - {b} && Freed(h, i, b).list[0] == h.list[0]
    ensures forall u :: Freed(h, i, b).tag(u) == 0 <==> h.tag(u) == 0
    ensures forall a :: a in h.live && a != b ==> a in Freed(h, i, b).size && Freed(h, i, b).size[a] == h.size[a]
  {
    hide Shape, Absorb, Up;
    UpKeeps(h, i, b);
    var h2 := Up(h, i, b);
    if Touch(h2, i) {
      AbsorbKeeps(h2, i);
      AbsorbFrame(h2, i);
    }
  }

  lemma InsertFrame(h: Heap, i: nat, b: int)
    requires i < |h.list|
    ensures var r := Insert(h, i, b);
            r.live == h.live - {b} && r.size == h.size && r.tag == h.tag && r.list != []
            && r.list[0] == h.list[0]
  {}

  lemma AbsorbFrame(h: Heap, i: nat)
    requires Shape(h) && Touch(h, i) && h.list[i + 1] in h.size && h.list[i + 1] in h.ptr
    ensures var r := Absorb(h, i);
            r.live == h.live && forall a :: a in h.live && a in h.size ==> a in r.size && r.size[a] == h.size[a]
  {
    AtList(h, i);
  }

  lemma LiveSized(h: Heap)
    requires Shape(h)
    ensures forall a :: a in h.live ==> a in h.size && h.size[a] > 0 && a > h.list[0]
  {
    assert forall a :: a in h.live ==> Block(h, a);
  }

  /** malloc takes all of free block `list[k]`. */
  ghost function TakeAll(h: Heap, k: nat): Heap
    requires 0 < k < |h.list| && h.list[k] in h.ptr
  {
    h.(list := RemoveAt(h.list, k), ptr := h.ptr[h.list[k - 1] := h.ptr[h.list[k]]], live := h.live + {h.list[k]})
  }

  lemma TakeAllKeeps(h: Heap, k: nat)
    requires Inv(h) && 0 < k < |h.list|
    ensures h.list[k] in h.ptr && Inv(TakeAll(h, k)) && h.list[k] !in h.live && TakeAll(h, k).list[0] == h.list[0]
  {
    hide Sorted, Linked;
    AtList(h, k);
    RemoveLinked(h.list, h.ptr, k);
    RemoveAtHas(h.list, k);
    RemoveAtIs(h.list, k);
    var h' := TakeAll(h, k);
    assert Cycle(h');
    assert forall a :: Block(h', a) <==> Block(h, a);
    assert forall a, u :: InBlock(h', a, u) <==> InBlock(h, a, u);
    forall j ensures !Touch(h', j) {
      TakeTouch(h, k, j);
    }
  }

  lemma TakeTouch(h: Heap, k: nat, j: int)
    requires Inv(h) && 0 < k < |h.list| && h.list[k] in h.ptr
    ensures !Touch(TakeAll(h, k), j)
  {
    RemoveAtIs(h.list, k);
    if Touch(TakeAll(h, k), j) {
      if j + 1 == k {
        AtList(h, j);
        AtList(h, k);
        AtList(h, k + 1);
        Apart(h, h.list[k], h.list[k + 1]);
        Apart(h, h.list[j], h.list[k]);
      } else {
        assert Touch(h, if j < k then j else j + 1);
      }
    }
  }

  /** malloc cuts the last `n` units off free block `list[k]`. */
  ghost function Split(h: Heap, k: nat, n: int): Heap
    requires 0 < k < |h.list| && h.list[k] in h.size
  {
    var a, rest := h.list[k], h.size[h.list[k]] - n;
    h.(size := h.size[a := rest][a + rest := n], live := h.live + {a + rest},
       tag := u => if h.tag(u) == a && u >= a + rest then a + rest else h.tag(u))
  }

  lemma SplitKeeps(h: Heap, k: nat, n: int)
    requires Inv(h) && 0 < k < |h.list| && h.list[k] in h.size && 0 < n < h.size[h.list[k]]
    ensures Inv(Split(h, k, n)) && h.list[k] + h.size[h.list[k]] - n !in h.live
    ensures forall u :: Split(h, k, n).tag(u) == 0 <==> h.tag(u) == 0
  {
    hide Sorted, Linked;
    AtList(h, k);
    var h', a := Split(h, k, n), h.list[k];
    var b := a + h.size[a] - n;
    assert InBlock(h, a, b);
    assert h.tag(b) == a;
    SplitFresh(h, a, b);
    assert Cycle(h');
    assert forall x :: Block(h', x) <==> Block(h, x) || x == b;
    assert forall x, u :: x != a && x != b ==> (InBlock(h', x, u) <==> InBlock(h, x, u));
    assert forall u :: InBlock(h, a, u) <==> InBlock(h', a, u) || InBlock(h', b, u);
    assert Tiling(h');
    forall j ensures !Touch(h', j) {
      SplitTouch(h, k, n, j);
    }
  }

  lemma SplitFresh(h: Heap, a: int, b: int)
    requires Shape(h) && Block(h, a) && InBlock(h, a, b) && a < b
    ensures !Block(h, b) && b !in h.list && b !in h.live
  {
    if Block(h, b) {
      assert InBlock(h, b, b);
    }
    assert b > h.list[0];
  }

  lemma SplitTouch(h: Heap, k: nat, n: int, j: int)
    requires Inv(h) && 0 < k < |h.list| && h.list[k] in h.size && 0 < n < h.size[h.list[k]]
    ensures !Touch(Split(h, k, n), j)
  {
    hide Tiling, Linked, Block;
    if 1 <= j && j + 1 < |h.list| {
      AtList(h, j);
      AtList(h, j + 1);
      AtList(h, k);
      assert InBlock(h, h.list[k], h.list[k] + h.size[h.list[k]] - n);
      SplitFresh(h, h.list[k], h.list[k] + h.size[h.list[k]] - n);
      assert h.list[j] < h.list[j + 1] && (j < k ==> h.list[j] < h.list[k]) && (k < j ==> h.list[k] < h.list[j]);
      Apart(h, h.list[j], h.list[j + 1]);
      assert !Touch(h, j);
    }
  }

  /** morecore formats `n` fresh units at `b` as a block in use, for free to take. */
  ghost function Granted(h: Heap, b: int, n: int): Heap {
    h.(size := h.size[b := n], live := h.live + {b}, tag := u => if b <= u < b + n then b else h.tag(u))
  }

  lemma GrantedKeeps(h: Heap, b: int, n: int)
    requires Inv(h) && n > 0 && b > h.list[0] && forall u :: b <= u ==> h.tag(u) == 0
    ensures Inv(Granted(h, b, n)) && b !in h.live && b !in h.list
  {
    hide Sorted, Linked;
    var h' := Granted(h, b, n);
    Beyond(h, b);
    assert Cycle(h');
    assert forall x :: Block(h', x) <==> Block(h, x) || x == b;
    assert forall x, u :: x != b ==> (InBlock(h', x, u) <==> InBlock(h, x, u));
    forall j ensures !Touch(h', j) {
      assert Touch(h', j) ==> Touch(h, j);
    }
  }

  lemma Beyond(h: Heap, b: int)
    requires Shape(h) && b > h.list[0] && forall u :: b <= u ==> h.tag(u) == 0
    ensures forall x :: Block(h, x) ==> x < b && forall u :: InBlock(h, x, u) ==> u < b
    ensures b !in h.live && b !in h.list
  {
    forall x | Block(h, x) ensures x < b && forall u :: InBlock(h, x, u) ==> u < b {
      assert InBlock(h, x, x);
    }
    assert !Block(h, b);
  }

  const UNIT := 16                        // sizeof(Header)
  const WORDS := 0x1_0000_0000
  const MINUNITS := 4096

  /** The argument that sbrk(int) receives for `nu * sizeof(Header)`. */
  function SbrkArg(nu: int): int {
    var n := nu * UNIT % WORDS;
    if n < WORDS / 2 then n else n - WORDS
  }

  /** What sbrk leaves as the end of the process: a negative argument that reaches below zero is ignored. */
  function BreakAfter(brk: int, arg: int): (r: int)
    ensures brk >= 0 ==> r >= 0
  {
    if brk + arg < 0 then brk else brk + arg
  }

  /** sbrk obtains the memory that morecore records exactly when the request is below 2 GB. */
  lemma SbrkExact(nu: int, brk: int)
    requires 0 < nu <= WORDS && brk >= 0
    ensures BreakAfter(brk, SbrkArg(nu)) >= brk + nu * UNIT <==> nu * UNIT < WORDS / 2
    ensures nu * UNIT < WORDS / 2 ==> BreakAfter(brk, SbrkArg(nu)) == brk + nu * UNIT
  {}

  /** For example malloc(0xFFFFFFFF) asks for 16 bytes and records more than 4 GB. */
  lemma SbrkTruncates(brk: nat)
    ensures var nu := AtLeast(UnitsFor(0xFFFF_FFFF));
            BreakAfter(brk, SbrkArg(nu)) == brk + 16
            && nu * UNIT == 0x1_0000_0010
  {}

  /** The first header past the end of the process. */
  function UnitAt(brk: int): int { brk / UNIT }

  /** Headers needed for `nbytes` bytes and the header itself. */
  function UnitsFor(nbytes: nat): nat { (nbytes + UNIT - 1) / UNIT + 1 }

  function AtLeast(nu: int): int { if nu < MINUNITS then MINUNITS else nu }

  /** The place of `b` in the list. */
  lemma Locate(s: seq<int>, b: int) returns (t: nat)
    requires Sorted(s) && s != [] && s[0] < b && b !in s
    ensures Between(s, t, b)
  {
    t := 0;
    while t + 1 < |s| && s[t + 1] < b
      invariant t < |s| && s[t] < b
    {
      t := t + 1;
    }
    assert t + 1 < |s| ==> s[t + 1] in s;
  }

  ghost predicate BackedBy(base: int, tag: int -> int, brk: int) {
    brk % UNIT == 0 && brk >= UNIT * (base + 1) && forall u :: tag(u) != 0 ==> UNIT * (u + 1) <= brk
  }

  /** After sbrk the recorded memory is there exactly when the request is below 2 GB. */
  lemma BackedIff(base: int, tag: int -> int, tag': int -> int, brk: int, b: int, n: int)
    requires BackedBy(base, tag, brk) && 0 < n <= WORDS && brk >= 0 && b == UnitAt(brk)
    requires forall u :: tag'(u) != 0 <==> tag(u) != 0 || b <= u < b + n
    ensures BackedBy(base, tag', BreakAfter(brk, SbrkArg(n))) <==> n * UNIT < WORDS / 2
  {
    hide SbrkArg, BreakAfter;
    SbrkExact(n, brk);
    assert tag'(b + n - 1) != 0;
  }

  class Allocator {
    const base: int                       // address of the base header
    var ptr: map<int, int>                // s.ptr of the headers
    var size: map<int, int>               // s.size of the headers
    var freep: int                        // 0 before the first call
    var brk: int                          // end of the process, in bytes
    ghost var list: seq<int>
    ghost var live: set<int>
    ghost var tag: int -> int

    ghost function H(): Heap
      reads this
    {
      Heap(list, ptr, size, live, tag)
    }

    /** The free list is in order, and free and live blocks tile the tagged memory. */
    ghost predicate Formed()
      reads this
    {
      && base > 0 && brk >= 0
      && (if freep == 0 then list == [] && live == {} && forall u :: tag(u) == 0
          else Inv(H()) && list[0] == base && freep in list)
    }

    /** All of that memory has been obtained from sbrk. */
    ghost predicate Backed()
      reads this
    {
      BackedBy(base, tag, brk)
    }

    constructor (base: int, brk: int)
      requires base > 0 && brk % UNIT == 0 && brk >= UNIT * (base + 1)
      ensures Formed() && Backed() && freep == 0 && this.base == base
    {
      this.base, this.brk, freep, ptr, size := base, brk, 0, map[], map[];
      list, live, tag := [], {}, u => 0;
    }

    /** The search loop of free: the place between two free blocks, found from wherever freep points. */
    method FindPlace(b: int) returns (p: int, ghost t: nat)
      requires Formed() && freep != 0 && b in live
      ensures Between(list, t, b) && p == list[t]
    {
      hide Tiling, NoTouch;
      ghost var n := |list|;
      assert b > base && b !in list by { LiveApart(H(), b); }
      t := Locate(list, b);
      p := freep;
      ghost var k: nat :| k < n && list[k] == p;
      while !(b > p && b < ptr[p])
        invariant k < n && list[k] == p
        decreases if k <= t then t - k else n - k + t
      {
        OnPlace(list, ptr, b, t, k);
        if p >= ptr[p] && (b > p || b < ptr[p]) {
          return;
        }
        k := if k + 1 < n then k + 1 else 0;
        p := ptr[p];
      }
      OnPlace(list, ptr, b, t, k);
    }

    /** free of a block that malloc returned. */
    method Free(b: int)
      requires Formed() && freep != 0 && b in live
      modifies this`ptr, this`size, this`freep, this`list, this`live, this`tag
      ensures Formed() && freep != 0 && live == old(live) - {b}
      ensures forall u :: tag(u) == 0 <==> old(tag)(u) == 0
      ensures forall a :: a in live ==> a in size && size[a] == old(size)[a]
      ensures exists t: nat :: Between(old(list), t, b) && H() == Freed(old(H()), t, b)
    {
      hide Inv;
      var p; ghost var t;
      p, t := FindPlace(b);
      Release(b, p, t);
    }

    /** The pointer updates of free behind `p`. */
    method Release(b: int, p: int, ghost t: nat)
      requires Formed() && freep != 0 && b in live && Between(list, t, b) && p == list[t]
      modifies this`ptr, this`size, this`freep, this`list, this`live, this`tag
      ensures Formed() && freep != 0 && H() == Freed(old(H()), t, b) && freep == p
      ensures live == old(live) - {b} && (forall u :: tag(u) == 0 <==> old(tag)(u) == 0)
      ensures forall a :: a in live ==> a in size && size[a] == old(size)[a]
    {
      hide Inv, Freed, UpSize, UpPtr;
      ghost var h := H();
      FreedKeeps(h, t, b);
      FreedMaps(h, t, b);
      ghost var h3 := Freed(h, t, b);
      MergeUp(b, p);
      MergeDown(b, p);
      freep := p;
      list, live, tag := h3.list, h3.live, h3.tag;
    }

    method MergeUp(b: int, p: int)
      requires Linkable(H(), p, b)
      modifies this`ptr, this`size
      ensures size == UpSize(old(H()), p, b) && ptr == UpPtr(old(H()), p, b)
    {
      if b + size[b] == ptr[p] {
        size := size[b := size[b] + size[ptr[p]]];
        ptr := ptr[b := ptr[ptr[p]]];
      } else {
        ptr := ptr[b := ptr[p]];
      }
    }

    method MergeDown(b: int, p: int)
      requires p in size && b in size && b in ptr && p != b
      modifies this`ptr, this`size
      ensures if p + old(size)[p] == b then size == old(size)[p := old(size)[p] + old(size)[b]]
                                            && ptr == old(ptr)[p := old(ptr)[b]]
              else size == old(size) && ptr == old(ptr)[p := b]
    {
      if p + size[p] == b {
        size := size[p := size[p] + size[b]];
        ptr := ptr[p := ptr[b]];
      } else {
        ptr := ptr[p := b];
      }
    }

    /** morecore: asks sbrk for at least `nu` headers and frees what it gets; 0 when sbrk fails. The new block is as
        large as asked for, and lies in memory that the process has exactly when the request is below 2 GB. */
    method MoreCore(nu: nat, grants: bool) returns (p: int)
      requires Formed() && Backed() && freep != 0 && nu <= WORDS
      modifies this
      ensures Formed() && freep != 0 && live == old(live)
      ensures p == 0 <==> !grants
      ensures !grants ==> H() == old(H()) && brk == old(brk) && freep == old(freep)
      ensures grants ==> p == freep && (Backed() <==> AtLeast(nu) * UNIT < WORDS / 2)
      ensures grants ==> forall u :: tag(u) != 0 <==> old(tag)(u) != 0 || 0 <= u - UnitAt(old(brk)) < AtLeast(nu)
      ensures grants ==> HasFit(H(), AtLeast(nu))
      ensures forall a :: a in live ==> a in size && a in old(size) && size[a] == old(size)[a]
    {
      hide Inv, SbrkArg, BreakAfter, BackedBy, HasFit;
      LiveSized0(H());
      if !grants {
        return 0;
      }
      var n := if nu < MINUNITS then MINUNITS else nu;
      var b := UnitAt(brk);
      ghost var h, h1, brk0 := H(), Granted(H(), b, n), brk;
      BackedBeyond(base, tag, brk);
      brk := BreakAfter(brk, SbrkArg(n));
      GrantedKeeps0(h, b, n);
      size := size[b := n];
      live, tag := live + {b}, h1.tag;
      assert H() == h1;
      Free(b);
      ghost var t: nat :| Between(h1.list, t, b) && H() == Freed(h1, t, b);
      FreedFits(h1, t, b);
      BackedIff(base, h.tag, tag, brk0, b, n);
      assert live == h.live;
      p := freep;
    }

    /** malloc. `grants`: sbrk succeeds if it is called; `core` tells whether it was. The result is one header past the
        block, 0 if there is no memory. */
    method Alloc(nbytes: nat, grants: bool) returns (r: int, ghost core: bool)
      requires Formed() && Backed() && nbytes < WORDS
      modifies this
      ensures Formed() && freep != 0
      ensures Backed() <==> !core || AtLeast(UnitsFor(nbytes)) * UNIT < WORDS / 2
      ensures core <==> grants && (old(freep) == 0 || !HasFit(old(H()), UnitsFor(nbytes)))
      ensures r == 0 <==> !grants && (old(freep) == 0 || !HasFit(old(H()), UnitsFor(nbytes)))
      ensures r == 0 ==> live == old(live) && !HasFit(H(), UnitsFor(nbytes))
      ensures r != 0 ==>
                r - 1 !in old(live) && live == old(live) + {r - 1} && r - 1 in size && size[r - 1] == UnitsFor(nbytes)
      ensures forall a :: a in old(live) ==> a in size && a in old(size) && size[a] == old(size)[a]
      ensures !core ==> forall u :: tag(u) == 0 <==> old(tag)(u) == 0
      ensures core ==> forall u :: tag(u) != 0 <==>
                                     old(tag)(u) != 0 || 0 <= u - UnitAt(old(brk)) < AtLeast(UnitsFor(nbytes))
    {
      hide Inv, BackedBy, HasFit, AtLeast;
      var nunits := UnitsFor(nbytes);
      if freep == 0 {
        ptr, freep, size := ptr[base := base], base, size[base := 0];
        list := [base];
        BaseOnly(H());
        assert !HasFit(H(), nunits) by { NoneFits(H(), nunits); }
      }
      LiveSized0(H());
      r, core := Search(nunits, grants);
    }

    /** What malloc has done so far: nothing, or one successful call of morecore. */
    ghost predicate Since(core: bool, nunits: int, h0: Heap, brk0: int)
      reads this
    {
      && Formed() && freep != 0 && live == h0.live
      && (Backed() <==> !core || AtLeast(nunits) * UNIT < WORDS / 2)
      && (forall a :: a in live ==> a in size && a in h0.size && size[a] == h0.size[a])
      && (if core then HasFit(H(), nunits)
                       && forall u :: tag(u) != 0 <==> h0.tag(u) != 0 || 0 <= u - UnitAt(brk0) < AtLeast(nunits)
          else H() == h0 && brk == brk0)
    }

    lemma SinceFormed(core: bool, nunits: int, h0: Heap, brk0: int)
      requires Since(core, nunits, h0, brk0)
      ensures Inv(H()) && freep in list && freep > 0 && live == h0.live
              && (if core then HasFit(H(), nunits) else H() == h0)
    {
      ghost var k := IndexOf(list, freep);
      AtListPositive(H(), k);
    }

    /** The loop of malloc: search, and once the whole list has been searched in vain, morecore and search again. */
    method Search(nunits: nat, grants: bool) returns (r: int, ghost core: bool)
      requires Formed() && Backed() && freep != 0 && 0 < nunits <= WORDS
      modifies this
      ensures Formed() && freep != 0
      ensures Backed() <==> !core || AtLeast(nunits) * UNIT < WORDS / 2
      ensures core <==> grants && !HasFit(old(H()), nunits)
      ensures r == 0 <==> !grants && !HasFit(old(H()), nunits)
      ensures r == 0 ==> live == old(live) && !HasFit(H(), nunits)
      ensures r != 0 ==> r - 1 !in old(live) && live == old(live) + {r - 1} && r - 1 in size && size[r - 1] == nunits
      ensures forall a :: a in old(live) ==> a in size && a in old(size) && size[a] == old(size)[a]
      ensures !core ==> forall u :: tag(u) == 0 <==> old(tag)(u) == 0
      ensures core ==> forall u :: tag(u) != 0 <==> old(tag)(u) != 0 || 0 <= u - UnitAt(old(brk)) < AtLeast(nunits)
    {
      hide Inv, BackedBy, HasFit, AtLeast, Allocator.Since, UnitAt;
      ghost var h0, brk0 := H(), brk;
      core := false;
      Begun(nunits);
      while true
        invariant Since(core, nunits, h0, brk0) && (core ==> grants && !HasFit(h0, nunits))
        decreases !core
      {
        SinceFormed(core, nunits, h0, brk0);
        var prevp, p, k := Scan(nunits);
        if p != 0 {
          r := Finish(core, prevp, p, nunits, k, h0, brk0);
          return;
        }
        p := Grow(nunits, grants, h0, brk0);
        if p == 0 {
          return 0, false;
        }
        core := true;
      }
    }

    /** One trip of the search round the list, from behind freep until it is back at freep: the first block that is
        large enough and its predecessor, or 0 if there is none. */
    method Scan(nunits: nat) returns (prevp: int, p: int, ghost k: nat)
      requires Inv(H()) && freep in list && nunits > 0
      ensures p == 0 <==> !HasFit(H(), nunits)
      ensures p != 0 ==> 0 < k < |list| && list[k] == p && list[k - 1] == prevp && p in size && size[p] >= nunits
    {
      hide Inv, HasFit, Seen, Small, Wrap;
      ghost var f: nat := IndexOf(list, freep);
      ghost var steps := 0;
      prevp := freep;
      Around(H(), f, 0);
      WrapZero(f, |list|);
      SeenNone(H(), f, nunits);
      p := ptr[prevp];
      k := 0;
      while true
        invariant 0 <= steps < |list| && Seen(H(), f, steps, nunits)
        invariant prevp == list[Wrap(f, steps, |list|)] && p == list[Wrap(f, steps + 1, |list|)]
        decreases |list| - steps
      {
        Around(H(), f, steps + 1);
        if size[p] >= nunits {
          CarveAt(H(), f, steps, nunits);
          k := Wrap(f, steps + 1, |list|);
          return;
        }
        SeenMore(H(), f, steps, nunits);
        if p == freep {
          NoFit(H(), f, steps, nunits);
          return 0, 0, 0;
        }
        steps := steps + 1;
        prevp := p;
        p := ptr[p];
      }
    }

    lemma Begun(nunits: int)
      requires Formed() && Backed() && freep != 0
      ensures Inv(H()) && freep in list && Since(false, nunits, H(), brk)
    {
      LiveSized0(H());
    }

    /** morecore in the loop of malloc. */
    method Grow(nunits: nat, grants: bool, ghost h0: Heap, ghost brk0: int) returns (p: int)
      requires nunits <= WORDS && Since(false, nunits, h0, brk0)
      modifies this
      ensures p == 0 <==> !grants
      ensures p == 0 ==> Formed() && Backed() && freep != 0 && H() == h0 && forall a :: a in h0.live ==> a in h0.size
      ensures p != 0 ==> p == freep && Since(true, nunits, h0, brk0)
    {
      hide Inv, BackedBy, HasFit, AtLeast;
      p := MoreCore(nunits, grants);
      if p != 0 {
        BiggerFits(H(), nunits);
      }
    }

    /** The successful end of malloc. */
    method Finish(ghost core: bool, prevp: int, p: int, nunits: nat, ghost k: nat, ghost h0: Heap,
        ghost brk0: int) returns (r: int)
      requires Since(core, nunits, h0, brk0) && 0 < nunits && 0 < k < |list| && list[k] == p && list[k - 1] == prevp
      requires p in size && size[p] >= nunits
      modifies this`ptr, this`size, this`freep, this`list, this`live, this`tag
      ensures Formed() && freep != 0 && r != 0 && (Backed() <==> !core || AtLeast(nunits) * UNIT < WORDS / 2)
      ensures r - 1 !in h0.live && live == h0.live + {r - 1} && r - 1 in size && size[r - 1] == nunits
      ensures forall a :: a in h0.live ==> a in size && a in h0.size && size[a] == h0.size[a]
      ensures !core ==> forall u :: tag(u) == 0 <==> h0.tag(u) == 0
      ensures core ==> forall u :: tag(u) != 0 <==> h0.tag(u) != 0 || 0 <= u - UnitAt(brk0) < AtLeast(nunits)
    {
      hide Inv, BackedBy, HasFit, AtLeast;
      ghost var tag0 := tag;
      r := Carve(prevp, p, nunits, k);
      BackedSame(base, tag0, tag, brk);
    }

    /** Takes `nunits` from free block `p`, which follows `prevp`: all of it, or its tail. */
    method Carve(prevp: int, p: int, nunits: nat, ghost k: nat) returns (r: int)
      requires Formed() && freep != 0 && 0 < nunits && 0 < k < |list| && list[k] == p && list[k - 1] == prevp
      requires p in size && size[p] >= nunits
      modifies this`ptr, this`size, this`freep, this`list, this`live, this`tag
      ensures Formed() && freep != 0 && r != 0
      ensures r - 1 !in old(live) && live == old(live) + {r - 1} && r - 1 in size && size[r - 1] == nunits
      ensures forall a :: a in old(live) ==> a in size && a in old(size) && size[a] == old(size)[a]
      ensures forall u :: tag(u) == 0 <==> old(tag)(u) == 0
    {
      hide Inv;
      LiveSized0(H());
      if size[p] == nunits {
        r := CarveAll(prevp, p, k);
      } else {
        r := CarveTail(prevp, p, nunits, k);
      }
    }

    method CarveAll(prevp: int, p: int, ghost k: nat) returns (r: int)
      requires Formed() && freep != 0 && 0 < k < |list| && list[k] == p && list[k - 1] == prevp
      modifies this`ptr, this`freep, this`list, this`live
      ensures Formed() && freep != 0 && r == p + 1 != 0 && p !in old(live) && live == old(live) + {p}
    {
      hide Inv;
      ghost var h := H();
      InList(h, k);
      TakeAllKeeps(h, k);
      TakeAllFrame(h, k);
      ptr := ptr[prevp := ptr[p]];
      list, live := RemoveAt(list, k), live + {p};
      assert H() == TakeAll(h, k);
      freep := prevp;
      r := p + 1;
    }

    method CarveTail(prevp: int, p: int, nunits: nat, ghost k: nat) returns (r: int)
      requires Formed() && freep != 0 && 0 < nunits && 0 < k < |list| && list[k] == p && list[k - 1] == prevp
      requires p in size && size[p] > nunits
      modifies this`size, this`freep, this`live, this`tag
      ensures Formed() && freep != 0 && r != 0
      ensures r - 1 !in old(live) && live == old(live) + {r - 1} && r - 1 in size && size[r - 1] == nunits
      ensures forall a :: a in old(live) && a in old(size) ==> a in size && size[a] == old(size)[a]
      ensures forall u :: tag(u) == 0 <==> old(tag)(u) == 0
    {
      hide Inv, Split;
      ghost var h := H();
      InList(h, k);
      SplitKeeps(h, k, nunits);
      SplitFrame(h, k, nunits);
      SplitIs(h, k, nunits);
      ghost var h' := Split(h, k, nunits);
      size := size[p := size[p] - nunits];
      var q := p + size[p];
      size := size[q := nunits];
      assert size == h'.size;
      live, tag := live + {q}, h'.tag;
      assert prevp == list[k - 1];
      freep := prevp;
      r := q + 1;
    }
  }

  /** `j` places further on the cycle of `n`. */
  function Wrap(f: nat, j: int, n: nat): (k: int)
    requires f < n && 0 <= j <= n
    ensures 0 <= k < n
  {
    if f + j < n then f + j else f + j - n
  }

  lemma WrapZero(f: nat, n: nat)
    requires f < n
    ensures Wrap(f, 0, n) == f && Wrap(f, n, n) == f
  {}

  ghost predicate Small(h: Heap, a: int, n: int) {
    a in h.size && h.size[a] < n
  }

  /** The search has passed `steps` blocks, all too small. */
  ghost predicate Seen(h: Heap, f: nat, steps: int, n: int)
    requires f < |h.list| && steps <= |h.list|
  {
    forall j :: 1 <= j <= steps ==> Small(h, h.list[Wrap(f, j, |h.list|)], n)
  }

  lemma SeenNone(h: Heap, f: nat, n: int)
    requires f < |h.list|
    ensures Seen(h, f, 0, n)
  {}

  lemma SeenMore(h: Heap, f: nat, steps: int, n: int)
    requires f < |h.list| && 0 <= steps < |h.list| && Seen(h, f, steps, n)
    requires var a := h.list[Wrap(f, steps + 1, |h.list|)]; a in h.size && h.size[a] < n
    ensures Seen(h, f, steps + 1, n) && Small(h, h.list[Wrap(f, steps + 1, |h.list|)], n)
  {}

  lemma CarveAt(h: Heap, f: nat, steps: int, n: int)
    requires Inv(h) && f < |h.list| && 0 <= steps < |h.list| && n > 0
    requires var a := h.list[Wrap(f, steps + 1, |h.list|)]; a in h.size && h.size[a] >= n
    ensures var k := Wrap(f, steps + 1, |h.list|); 0 < k < |h.list| && h.list[k - 1] == h.list[Wrap(f, steps, |h.list|)]
    ensures HasFit(h, n)
  {
    var k := Wrap(f, steps + 1, |h.list|);
    assert k > 0 && h.size[h.list[k]] >= n;
  }

  lemma BackedBeyond(base: int, tag: int -> int, brk: int)
    requires BackedBy(base, tag, brk)
    ensures UnitAt(brk) > base && forall u :: UnitAt(brk) <= u ==> tag(u) == 0
  {}

  lemma BackedSame(base: int, tag: int -> int, tag': int -> int, brk: int)
    requires forall u :: tag'(u) == 0 <==> tag(u) == 0
    ensures BackedBy(base, tag', brk) <==> BackedBy(base, tag, brk)
  {}

  lemma IndexOf(s: seq<int>, x: int) returns (i: nat)
    requires x in s
    ensures i < |s| && s[i] == x
  {
    i :| i < |s| && s[i] == x;
  }

  /** One step along the cycle. */
  lemma Around(h: Heap, f: nat, j: int)
    requires Inv(h) && f < |h.list| && 0 <= j <= |h.list|
    ensures var a := h.list[Wrap(f, j, |h.list|)];
            a in h.ptr && a in h.size && a > 0 && (j < |h.list| ==> h.ptr[a] == h.list[Wrap(f, j + 1, |h.list|)])
  {
    hide Tiling, NoTouch;
    var k := Wrap(f, j, |h.list|);
    OneLink(h.list, h.ptr, k, 0);
    AtListPositive(h, k);
    if k > 0 {
      AtList(h, k);
    }
  }

  lemma NoneFits(h: Heap, n: int)
    requires |h.list| == 1
    ensures !HasFit(h, n)
  {}

  /** Back where it started, the search has seen every block. */
  lemma NoFit(h: Heap, f: nat, steps: int, n: int)
    requires Inv(h) && f < |h.list| && 0 <= steps < |h.list| && h.list[Wrap(f, steps + 1, |h.list|)] == h.list[f]
    requires Seen(h, f, steps, n) && Small(h, h.list[f], n)
    ensures !HasFit(h, n)
  {
    hide Tiling, NoTouch, Linked;
    assert Wrap(f, steps + 1, |h.list|) == f;
    forall k | 0 < k < |h.list| && h.list[k] in h.size ensures h.size[h.list[k]] < n {
      if k != f {
        var j := if k > f then k - f else k - f + |h.list|;
        assert Wrap(f, j, |h.list|) == k;
      }
    }
  }

  lemma BiggerFits(h: Heap, n: int)
    requires HasFit(h, AtLeast(n))
    ensures HasFit(h, n)
  {
    var k :| 0 < k < |h.list| && h.list[k] in h.size && h.size[h.list[k]] >= AtLeast(n);
    assert h.size[h.list[k]] >= n;
  }

  lemma BaseOnly(h: Heap)
    requires h.list != [] && h.list == [h.list[0]] && h.list[0] > 0 && h.live == {} && (forall u :: h.tag(u) == 0)
    requires h.list[0] in h.ptr && h.ptr[h.list[0]] == h.list[0] && h.list[0] in h.size && h.size[h.list[0]] == 0
    ensures Inv(h)
  {}

  lemma InList(h: Heap, k: nat)
    requires Inv(h) && 0 < k < |h.list|
    ensures h.list[k] in h.ptr && h.list[k] !in h.live && h.list[k - 1] > 0 && h.list[k] > 0
  {
    AtList(h, k);
    AtListPositive(h, k - 1);
    OneLink(h.list, h.ptr, k, k);
  }

  lemma TakeAllFrame(h: Heap, k: nat)
    requires Inv(h) && 0 < k < |h.list| && h.list[k] in h.ptr
    ensures h.list[k - 1] in TakeAll(h, k).list
  {
    RemoveAtIs(h.list, k);
    assert RemoveAt(h.list, k)[k - 1] == h.list[k - 1];
  }

  lemma SplitIs(h: Heap, k: nat, n: int)
    requires 0 < k < |h.list| && h.list[k] in h.size
    ensures var a, h' := h.list[k], Split(h, k, n);
            && h'.list == h.list && h'.ptr == h.ptr && h'.live == h.live + {a + (h.size[a] - n)}
            && h'.size == h.size[a := h.size[a] - n][a + (h.size[a] - n) := n]
  {}

  lemma SplitFrame(h: Heap, k: nat, n: int)
    requires Inv(h) && 0 < k < |h.list| && h.list[k] in h.size && 0 < n < h.size[h.list[k]]
    ensures forall a :: a in h.live ==> a != h.list[k] && a != h.list[k] + h.size[h.list[k]] - n
    ensures h.list[k] + h.size[h.list[k]] - n > 0
  {
    AtList(h, k);
    SplitKeeps(h, k, n);
  }

  /** Some free block has `n` units. */
  ghost predicate HasFit(h: Heap, n: int) {
    exists k :: 0 < k < |h.list| && h.list[k] in h.size && h.size[h.list[k]] >= n
  }

  lemma LiveSized0(h: Heap)
    requires Inv(h)
    ensures forall a :: a in h.live ==> a in h.size
  {
    LiveSized(h);
  }

  lemma GrantedKeeps0(h: Heap, b: int, n: int)
    requires Inv(h) && n > 0 && b > h.list[0] && forall u :: b <= u ==> h.tag(u) == 0
    ensures Inv(Granted(h, b, n)) && b !in h.live && b !in h.list
  {
    GrantedKeeps(h, b, n);
  }

  /** The freed block, or the block it was merged into, is at least as large. */
  lemma FreedFits(h: Heap, t: nat, b: int)
    requires Inv(h) && b in h.live && Between(h.list, t, b)
    ensures b in h.size && HasFit(Freed(h, t, b), h.size[b])
  {
    hide Shape, NoTouch, Up, Down;
    UpIs(h, t, b);
    UpSizes(h, t, b);
    var h2, p := Up(h, t, b), h.list[t];
    DownIs(h2, t, p, b);
    DownFits(h2, t, p, b, h.size[b]);
  }

  lemma UpSizes(h: Heap, t: nat, b: int)
    requires Inv(h) && b in h.live && Between(h.list, t, b) && Linkable(h, h.list[t], b)
    ensures b in UpSize(h, h.list[t], b) && UpSize(h, h.list[t], b)[b] >= h.size[b]
  {
    UpPlace(h, t, b);
    if b + h.size[b] == Next(h.list, t) {
      AtList(h, t + 1);
    }
  }

  lemma DownFits(h: Heap, t: nat, p: int, b: int, n: int)
    requires Shape(h) && t + 1 < |h.list| && h.list[t] == p && h.list[t + 1] == b && b in h.size && h.size[b] >= n
    ensures HasFit(Down(h, t), n)
  {
    hide Tiling, Sorted, Linked;
    DownIs(h, t, p, b);
    AtList(h, t + 1);
    var r := Down(h, t);
    if Touch(h, t) {
      AtList(h, t);
      RemoveAtIs(h.list, t + 1);
      assert r.list[t] == p && r.size[p] >= n;
    } else {
      assert r.list[t + 1] == b;
    }
  }

  ghost predicate Linkable(h: Heap, p: int, b: int) {
    p in h.ptr && p in h.size && b in h.size && p != b
    && (b + h.size[b] == h.ptr[p] ==> h.ptr[p] in h.size && h.ptr[p] in h.ptr)
  }

  /** Sizes and pointers after the first `if` of free, with p->s.ptr still to be set. */
  ghost function UpSize(h: Heap, p: int, b: int): map<int, int>
    requires Linkable(h, p, b)
  {
    if b + h.size[b] == h.ptr[p] then h.size[b := h.size[b] + h.size[h.ptr[p]]] else h.size
  }

  ghost function UpPtr(h: Heap, p: int, b: int): map<int, int>
    requires Linkable(h, p, b)
  {
    h.ptr[b := if b + h.size[b] == h.ptr[p] then h.ptr[h.ptr[p]] else h.ptr[p]]
  }

  lemma UpPlace(h: Heap, t: nat, b: int)
    requires Inv(h) && b in h.live && Between(h.list, t, b)
    ensures var p, next := h.list[t], Next(h.list, t);
            Linkable(h, p, b) && h.ptr[p] == next && (Touch(Insert(h, t, b), t + 1) <==> b + h.size[b] == next)
            && (Touch(Insert(h, t, b), t + 1) ==> next == h.list[t + 1] && next != p && next != b)
  {
    hide Tiling, NoTouch, Sorted, Linked;
    InsertAtIs(h.list, t, b);
    LiveApart(h, b);
    OneLink(h.list, h.ptr, t, t);
    if t > 0 {
      AtList(h, t);
    }
    if t + 1 < |h.list| {
      AtList(h, t + 1);
      OneLink(h.list, h.ptr, t + 1, t);
    }
  }

  lemma UpIs(h: Heap, t: nat, b: int)
    requires Inv(h) && b in h.live && Between(h.list, t, b)
    ensures var p, r := h.list[t], Up(h, t, b);
            && Linkable(h, p, b) && t + 1 < |r.list| && r.list[t] == p && r.list[t + 1] == b
            && r.size == UpSize(h, p, b) && r.ptr == UpPtr(h, p, b)[p := b]
  {
    hide Shape, NoTouch;
    UpPlace(h, t, b);
    InsertAtIs(h.list, t, b);
    var p, h1 := h.list[t], Insert(h, t, b);
    if Touch(h1, t + 1) {
      InsertKeeps(h, t, b);
      AbsorbKeeps(h1, t + 1);
      RemoveAtIs(h1.list, t + 2);
      MapSwap(h.ptr, b, p, h.ptr[p], h.ptr[h.ptr[p]]);
    }
  }

  /** free in terms of pointers and sizes. */
  lemma FreedMaps(h: Heap, t: nat, b: int)
    requires Inv(h) && b in h.live && Between(h.list, t, b)
    ensures var p, r := h.list[t], Freed(h, t, b);
            && p > 0 && Linkable(h, p, b) && p in r.list
            && var s1, q1 := UpSize(h, p, b), UpPtr(h, p, b);
               && p in s1 && b in s1 && b in q1
               && r.size == (if p + s1[p] == b then s1[p := s1[p] + s1[b]] else s1)
               && r.ptr == (if p + s1[p] == b then q1[p := q1[b]] else q1[p := b])
  {
    hide Shape, NoTouch, Up, Down;
    UpIs(h, t, b);
    DownIs(Up(h, t, b), t, h.list[t], b);
    AtListPositive(h, t);
  }

  lemma MapSwap(m: map<int, int>, b: int, p: int, x: int, y: int)
    requires p != b
    ensures m[b := x][p := b][b := y] == m[b := y][p := b]
  {}

  lemma DownIs(h: Heap, t: nat, p: int, b: int)
    requires Shape(h) && t + 1 < |h.list| && h.list[t] == p && h.list[t + 1] == b
    ensures p in h.size && b in h.size && p in h.ptr && b in h.ptr && p in Down(h, t).list
    ensures if p + h.size[p] == b then Down(h, t).size == h.size[p := h.size[p] + h.size[b]]
                                       && Down(h, t).ptr == h.ptr[p := h.ptr[b]]
            else Down(h, t) == h
  {
    hide Tiling, Sorted, Linked;
    AtList(h, t + 1);
    OneLink(h.list, h.ptr, t, t);
    OneLink(h.list, h.ptr, t + 1, t);
    if t > 0 {
      AtList(h, t);
      if Touch(h, t) {
        RemoveAtIs(h.list, t + 1);
        assert RemoveAt(h.list, t + 1)[t] == p;
      }
    }
  }

  lemma LiveApart(h: Heap, b: int)
    requires Shape(h) && b in h.live
    ensures b > h.list[0] && b !in h.list && b in h.size && h.size[b] > 0
  {
    assert Block(h, b);
  }

  /** The two tests of the search loop of free single out one place. */
  lemma OnPlace(s: seq<int>, ptr: map<int, int>, b: int, t: nat, k: nat)
    requires Sorted(s) && Linked(s, ptr) && Between(s, t, b) && s[0] < b && b !in s && k < |s|
    ensures s[k] in ptr && ptr[s[k]] == Next(s, k)
    ensures k == t <==> (b > s[k] && b < ptr[s[k]]) || (s[k] >= ptr[s[k]] && (b > s[k] || b < ptr[s[k]]))
  {
    if k < t {
      assert s[k + 1] <= s[t];
    } else if k > t {
      assert s[t + 1] <= s[k];
    }
    assert k + 1 == |s| && k > 0 ==> s[0] < s[k];
  }
}
