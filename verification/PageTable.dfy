/** Sv39 page tables of kernel/vm.c: a three-level tree of 512-entry table pages,
    living in allocator pages, refines a flat map from virtual page number to entry. */
module PageTable {
  import opened Kalloc

  const NPTE := 512
  const MAX_VPN := 0x400_0000   // MAXVA / PGSIZE

  const MAX_TOP := 256           // root entries that addresses below MAXVA can reach

  const ZERO_PTE := Pte(0, false, false, false, false, false, false)

  /** The position of a table page: the indices that lead to it from the root. */
  datatype Path = Top | Mid(i: nat) | Low(i: nat, j: nat)

  /** Which page holds the table at each position. */
  type Tree = map<Path, Ppn>

  /** PX(level, va), on page numbers. */
  function Px(level: nat, vpn: nat): nat
    requires level <= 2
  {
    match level
    case 0 => vpn % 512
    case 1 => vpn / 512 % 512
    case 2 => vpn / 0x40000 % 512
  }

  /** The table that `walk` indexes at `level` on its way to `vpn`. */
  function PathAt(level: nat, vpn: nat): Path
    requires level <= 2
  {
    match level
    case 0 => Low(Px(2, vpn), Px(1, vpn))
    case 1 => Mid(Px(2, vpn))
    case 2 => Top
  }

  function Child(p: Path, i: nat): Path {
    match p
    case Top => Mid(i)
    case Mid(k) => Low(k, i)
    case Low(_, _) => p
  }

  function Fanout(p: Path): nat {
    if p.Top? then MAX_TOP else NPTE
  }

  /** The tables below the root on the way to page `vpn`. */
  ghost function WayTo(vpn: nat): set<Path> { {PathAt(1, vpn), PathAt(0, vpn)} }

  /** Those on the way to `n` pages from `lo` on. */
  ghost function Ways(lo: nat, n: nat): set<Path>
    decreases n
  {
    if n == 0 then {} else Ways(lo, n - 1) + WayTo(lo + n - 1)
  }

  /** Mapping `n` pages from `lo` on has turned free pages into tables, one into one, and the tables are now at `k'`. If
      memory ran `out`, none is left and a table for the page that follows is still missing. */
  ghost predicate Spent(free: nat, k: set<Path>, free': nat, k': set<Path>, lo: nat, n: nat, out: bool) {
    && free + |k| == free' + |k'|
    && if out then free' == 0 && |k'| < |k + Ways(lo, n + 1)| else k' == k + Ways(lo, n)
  }

  /** walk has come down to `level`. */
  ghost predicate Down(free: nat, k: set<Path>, free': nat, k': set<Path>, vpn: nat, level: nat) {
    && free + |k| == free' + |k'|
    && k' == k + (if level < 2 then {PathAt(1, vpn)} else {}) + (if level < 1 then {PathAt(0, vpn)} else {})
  }

  lemma DownStart(free: nat, k: set<Path>, vpn: nat)
    ensures Down(free, k, free, k, vpn, 2) && Spent(free, k, free, k, vpn, 0, false)
  {
    SpentNone(free, k, vpn);
  }

  lemma DownMore(free: nat, k: set<Path>, free1: nat, k1: set<Path>, free2: nat, k2: set<Path>, vpn: nat, level: nat)
    requires 0 < level <= 2 && Down(free, k, free1, k1, vpn, level) && free1 + |k1| == free2 + |k2|
    requires k2 == k1 + {PathAt(level - 1, vpn)}
    ensures Down(free, k, free2, k2, vpn, level - 1)
  {}

  lemma DownEnd(free: nat, k: set<Path>, free': nat, k': set<Path>, vpn: nat)
    requires Down(free, k, free', k', vpn, 0)
    ensures Spent(free, k, free', k', vpn, 1, false)
  {
    WaysNext(vpn, 0);
  }

  lemma DownShort(free: nat, k: set<Path>, free': nat, k': set<Path>, vpn: nat, level: nat)
    requires 0 < level <= 2 && Down(free, k, free', k', vpn, level) && free' == 0 && PathAt(level - 1, vpn) !in k'
    ensures Spent(free, k, free', k', vpn, 0, true)
  {
    WaysNext(vpn, 0);
    assert PathAt(level - 1, vpn) in WayTo(vpn);
    Fewer(k' + {PathAt(level - 1, vpn)}, k + Ways(vpn, 1));
  }

  lemma {:induction false} Fewer<T>(a: set<T>, b: set<T>)
    requires a <= b
    ensures |a| <= |b|
    decreases |a|
  {
    if |a| > 0 {
      var x :| x in a;
      Fewer(a - {x}, b - {x});
    }
  }

  lemma SpentNone(free: nat, k: set<Path>, lo: nat)
    ensures Spent(free, k, free, k, lo, 0, false)
  {
    assert Ways(lo, 0) == {};
  }

  lemma SpentMore(free: nat, k: set<Path>, free1: nat, k1: set<Path>, free2: nat, k2: set<Path>, lo: nat, n: nat)
    requires Spent(free, k, free1, k1, lo, n, false) && Spent(free1, k1, free2, k2, lo + n, 1, false)
    ensures Spent(free, k, free2, k2, lo, n + 1, false)
  {
    hide WayTo, Ways;
    WaysJoin(k, lo, n);
  }

  lemma SpentOut(free: nat, k: set<Path>, free1: nat, k1: set<Path>, free2: nat, k2: set<Path>, lo: nat, n: nat)
    requires Spent(free, k, free1, k1, lo, n, false) && Spent(free1, k1, free2, k2, lo + n, 0, true)
    ensures Spent(free, k, free2, k2, lo, n, true)
  {
    hide WayTo, Ways;
    WaysJoin(k, lo, n);
  }

  lemma SpentSame(free: nat, k: set<Path>, free1: nat, k1: set<Path>, free2: nat, k2: set<Path>, lo: nat, n: nat)
    requires Spent(free, k, free1, k1, lo, n, false) && Spent(free1, k1, free2, k2, lo + n, 0, false)
    ensures Spent(free, k, free2, k2, lo, n, false)
  {
    assert Ways(lo + n, 0) == {};
    assert k2 == k1;
  }

  /** So many free pages are enough to map `n` pages from `lo` on under the tables `k`. */
  ghost predicate Suffices(free: nat, k: set<Path>, lo: nat, n: nat) {
    free + |k| >= |k + Ways(lo, n)|
  }

  lemma SpentDone(free: nat, k: set<Path>, free': nat, k': set<Path>, lo: nat, n: nat)
    requires Spent(free, k, free', k', lo, n, false)
    ensures Suffices(free, k, lo, n)
  {}

  lemma SpentShort(free: nat, k: set<Path>, free': nat, k': set<Path>, lo: nat, n: nat, total: nat)
    requires Spent(free, k, free', k', lo, n, true) && n < total
    ensures !Suffices(free, k, lo, total)
  {
    hide Ways;
    WaysMono(lo, n + 1, total);
    Fewer(k + Ways(lo, n + 1), k + Ways(lo, total));
  }

  /** How many tables below the root the first `n` pages need. */
  function TablesFor(n: nat): nat { (n + 511) / 512 + (n + 0x3_ffff) / 0x4_0000 }

  /** The first page under table `p`. */
  function FirstUnder(p: Path): nat {
    match p
    case Top => 0
    case Mid(i) => i * 0x4_0000
    case Low(i, j) => i * 0x4_0000 + j * 512
  }

  lemma {:induction false} WaysAre(n: nat, p: Path)
    requires n <= MAX_VPN && (p.Low? ==> p.j < 512)
    ensures p in Ways(0, n) <==> !p.Top? && FirstUnder(p) < n
    decreases n
  {
    hide WayTo, FirstUnder;
    if n > 0 {
      WaysAre(n - 1, p);
      WayIs(n - 1, p);
    }
  }

  lemma WayIs(v: nat, p: Path)
    requires v < MAX_VPN && (p.Low? ==> p.j < 512)
    ensures p in WayTo(v) ==> !p.Top? && FirstUnder(p) <= v
    ensures !p.Top? && FirstUnder(p) == v ==> p in WayTo(v)
  {
    match p
    case Top =>
    case Mid(i) => MidIs(v, i);
    case Low(i, j) => LowIs(v, i, j);
  }

  lemma MidIs(v: nat, i: nat)
    requires v < MAX_VPN
    ensures Mid(i) in WayTo(v) <==> i == v / 0x4_0000
    ensures (i == v / 0x4_0000 ==> i * 0x4_0000 <= v) && (i * 0x4_0000 == v ==> i == v / 0x4_0000)
  {}

  lemma LowIs(v: nat, i: nat, j: nat)
    requires v < MAX_VPN && j < 512
    ensures Low(i, j) in WayTo(v) <==> i == v / 0x4_0000 && j == v / 512 % 512
    ensures i == v / 0x4_0000 && j == v / 512 % 512 ==> i * 0x4_0000 + j * 512 <= v
    ensures i * 0x4_0000 + j * 512 == v ==> i == v / 0x4_0000 && j == v / 512 % 512
  {}

  lemma {:induction false} CountWays(n: nat)
    requires n <= MAX_VPN
    ensures |Ways(0, n)| == TablesFor(n) && Top !in Ways(0, n)
    decreases n
  {
    hide WayTo;
    WaysAre(n, Top);
    if n > 0 {
      var v := n - 1;
      CountWays(v);
      var m, l := Mid(v / 0x4_0000), Low(v / 0x4_0000, v / 512 % 512);
      NewTables(v);
      TablesStep(v);
      WaysNext(0, v);
      assert Ways(0, n) == Ways(0, v) + {m} + {l};
    }
  }

  lemma NewTables(v: nat)
    requires v < MAX_VPN
    ensures WayTo(v) == {Mid(v / 0x4_0000), Low(v / 0x4_0000, v / 512 % 512)}
    ensures Mid(v / 0x4_0000) in Ways(0, v) <==> v % 0x4_0000 != 0
    ensures Low(v / 0x4_0000, v / 512 % 512) in Ways(0, v) <==> v % 512 != 0
  {
    hide Ways, FirstUnder;
    WaysAre(v, Mid(v / 0x4_0000));
    WaysAre(v, Low(v / 0x4_0000, v / 512 % 512));
    FirstMid(v);
    FirstLow(v);
  }

  lemma FirstMid(v: nat)
    ensures FirstUnder(Mid(v / 0x4_0000)) < v <==> v % 0x4_0000 != 0
  {}

  lemma FirstLow(v: nat)
    ensures FirstUnder(Low(v / 0x4_0000, v / 512 % 512)) < v <==> v % 512 != 0
  {
    var a := v / 512;
    assert v / 0x4_0000 == a / 512;
    assert a / 512 * 0x4_0000 + a % 512 * 512 == a * 512;
  }

  lemma TablesStep(v: nat)
    ensures TablesFor(v + 1) == TablesFor(v) + (if v % 512 == 0 then 1 else 0) + (if v % 0x4_0000 == 0 then 1 else 0)
  {}

  lemma SufficesFresh(free: nat, n: nat)
    requires n <= MAX_VPN
    ensures Suffices(free, {Top}, 0, n) <==> free >= TablesFor(n)
  {
    CountWays(n);
    assert |{Top} + Ways(0, n)| == 1 + |Ways(0, n)|;
  }

  /** `n` pages have been allocated besides the tables to map them. */
  ghost predicate Paid(free0: nat, k0: set<Path>, free: nat, k: set<Path>, lo: nat, n: nat) {
    n <= free0 && Spent(free0 - n, k0, free, k, lo, n, false)
  }

  /** So many free pages are enough to allocate and map the pages from `lo` to `hi`, or to get as far as the first page
      beyond MAXVA. */
  ghost predicate Affords(free: nat, k: set<Path>, lo: nat, hi: nat) {
    var n := Within(lo, hi);
    free + |k| >= |k + Ways(lo, n)| + n + if hi > MAX_VPN then 1 else 0
  }

  function Within(lo: nat, hi: nat): nat {
    var m := if hi <= MAX_VPN then hi else MAX_VPN;
    if lo <= m then m - lo else 0
  }

  lemma PaidNone(free: nat, k: set<Path>, lo: nat)
    ensures Paid(free, k, free, k, lo, 0)
  {
    SpentNone(free, k, lo);
  }

  lemma PaidMore(free0: nat, k0: set<Path>, free1: nat, k1: set<Path>, free2: nat, k2: set<Path>, lo: nat, a: nat)
    requires lo <= a && Paid(free0, k0, free1, k1, lo, a - lo) && free1 > 0
             && Spent(free1 - 1, k1, free2, k2, a, 1, false)
    ensures Paid(free0, k0, free2, k2, lo, a - lo + 1)
  {
    hide Ways;
    var n := a - lo;
    Fewer(k0, k1);
    assert Spent(free0 - n - 1, k0, free1 - 1, k1, lo, n, false);
    SpentMore(free0 - n - 1, k0, free1 - 1, k1, free2, k2, lo, n);
  }

  lemma PaidShort(free0: nat, k0: set<Path>, free1: nat, k1: set<Path>, lo: nat, a: nat, hi: nat)
    requires lo <= a < hi && a <= MAX_VPN && Paid(free0, k0, free1, k1, lo, a - lo)
    requires free1 == 0 || (a < MAX_VPN && !Suffices(free1 - 1, k1, a, 1))
    ensures !Affords(free0, k0, lo, hi)
  {
    hide Ways;
    var n, total := a - lo, Within(lo, hi);
    WaysMono(lo, n, total);
    Fewer(k0 + Ways(lo, n), k0 + Ways(lo, total));
    if free1 > 0 {
      WaysJoin(k0, lo, n);
      WaysMono(lo, n + 1, total);
      Fewer(k0 + Ways(lo, n + 1), k0 + Ways(lo, total));
    }
  }

  lemma PaidAll(free0: nat, k0: set<Path>, free1: nat, k1: set<Path>, lo: nat, a: nat, hi: nat)
    requires lo <= a && Paid(free0, k0, free1, k1, lo, a - lo)
    requires if hi <= MAX_VPN then a == hi else a == MAX_VPN && free1 > 0
    ensures Affords(free0, k0, lo, hi)
  {
    hide Ways;
  }

  lemma {:induction false} WaysMono(lo: nat, n: nat, m: nat)
    requires n <= m
    ensures Ways(lo, n) <= Ways(lo, m)
    decreases m
  {
    hide WayTo;
    if n < m {
      WaysMono(lo, n, m - 1);
    }
  }

  lemma WaysNext(lo: nat, n: nat)
    ensures Ways(lo, 0) == {} && Ways(lo, n + 1) == Ways(lo, n) + WayTo(lo + n)
  {
    hide WayTo;
  }

  lemma WaysJoin(k: set<Path>, lo: nat, n: nat)
    ensures k + Ways(lo, n) + Ways(lo + n, 1) == k + Ways(lo, n + 1)
  {
    hide WayTo, Ways;
    WaysNext(lo, n);
    WaysNext(lo + n, 0);
  }

  /** Every leaf slot belongs to a page number below MAXVA. */
  lemma SlotHasPage(i: nat, j: nat, k: nat) returns (vpn: nat)
    requires i < MAX_TOP && j < NPTE && k < NPTE
    ensures vpn < MAX_VPN && PathAt(0, vpn) == Low(i, j) && Px(0, vpn) == k
  {
    vpn := i * 0x40000 + j * 512 + k;
    assert vpn / 512 == i * 512 + j;
    assert vpn / 0x40000 == i;
  }

  /** Distinct page numbers below MAXVA never share a leaf slot. */
  lemma SlotsAreDistinct(a: nat, b: nat)
    requires a < MAX_VPN && b < MAX_VPN
    requires PathAt(0, a) == PathAt(0, b) && Px(0, a) == Px(0, b)
    ensures a == b
  {
    Digits(a);
    Digits(b);
  }

  lemma Digits(a: nat)
    requires a < MAX_VPN
    ensures a == Px(2, a) * 0x40000 + Px(1, a) * 512 + Px(0, a)
  {
    assert a / 0x40000 == a / 512 / 512;
  }

  ghost predicate IsTable(p: Page) {
    p.Table? && |p.entries| == NPTE
  }

  ghost predicate IsBranch(e: Pte) {
    e.v && !e.r && !e.w && !e.x
  }

  /** The valid entries of a non-leaf table are exactly the branches to its children. */
  ghost predicate NodeInv(pages: map<Ppn, Page>, t: Tree, p: Path)
    requires Tables(pages, t) && p in t && !p.Low?
  {
    forall i :: 0 <= i < NPTE ==> EntryInv(pages[t[p]].entries[i], t, Child(p, i))
  }

  ghost predicate EntryInv(e: Pte, t: Tree, child: Path) {
    && (e.v <==> child in t)
    && (e.v ==> IsBranch(e) && e.ppn == t[child])
  }

  ghost predicate PathInv(t: Tree, p: Path) {
    match p
    case Top => true
    case Mid(i) => i < MAX_TOP
    case Low(i, j) => i < MAX_TOP && j < NPTE && Mid(i) in t
  }

  ghost predicate Injective(t: Tree) {
    forall p, q :: p in t && q in t && t[p] == t[q] ==> p == q
  }

  ghost predicate TreeInv(pages: map<Ppn, Page>, t: Tree, root: Ppn) {
    && Top in t && t[Top] == root
    && Tables(pages, t) && Injective(t)
    && (forall p :: p in t ==> PathInv(t, p))
    && (forall p :: p in t && !p.Low? ==> NodeInv(pages, t, p))
  }

  ghost predicate Tables(pages: map<Ppn, Page>, t: Tree) {
    forall p :: p in t ==> t[p] in pages && IsTable(pages[t[p]])
  }

  /** The flat map: the entry of page `vpn`, zero when its leaf table is missing. */
  ghost function Leaf(pages: map<Ppn, Page>, t: Tree, vpn: nat): Pte
    requires Tables(pages, t)
  {
    var p := PathAt(0, vpn);
    if p in t then
      assert IsTable(pages[t[p]]);
      pages[t[p]].entries[Px(0, vpn)]
    else ZERO_PTE
  }

  /** Changes outside a tree's own pages leave it, and its flat map, alone. */
  lemma TreeFrame(pages: map<Ppn, Page>, pages': map<Ppn, Page>, t: Tree, root: Ppn)
    requires TreeInv(pages, t, root)
    requires forall p :: p in t ==> t[p] in pages' && pages'[t[p]] == pages[t[p]]
    ensures TreeInv(pages', t, root)
    ensures forall vpn :: 0 <= vpn < MAX_VPN ==> Leaf(pages', t, vpn) == Leaf(pages, t, vpn)
  {
    forall p | p in t && !p.Low? ensures NodeInv(pages', t, p) {
      assert NodeInv(pages, t, p);
    }
  }

  function StorePte(pages: map<Ppn, Page>, q: Ppn, i: nat, e: Pte): map<Ppn, Page>
    requires q in pages && pages[q].Table? && i < |pages[q].entries|
  {
    pages[q := Table(pages[q].entries[i := e])]
  }

  /** Storing through the slot that `walk` returned changes the flat map at that page only. */
  lemma StoreLeaf(pages: map<Ppn, Page>, t: Tree, root: Ppn, vpn: nat, e: Pte)
    requires TreeInv(pages, t, root) && vpn < MAX_VPN && PathAt(0, vpn) in t
    ensures var pages' := StorePte(pages, t[PathAt(0, vpn)], Px(0, vpn), e);
            && TreeInv(pages', t, root)
            && forall v :: 0 <= v < MAX_VPN ==> Leaf(pages', t, v) == if v == vpn then e else Leaf(pages, t, v)
  {
    var low := PathAt(0, vpn);
    var pages' := StorePte(pages, t[low], Px(0, vpn), e);
    forall p | p in t && !p.Low? ensures NodeInv(pages', t, p) {
      assert NodeInv(pages, t, p);
    }
    forall v | 0 <= v < MAX_VPN
      ensures Leaf(pages', t, v) == if v == vpn then e else Leaf(pages, t, v)
    {
      if PathAt(0, v) == low && Px(0, v) == Px(0, vpn) {
        SlotsAreDistinct(v, vpn);
      }
    }
  }

  /** Hanging a zeroed table under an empty entry extends the tree and keeps the flat map. */
  lemma AttachTable(pages: map<Ppn, Page>, t: Tree, root: Ppn, p: Path, i: nat, q: Ppn)
    requires TreeInv(pages, t, root) && p in t && !p.Low? && i < Fanout(p) && Child(p, i) !in t
    requires q !in t.Values
    ensures NodeInv(pages, t, p)
    ensures var pages' := StorePte(pages[q := ZeroTable()], t[p], i, Branch(q));
            var t' := t[Child(p, i) := q];
            && TreeInv(pages', t', root)
            && forall v :: 0 <= v < MAX_VPN ==> Leaf(pages', t', v) == Leaf(pages, t, v)
  {
    assert NodeInv(pages, t, p);
    var pages' := StorePte(pages[q := ZeroTable()], t[p], i, Branch(q));
    var t' := t[Child(p, i) := q];
    forall x | x in t' ensures PathInv(t', x) {
      assert x in t ==> PathInv(t, x);
    }
    forall x | x in t' && !x.Low? ensures NodeInv(pages', t', x) {
      assert x in t ==> NodeInv(pages, t, x);
    }
  }

  function ZeroTable(): Page {
    Table(seq(NPTE, _ => ZERO_PTE))
  }

  function Branch(q: Ppn): Pte {
    ZERO_PTE.(ppn := q, v := true)
  }

  /** What walk returns: its panic, the null pointer, or the address of an entry. */
  datatype Slot = Panic | Missing | At(table: Ppn, index: nat)

  /** `t'` extends `t` by pages that were free before and now have count 1; no other count changed. */
  ghost predicate Grew(refs: map<Ppn, int>, refs': map<Ppn, int>, t: Tree, t': Tree) {
    && refs'.Keys == refs.Keys
    && (forall p :: p in t ==> p in t' && t'[p] == t[p])
    && (forall q :: q in refs ==>
          refs'[q] == if q in t'.Values && q !in t.Values then 1 else refs[q])
    && (forall q :: q in t'.Values && q !in t.Values ==> q in refs && refs[q] == 0)
  }

  /** Only the pages of the tree changed. */
  ghost predicate SameOutside(pages: map<Ppn, Page>, pages': map<Ppn, Page>, t': Tree) {
    && pages'.Keys == pages.Keys
    && forall q :: q in pages && q !in t'.Values ==> pages'[q] == pages[q]
  }

  ghost predicate SameFlat(pages: map<Ppn, Page>, t: Tree, pages': map<Ppn, Page>, t': Tree)
    requires Tables(pages, t) && Tables(pages', t')
  {
    forall v :: 0 <= v < MAX_VPN ==> Leaf(pages', t', v) == Leaf(pages, t, v)
  }

  ghost predicate OwnsTree(m: PhysicalMemory, t: Tree)
    reads m
  {
    forall p :: p in t ==> t[p] in m.managed && t[p] in m.refs && m.refs[t[p]] == 1
  }

  /** Everything a step of walk keeps, from the tree `t` it started with to the tree `t'` it made. */
  ghost predicate WalkKeeps(pages: map<Ppn, Page>, refs: map<Ppn, int>, pages': map<Ppn, Page>, refs': map<Ppn, int>,
                            t: Tree, t': Tree)
    requires Tables(pages, t) && Tables(pages', t')
  {
    && Grew(refs, refs', t, t')
    && SameOutside(pages, pages', t')
    && SameFlat(pages, t, pages', t')
  }

  lemma WalkKeepsTrans(pages0: map<Ppn, Page>, refs0: map<Ppn, int>, t0: Tree,
                       pages1: map<Ppn, Page>, refs1: map<Ppn, int>, t1: Tree,
                       pages2: map<Ppn, Page>, refs2: map<Ppn, int>, t2: Tree)
    requires Tables(pages0, t0) && Tables(pages1, t1) && Tables(pages2, t2)
    requires WalkKeeps(pages0, refs0, pages1, refs1, t0, t1) && WalkKeeps(pages1, refs1, pages2, refs2, t1, t2)
    ensures WalkKeeps(pages0, refs0, pages2, refs2, t0, t2)
  {
    assert t0.Values <= t1.Values <= t2.Values;
  }

  lemma WalkKeepsRefl(pages: map<Ppn, Page>, refs: map<Ppn, int>, t: Tree)
    requires Tables(pages, t)
    ensures WalkKeeps(pages, refs, pages, refs, t, t)
  {}

  lemma AttachKeeps(pages: map<Ppn, Page>, refs: map<Ppn, int>, t: Tree, root: Ppn, p: Path, i: nat, q: Ppn)
    requires TreeInv(pages, t, root) && p in t && !p.Low? && i < Fanout(p) && Child(p, i) !in t
    requires q !in t.Values && q in pages && q in refs && refs[q] == 0
    ensures var pages' := StorePte(pages[q := ZeroTable()], t[p], i, Branch(q));
            var t' := t[Child(p, i) := q];
            TreeInv(pages', t', root) && WalkKeeps(pages, refs, pages', refs[q := 1], t, t')
  {
    AttachTable(pages, t, root, p, i, q);
    hide TreeInv, Leaf;
    ValuesInsert(t, Child(p, i), q);
    assert t[p] in t.Values;
  }

  lemma ValuesInsert<K, V>(t: map<K, V>, k: K, v: V)
    requires k !in t
    ensures t[k := v].Values == t.Values + {v}
  {
    var t' := t[k := v];
    assert t'[k] == v;
    forall x | x in t.Values ensures x in t'.Values {
      var y :| y in t && t[y] == x;
      assert t'[y] == x;
    }
  }

  /** The allocating branch of walk: a zeroed table under the empty entry `i`. */
  method AddTable(m: PhysicalMemory, table: Ppn, i: nat, ghost p: Path, ghost root: Ppn, ghost t: Tree)
    returns (page: Ppn, ghost t': Tree)
    requires m.Valid() && TreeInv(m.pages, t, root) && OwnsTree(m, t)
    requires p in t && !p.Low? && table == t[p] && i < Fanout(p) && Child(p, i) !in t
    modifies m
    ensures m.Valid() && m.managed == old(m.managed)
    ensures TreeInv(m.pages, t', root) && OwnsTree(m, t')
    ensures WalkKeeps(old(m.pages), old(m.refs), m.pages, m.refs, t, t')
    ensures page == NULL ==> t' == t && forall q :: q in m.managed ==> m.refs[q] != 0
    ensures page != NULL ==> t' == t[Child(p, i) := page]
    ensures page == NULL ==> |old(m.FreePages())| == 0 && m.FreePages() == old(m.FreePages())
    ensures |old(m.FreePages())| <= |m.FreePages()| + 1
    ensures |old(m.FreePages())| + |t.Keys| == |m.FreePages()| + |t'.Keys|
  {
    hide IsChain, NoDup, WalkKeeps, NodeInv, PathInv, Injective;
    t' := t;
    WalkKeepsRefl(m.pages, m.refs, t);
    ghost var before := m.pages;
    page := m.KAlloc();
    if page != NULL {
      assert page !in t.Values;
      AttachKeeps(before, old(m.refs), t, root, p, i, page);
      assert old(m.refs)[t[p]] == 1;
      m.SetPage(page, ZeroTable());
      m.SetPage(table, Table(m.pages[table].entries[i := Branch(page)]));
      t' := t[Child(p, i) := page];
      assert m.pages == StorePte(before[page := ZeroTable()], table, i, Branch(page));
    }
  }

  /** Where a table is missing, so are those below it. */
  lemma NoWay(pages: map<Ppn, Page>, t: Tree, root: Ppn, vpn: nat, level: nat)
    requires TreeInv(pages, t, root) && 0 < level <= 2 && PathAt(level - 1, vpn) !in t
    ensures PathAt(0, vpn) !in t
  {
    hide NodeInv, Injective;
  }

  /** One round of the loop of walk: the table one level down, made if need be. */
  method Descend(m: PhysicalMemory, root: Ppn, vpn: nat, level: nat, table: Ppn, alloc: bool, ghost t: Tree)
    returns (found: bool, next: Ppn, ghost t': Tree)
    requires m.Valid() && TreeInv(m.pages, t, root) && OwnsTree(m, t) && 0 < level <= 2 && vpn < MAX_VPN
    requires PathAt(level, vpn) in t && table == t[PathAt(level, vpn)]
    modifies m
    ensures m.Valid() && m.managed == old(m.managed)
    ensures TreeInv(m.pages, t', root) && OwnsTree(m, t')
    ensures WalkKeeps(old(m.pages), old(m.refs), m.pages, m.refs, t, t')
    ensures !alloc ==> t' == t && m.pages == old(m.pages) && m.refs == old(m.refs)
    ensures forall p :: p in t ==> p in t'
    ensures found <==> PathAt(level - 1, vpn) in t'
    ensures found ==> next == t'[PathAt(level - 1, vpn)] && t'.Keys == t.Keys + {PathAt(level - 1, vpn)}
    ensures !found ==> t' == t && m.FreePages() == old(m.FreePages())
    ensures !found && alloc ==> |m.FreePages()| == 0 && forall q :: q in m.managed ==> m.refs[q] != 0
    ensures |old(m.FreePages())| <= |m.FreePages()| + 1
    ensures |old(m.FreePages())| + |t.Keys| == |m.FreePages()| + |t'.Keys|
  {
    hide IsChain, NoDup, SameFlat, SameOutside, Grew, OwnsTree, WalkKeeps, PhysicalMemory.FreePages, PathInv, Injective;
    t' := t;
    WalkKeepsRefl(m.pages, m.refs, t);
    ghost var p := PathAt(level, vpn);
    var i := Px(level, vpn);
    assert NodeInv(m.pages, t, p);
    assert Child(p, i) == PathAt(level - 1, vpn);
    var pte := m.pages[table].entries[i];
    if pte.v {
      assert t.Keys == t.Keys + {PathAt(level - 1, vpn)};
      return true, pte.ppn, t';
    }
    if !alloc {
      return false, NULL, t';
    }
    next, t' := AddTable(m, table, i, p, root, t);
    found := next != NULL;
  }

  /** walk: with alloc, creates the missing tables; whatever the outcome, the flat map is unchanged. */
  method Walk(m: PhysicalMemory, root: Ppn, vpn: nat, alloc: bool, ghost t: Tree)
    returns (r: Slot, ghost t': Tree)
    requires m.Valid() && TreeInv(m.pages, t, root) && OwnsTree(m, t)
    modifies m
    ensures m.Valid() && m.managed == old(m.managed)
    ensures TreeInv(m.pages, t', root) && OwnsTree(m, t')
    ensures WalkKeeps(old(m.pages), old(m.refs), m.pages, m.refs, t, t')
    ensures !alloc ==> t' == t && m.pages == old(m.pages) && m.refs == old(m.refs)
    ensures r.Panic? <==> vpn >= MAX_VPN
    ensures r.Panic? ==> t' == t && m.pages == old(m.pages) && m.refs == old(m.refs)
    ensures r.At? <==> vpn < MAX_VPN && PathAt(0, vpn) in t'
    ensures forall p :: p in t ==> p in t'
    ensures r.At? ==> r == At(t'[PathAt(0, vpn)], Px(0, vpn))
    ensures r.Missing? && alloc ==> forall q :: q in m.managed ==> m.refs[q] != 0
    ensures r.Missing? && alloc ==> |old(m.FreePages())| < 2
    ensures |old(m.FreePages())| <= |m.FreePages()| + 2
    ensures alloc ==>
              Spent(|old(m.FreePages())|, t.Keys, |m.FreePages()|, t'.Keys, vpn, if r.At? then 1 else 0, r.Missing?)
  {
    hide IsChain, NoDup, SameFlat, SameOutside, Grew, OwnsTree, WalkKeeps, PhysicalMemory.FreePages, Down, Spent,
         PathInv, Injective, NodeInv;
    DownStart(|m.FreePages()|, t.Keys, vpn);
    t' := t;
    WalkKeepsRefl(m.pages, m.refs, t);
    if vpn >= MAX_VPN {
      return Panic, t';
    }
    var table := root;
    var level := 2;
    while level > 0
      invariant 0 <= level <= 2
      invariant PathAt(level, vpn) in t' && table == t'[PathAt(level, vpn)]
      invariant m.Valid() && m.managed == old(m.managed)
      invariant TreeInv(m.pages, t', root) && OwnsTree(m, t')
      invariant WalkKeeps(old(m.pages), old(m.refs), m.pages, m.refs, t, t')
      invariant !alloc ==> t' == t && m.pages == old(m.pages) && m.refs == old(m.refs)
      invariant forall p :: p in t ==> p in t'
      invariant |old(m.FreePages())| <= |m.FreePages()| + (2 - level)
      invariant Down(|old(m.FreePages())|, t.Keys, |m.FreePages()|, t'.Keys, vpn, level)
    {
      ghost var pages1, refs1, t1, free1 := m.pages, m.refs, t', |m.FreePages()|;
      var found;
      found, table, t' := Descend(m, root, vpn, level, table, alloc, t1);
      WalkKeepsTrans(old(m.pages), old(m.refs), t, pages1, refs1, t1, m.pages, m.refs, t');
      if !found {
        NoWay(m.pages, t', root, vpn, level);
        if alloc {
          DownShort(|old(m.FreePages())|, t.Keys, |m.FreePages()|, t'.Keys, vpn, level);
        }
        return Missing, t';
      }
      DownMore(|old(m.FreePages())|, t.Keys, free1, t1.Keys, |m.FreePages()|, t'.Keys, vpn, level);
      level := level - 1;
    }
    DownEnd(|old(m.FreePages())|, t.Keys, |m.FreePages()|, t'.Keys, vpn);
    r := At(table, Px(0, vpn));
  }

  datatype Outcome = Done | OutOfMemory | Panicked

  /** The flat map after the first `done` pages of a range were mapped. */
  ghost predicate Mapped(pages: map<Ppn, Page>, t: Tree, pages': map<Ppn, Page>, t': Tree,
                         vpn: nat, done: nat, ppn: Ppn, perm: Pte)
    requires Tables(pages, t) && Tables(pages', t')
  {
    forall v :: 0 <= v < MAX_VPN ==>
      Leaf(pages', t', v) == if vpn <= v < vpn + done then perm.(ppn := ppn + (v - vpn), v := true)
                             else Leaf(pages, t, v)
  }

  lemma GrewTrans(refs0: map<Ppn, int>, refs1: map<Ppn, int>, refs2: map<Ppn, int>, t0: Tree, t1: Tree, t2: Tree)
    requires Grew(refs0, refs1, t0, t1) && Grew(refs1, refs2, t1, t2)
    ensures Grew(refs0, refs2, t0, t2)
  {
    assert t0.Values <= t1.Values <= t2.Values;
  }

  lemma SameOutsideTrans(pages0: map<Ppn, Page>, pages1: map<Ppn, Page>, pages2: map<Ppn, Page>, t1: Tree, t2: Tree)
    requires SameOutside(pages0, pages1, t1) && SameOutside(pages1, pages2, t2)
    requires forall p :: p in t1 ==> p in t2 && t2[p] == t1[p]
    ensures SameOutside(pages0, pages2, t2)
  {
    assert t1.Values <= t2.Values;
  }

  lemma MappedTrans(pages0: map<Ppn, Page>, t0: Tree, pages1: map<Ppn, Page>, t1: Tree, pages2: map<Ppn, Page>,
      t2: Tree,
                    vpn: nat, done: nat, more: nat, ppn: Ppn, perm: Pte)
    requires Tables(pages0, t0) && Tables(pages1, t1) && Tables(pages2, t2)
    requires Mapped(pages0, t0, pages1, t1, vpn, done, ppn, perm)
    requires Mapped(pages1, t1, pages2, t2, vpn + done, more, ppn + done, perm)
    ensures Mapped(pages0, t0, pages2, t2, vpn, done + more, ppn, perm)
  {
    hide Leaf;
  }

  /** The entries of the range from `vpn` change, to the frames from `ppn`; nothing else does. */
  ghost predicate MapKeeps(pages: map<Ppn, Page>, refs: map<Ppn, int>, t: Tree,
                           pages': map<Ppn, Page>, refs': map<Ppn, int>, t': Tree,
                           vpn: nat, done: nat, ppn: Ppn, perm: Pte)
    requires Tables(pages, t) && Tables(pages', t')
  {
    && Grew(refs, refs', t, t') && SameOutside(pages, pages', t')
    && Mapped(pages, t, pages', t', vpn, done, ppn, perm)
  }

  lemma MapKeepsTrans(pages0: map<Ppn, Page>, refs0: map<Ppn, int>, t0: Tree,
                      pages1: map<Ppn, Page>, refs1: map<Ppn, int>, t1: Tree,
                      pages2: map<Ppn, Page>, refs2: map<Ppn, int>, t2: Tree,
                      vpn: nat, done: nat, more: nat, ppn: Ppn, perm: Pte)
    requires Tables(pages0, t0) && Tables(pages1, t1) && Tables(pages2, t2)
    requires MapKeeps(pages0, refs0, t0, pages1, refs1, t1, vpn, done, ppn, perm)
    requires MapKeeps(pages1, refs1, t1, pages2, refs2, t2, vpn + done, more, ppn + done, perm)
    ensures MapKeeps(pages0, refs0, t0, pages2, refs2, t2, vpn, done + more, ppn, perm)
  {
    GrewTrans(refs0, refs1, refs2, t0, t1, t2);
    SameOutsideTrans(pages0, pages1, pages2, t1, t2);
    MappedTrans(pages0, t0, pages1, t1, pages2, t2, vpn, done, more, ppn, perm);
  }

  lemma WalkMapsNothing(pages: map<Ppn, Page>, refs: map<Ppn, int>, t: Tree,
                        pages': map<Ppn, Page>, refs': map<Ppn, int>, t': Tree, vpn: nat, ppn: Ppn, perm: Pte)
    requires Tables(pages, t) && Tables(pages', t') && WalkKeeps(pages, refs, pages', refs', t, t')
    ensures MapKeeps(pages, refs, t, pages', refs', t', vpn, 0, ppn, perm)
  {
    hide Leaf;
  }

  lemma StoreMapsOne(pages: map<Ppn, Page>, refs: map<Ppn, int>, t: Tree,
                     pages': map<Ppn, Page>, refs': map<Ppn, int>, t': Tree, root: Ppn, vpn: nat, ppn: Ppn, perm: Pte)
    requires Tables(pages, t) && TreeInv(pages', t', root) && WalkKeeps(pages, refs, pages', refs', t, t')
    requires vpn < MAX_VPN && PathAt(0, vpn) in t'
    ensures var pages'' := StorePte(pages', t'[PathAt(0, vpn)], Px(0, vpn), perm.(ppn := ppn, v := true));
            TreeInv(pages'', t', root) && MapKeeps(pages, refs, t, pages'', refs', t', vpn, 1, ppn, perm)
  {
    hide NodeInv, PathInv, Injective, Leaf, SameOutside, Grew, StorePte;
    var e := perm.(ppn := ppn, v := true);
    StoreLeaf(pages', t', root, vpn, e);
    StoreInside(pages, pages', t', PathAt(0, vpn), Px(0, vpn), e);
  }

  lemma StoreInside(pages: map<Ppn, Page>, pages': map<Ppn, Page>, t: Tree, p: Path, i: nat, e: Pte)
    requires SameOutside(pages, pages', t) && Tables(pages', t) && p in t && i < NPTE
    ensures SameOutside(pages, StorePte(pages', t[p], i, e), t)
  {
    assert t[p] in t.Values;
  }

  /** One round of the loop of mappages: walk, then store the entry. */
  method MapOne(m: PhysicalMemory, root: Ppn, vpn: nat, ppn: Ppn, perm: Pte, ghost t: Tree)
    returns (r: Outcome, ghost t': Tree)
    requires m.Valid() && TreeInv(m.pages, t, root) && OwnsTree(m, t)
    modifies m
    ensures m.Valid() && m.managed == old(m.managed)
    ensures TreeInv(m.pages, t', root) && OwnsTree(m, t')
    ensures MapKeeps(old(m.pages), old(m.refs), t, m.pages, m.refs, t', vpn, if r.Done? then 1 else 0, ppn, perm)
    ensures r.Panicked? <==> vpn >= MAX_VPN
    ensures vpn < MAX_VPN && PathAt(0, vpn) in t ==> r.Done?
    ensures forall p :: p in t ==> p in t'
    ensures r.OutOfMemory? ==> forall q :: q in m.managed ==> m.refs[q] != 0
    ensures r.OutOfMemory? ==> |old(m.FreePages())| < 2
    ensures |old(m.FreePages())| <= |m.FreePages()| + 2
    ensures Spent(|old(m.FreePages())|, t.Keys, |m.FreePages()|, t'.Keys, vpn, if r.Done? then 1 else 0, r.OutOfMemory?)
  {
    hide IsChain, NoDup, NodeInv, PathInv, Injective, WalkKeeps, MapKeeps, PathAt, PhysicalMemory.FreePages, Spent;
    var slot;
    slot, t' := Walk(m, root, vpn, true, t);
    if slot.At? {
      StoreMapsOne(old(m.pages), old(m.refs), t, m.pages, m.refs, t', root, vpn, ppn, perm);
      m.SetPage(slot.table, Table(m.pages[slot.table].entries[slot.index := perm.(ppn := ppn, v := true)]));
      r := Done;
    } else {
      WalkMapsNothing(old(m.pages), old(m.refs), t, m.pages, m.refs, t', vpn, ppn, perm);
      r := if slot.Panic? then Panicked else OutOfMemory;
    }
  }

  lemma MapNothing(pages: map<Ppn, Page>, refs: map<Ppn, int>, t: Tree, vpn: nat, ppn: Ppn, perm: Pte)
    requires Tables(pages, t)
    ensures MapKeeps(pages, refs, t, pages, refs, t, vpn, 0, ppn, perm)
  {
    hide Leaf;
  }

  /** The loop of mappages over `n` pages. */
  method MapRange(m: PhysicalMemory, root: Ppn, vpn: nat, n: nat, ppn: Ppn, perm: Pte, ghost t: Tree)
    returns (r: Outcome, ghost t': Tree, ghost done: nat)
    requires m.Valid() && TreeInv(m.pages, t, root) && OwnsTree(m, t) && n > 0
    modifies m
    ensures m.Valid() && m.managed == old(m.managed)
    ensures TreeInv(m.pages, t', root) && OwnsTree(m, t')
    ensures MapKeeps(old(m.pages), old(m.refs), t, m.pages, m.refs, t', vpn, done, ppn, perm)
    ensures if r.Done? then done == n else done < n
    ensures done > 0 ==> vpn + done <= MAX_VPN
    ensures r.Panicked? ==> vpn + done >= MAX_VPN
    ensures r.OutOfMemory? ==> vpn + done < MAX_VPN && PathAt(0, vpn + done) !in t
    ensures r.OutOfMemory? ==> forall q :: q in m.managed ==> m.refs[q] != 0
    ensures r.OutOfMemory? ==> |old(m.FreePages())| < 2 * n
    ensures |old(m.FreePages())| <= |m.FreePages()| + 2 * n
    ensures Spent(|old(m.FreePages())|, t.Keys, |m.FreePages()|, t'.Keys, vpn, done, r.OutOfMemory?)
  {
    hide PhysicalMemory.Valid, NodeInv, PathInv, Injective, OwnsTree, Grew, SameOutside, Mapped, PathAt,
         PhysicalMemory.FreePages, Spent;
    SpentNone(|m.FreePages()|, t.Keys, vpn);
    MapNothing(m.pages, m.refs, t, vpn, ppn, perm);
    t', done := t, 0;
    var a, last, p := vpn, vpn + n - 1, ppn;
    while true
      invariant a == vpn + done <= last && p == ppn + done
      invariant done > 0 ==> a <= MAX_VPN
      invariant m.Valid() && m.managed == old(m.managed)
      invariant TreeInv(m.pages, t', root) && OwnsTree(m, t')
      invariant MapKeeps(old(m.pages), old(m.refs), t, m.pages, m.refs, t', vpn, done, ppn, perm)
      invariant forall x :: x in t ==> x in t'
      invariant |old(m.FreePages())| <= |m.FreePages()| + 2 * done
      invariant Spent(|old(m.FreePages())|, t.Keys, |m.FreePages()|, t'.Keys, vpn, done, false)
      decreases last - a
    {
      ghost var pages1, refs1, t1, free1 := m.pages, m.refs, t', |m.FreePages()|;
      r, t' := MapOne(m, root, a, p, perm, t1);
      ghost var more := if r.Done? then 1 else 0;
      MapKeepsTrans(old(m.pages), old(m.refs), t, pages1, refs1, t1, m.pages, m.refs, t', vpn, done, more, ppn, perm);
      match r {
        case Done => SpentMore(|old(m.FreePages())|, t.Keys, free1, t1.Keys, |m.FreePages()|, t'.Keys, vpn, done);
        case OutOfMemory => SpentOut(|old(m.FreePages())|, t.Keys, free1, t1.Keys, |m.FreePages()|, t'.Keys, vpn, done);
        case Panicked => SpentSame(|old(m.FreePages())|, t.Keys, free1, t1.Keys, |m.FreePages()|, t'.Keys, vpn, done);
      }
      if !r.Done? {
        return;
      }
      done := done + 1;
      if a == last {
        return;
      }
      a, p := a + 1, p + 1;
    }
  }

  /** mappages: on success exactly the pages of the range change in the flat map; a failure leaves
      a prefix of them mapped and means that memory ran out. */
  method MapPages(m: PhysicalMemory, root: Ppn, va: nat, size: nat, pa: nat, perm: Pte, ghost t: Tree)
    returns (r: Outcome, ghost t': Tree, ghost done: nat)
    requires m.Valid() && TreeInv(m.pages, t, root) && OwnsTree(m, t)
    modifies m
    ensures m.Valid() && m.managed == old(m.managed)
    ensures TreeInv(m.pages, t', root) && OwnsTree(m, t')
    ensures MapKeeps(old(m.pages), old(m.refs), t, m.pages, m.refs, t', va / PAGE_SIZE, done, pa / PAGE_SIZE, perm)
    ensures r.Done? <==> done == size / PAGE_SIZE && size > 0 && va % PAGE_SIZE == size % PAGE_SIZE == 0
    ensures done <= size / PAGE_SIZE
    ensures done > 0 ==> va / PAGE_SIZE + done <= MAX_VPN
    ensures r.Panicked? ==>
              va % PAGE_SIZE != 0 || size % PAGE_SIZE != 0 || size == 0 || va / PAGE_SIZE + done >= MAX_VPN
    ensures r.OutOfMemory? ==> va / PAGE_SIZE + done < MAX_VPN && PathAt(0, va / PAGE_SIZE + done) !in t
    ensures r.OutOfMemory? ==> forall q :: q in m.managed ==> m.refs[q] != 0
    ensures r.OutOfMemory? ==> |old(m.FreePages())| < 2 * (size / PAGE_SIZE)
    ensures |old(m.FreePages())| <= |m.FreePages()| + 2 * (size / PAGE_SIZE)
    ensures Spent(|old(m.FreePages())|, t.Keys, |m.FreePages()|, t'.Keys, va / PAGE_SIZE, done, r.OutOfMemory?)
  {
    hide PhysicalMemory.Valid, NodeInv, PathInv, Injective, OwnsTree, Grew, SameOutside, Mapped, PathAt,
         PhysicalMemory.FreePages, Spent;
    SpentNone(|m.FreePages()|, t.Keys, va / PAGE_SIZE);
    if va % PAGE_SIZE != 0 || size % PAGE_SIZE != 0 || size == 0 {
      MapNothing(m.pages, m.refs, t, va / PAGE_SIZE, pa / PAGE_SIZE, perm);
      return Panicked, t, 0;
    }
    r, t', done := MapRange(m, root, va / PAGE_SIZE, size / PAGE_SIZE, pa / PAGE_SIZE, perm, t);
  }

  /** mappages of a single page. */
  method MapPage(m: PhysicalMemory, root: Ppn, vpn: nat, ppn: Ppn, perm: Pte, ghost t: Tree)
    returns (r: Outcome, ghost t': Tree)
    requires m.Valid() && TreeInv(m.pages, t, root) && OwnsTree(m, t)
    modifies m
    ensures m.Valid() && m.managed == old(m.managed)
    ensures TreeInv(m.pages, t', root) && OwnsTree(m, t') && t'.Values <= m.managed
    ensures MapKeeps(old(m.pages), old(m.refs), t, m.pages, m.refs, t', vpn, if r.Done? then 1 else 0, ppn, perm)
    ensures if vpn < MAX_VPN then !r.Panicked? && (PathAt(0, vpn) in t ==> r.Done?) else r.Panicked?
    ensures r.OutOfMemory? ==> forall q :: q in m.managed ==> m.refs[q] != 0
    ensures r.OutOfMemory? ==> |old(m.FreePages())| < 2
    ensures |old(m.FreePages())| <= |m.FreePages()| + 2
    ensures Spent(|old(m.FreePages())|, t.Keys, |m.FreePages()|, t'.Keys, vpn, if r.Done? then 1 else 0, r.OutOfMemory?)
  {
    hide PhysicalMemory.Valid, NodeInv, PathInv, Injective, Grew, SameOutside, Mapped, PathAt, PhysicalMemory.FreePages,
         Spent;
    WholePage(vpn);
    WholePage(ppn);
    ghost var done;
    r, t', done := MapPages(m, root, vpn * PAGE_SIZE, PAGE_SIZE, ppn * PAGE_SIZE, perm, t);
    assert done == if r.Done? then 1 else 0;
    assert vpn + done == vpn || r.Done?;
  }

  lemma WholePage(n: nat)
    ensures n * PAGE_SIZE / PAGE_SIZE == n && n * PAGE_SIZE % PAGE_SIZE == 0
  {}

  /** `x` is `p` or a table below it. */
  ghost predicate Under(p: Path, x: Path) {
    match p
    case Top => true
    case Mid(i) => !x.Top? && x.i == i
    case Low(_, _) => x == p
  }

  /** `x` lies below one of the first `n` entries of `p`. */
  ghost predicate UnderFirst(p: Path, n: nat, x: Path) {
    match p
    case Top => !x.Top? && x.i < n
    case Mid(i) => x.Low? && x.i == i && x.j < n
    case Low(_, _) => false
  }

  ghost function Subtree(t: Tree, p: Path): set<Ppn> {
    set x | x in t && Under(p, x) :: t[x]
  }

  ghost function FirstSubtrees(t: Tree, p: Path, n: nat): set<Ppn> {
    set x | x in t && UnderFirst(p, n, x) :: t[x]
  }

  /** What freewalk may rely on below `p`: tables in use, no leaf entry valid. */
  ghost predicate Unmapped(pages: map<Ppn, Page>, refs: map<Ppn, int>, t: Tree, p: Path) {
    forall x :: x in t && Under(p, x) ==> UnmappedNode(pages, refs, t, x)
  }

  ghost predicate UnmappedNode(pages: map<Ppn, Page>, refs: map<Ppn, int>, t: Tree, x: Path)
    requires x in t
  {
    && t[x] in refs && refs[t[x]] == 1
    && t[x] in pages && IsTable(pages[t[x]])
    && forall i :: 0 <= i < NPTE ==>
         if x.Low? then !pages[t[x]].entries[i].v
         else EntryInv(pages[t[x]].entries[i], t, Child(x, i))
  }

  ghost predicate Shape(t: Tree) {
    Injective(t) && forall x :: x in t ==> PathInv(t, x)
  }

  function Height(p: Path): nat {
    match p case Top => 2 case Mid(_) => 1 case Low(_, _) => 0
  }

  lemma NextSubtree(t: Tree, p: Path, i: nat)
    requires Shape(t) && p in t && !p.Low?
    ensures FirstSubtrees(t, p, i + 1) == FirstSubtrees(t, p, i) + Subtree(t, Child(p, i))
    ensures Child(p, i) !in t ==> Subtree(t, Child(p, i)) == {}
    ensures FirstSubtrees(t, p, i) !! Subtree(t, Child(p, i))
    ensures t[p] !in FirstSubtrees(t, p, i + 1)
  {
    forall x | x in t ensures PathInv(t, x) {}
  }

  lemma AllSubtrees(t: Tree, p: Path)
    requires Shape(t) && p in t
    ensures Subtree(t, p) == FirstSubtrees(t, p, NPTE) + {t[p]}
  {
    forall x | x in t && Under(p, x) ensures x == p || UnderFirst(p, NPTE, x) {
      assert PathInv(t, x);
    }
  }

  ghost predicate Freed(refs: map<Ppn, int>, refs': map<Ppn, int>, freed: set<Ppn>) {
    && refs'.Keys == refs.Keys
    && forall q :: q in refs ==> refs'[q] == if q in freed then 0 else refs[q]
  }

  ghost predicate Untouched(pages: map<Ppn, Page>, pages': map<Ppn, Page>, touched: set<Ppn>) {
    && pages'.Keys == pages.Keys
    && forall q :: q in pages && q !in touched ==> pages'[q] == pages[q]
  }

  /** freewalk: frees every table page of the subtree exactly once and touches nothing else. */
  method FreeWalk(m: PhysicalMemory, table: Ppn, ghost p: Path, ghost t: Tree) returns (ok: bool)
    requires m.Valid() && p in t && t[p] == table && Shape(t) && t.Values <= m.managed
    requires Unmapped(m.pages, m.refs, t, p)
    modifies m
    ensures m.Valid() && m.managed == old(m.managed) && ok
    ensures Freed(old(m.refs), m.refs, Subtree(t, p))
    ensures Untouched(old(m.pages), m.pages, Subtree(t, p))
    decreases Height(p), 1
  {
    hide IsChain, NoDup, Subtree, FirstSubtrees, PathInv, Injective;
    NothingFreed(t, p);
    assert UnmappedNode(m.pages, m.refs, t, p);
    var i := 0;
    while i < NPTE
      invariant 0 <= i <= NPTE
      invariant m.Valid() && m.managed == old(m.managed)
      invariant Freed(old(m.refs), m.refs, FirstSubtrees(t, p, i))
      invariant Untouched(old(m.pages), m.pages, FirstSubtrees(t, p, i) + {table})
      invariant table !in FirstSubtrees(t, p, i) && IsTable(m.pages[table])
      invariant forall k :: i <= k < NPTE ==> m.pages[table].entries[k] == old(m.pages)[table].entries[k]
    {
      var pte := m.pages[table].entries[i];
      if pte.v && !pte.r && !pte.w && !pte.x {
        FreeEntry(m, table, i, p, t, old(m.pages), old(m.refs));
      } else if pte.v {
        return false;
      } else if !p.Low? {
        NextSubtree(t, p, i);
      }
      i := i + 1;
    }
    AllSubtrees(t, p);
    ok := m.KFree(table);
  }

  /** The branch of freewalk for an entry that points to a lower-level table. */
  method FreeEntry(m: PhysicalMemory, table: Ppn, i: nat, ghost p: Path, ghost t: Tree,
                   ghost pages0: map<Ppn, Page>, ghost refs0: map<Ppn, int>)
    requires m.Valid() && p in t && t[p] == table && Shape(t) && t.Values <= m.managed
    requires Unmapped(pages0, refs0, t, p) && i < NPTE && !p.Low?
    requires Freed(refs0, m.refs, FirstSubtrees(t, p, i))
    requires Untouched(pages0, m.pages, FirstSubtrees(t, p, i) + {table})
    requires table in m.pages && IsTable(m.pages[table])
    requires m.pages[table].entries[i].v
    requires forall k :: i <= k < NPTE ==> m.pages[table].entries[k] == pages0[table].entries[k]
    modifies m
    ensures m.Valid() && m.managed == old(m.managed)
    ensures Freed(refs0, m.refs, FirstSubtrees(t, p, i + 1))
    ensures Untouched(pages0, m.pages, FirstSubtrees(t, p, i + 1) + {table})
    ensures table !in FirstSubtrees(t, p, i + 1) && IsTable(m.pages[table])
    ensures forall k :: i < k < NPTE ==> m.pages[table].entries[k] == pages0[table].entries[k]
    decreases Height(p), 0
  {
    hide IsChain, NoDup, Subtree, FirstSubtrees, PathInv, Injective;
    ghost var c := Child(p, i);
    assert UnmappedNode(pages0, refs0, t, p);
    NextSubtree(t, p, i);
    StillUnmapped(pages0, refs0, m.pages, m.refs, t, p, c, FirstSubtrees(t, p, i));
    var _ := FreeWalk(m, m.pages[table].entries[i].ppn, c, t);
    m.SetPage(table, Table(m.pages[table].entries[i := ZERO_PTE]));
  }

  lemma NothingFreed(t: Tree, p: Path)
    ensures FirstSubtrees(t, p, 0) == {}
    ensures p.Low? ==> forall n: nat :: FirstSubtrees(t, p, n) == {}
  {}

  lemma StillUnmapped(pages: map<Ppn, Page>, refs: map<Ppn, int>, pages': map<Ppn, Page>, refs': map<Ppn, int>,
                      t: Tree, p: Path, c: Path, freed: set<Ppn>)
    requires Shape(t) && p in t && Unmapped(pages, refs, t, p) && Height(c) < Height(p)
    requires forall x :: Under(c, x) ==> Under(p, x)
    requires freed !! Subtree(t, c)
    requires forall q :: q in refs && q !in freed ==> q in refs' && refs'[q] == refs[q]
    requires forall q :: q in pages && q !in freed && q != t[p] ==> q in pages' && pages'[q] == pages[q]
    ensures Unmapped(pages', refs', t, c)
  {
    forall x | x in t && Under(c, x) ensures UnmappedNode(pages', refs', t, x) {
      assert UnmappedNode(pages, refs, t, x);
      assert t[x] in Subtree(t, c);
    }
  }
}
