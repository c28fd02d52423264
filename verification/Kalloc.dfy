/** The physical page allocator of kernel/kalloc.c: a free list threaded through
    the free pages themselves, and a reference count for every page of RAM.

    A page is named by its physical page number; number 0 is the null pointer.
    The bytes of a page are typed by what the kernel keeps in it. */
module Kalloc {

  type Ppn = nat
  type Byte = x: int | 0 <= x < 256

  const PAGE_SIZE := 4096
  const NULL: Ppn := 0

  /** A page-table entry; module Riscv gives its 64-bit form. */
  datatype Pte = Pte(ppn: Ppn, v: bool, r: bool, w: bool, x: bool, u: bool, cow: bool)

  datatype Page = Run(next: Ppn) | Table(entries: seq<Pte>) | Data(bytes: seq<Byte>)

  /** memset of a whole page. */
  function Fill(b: Byte): (p: Page)
    ensures IsData(p) && forall i :: 0 <= i < PAGE_SIZE ==> p.bytes[i] == b
  {
    Data(seq(PAGE_SIZE, _ => b))
  }

  ghost predicate IsData(p: Page) {
    p.Data? && |p.bytes| == PAGE_SIZE
  }

  /** Following `next` from `head` visits exactly the pages of `chain` and ends in null. */
  ghost predicate IsChain(pages: map<Ppn, Page>, head: Ppn, chain: seq<Ppn>)
    decreases |chain|
  {
    if chain == [] then head == NULL
    else
      && head == chain[0] && head != NULL
      && head in pages && pages[head].Run?
      && IsChain(pages, pages[head].next, chain[1..])
  }

  ghost predicate NoDup<T>(s: seq<T>) {
    forall i, j :: 0 <= i < j < |s| ==> s[i] != s[j]
  }

  lemma {:induction false} ChainFrame(pages: map<Ppn, Page>, pages': map<Ppn, Page>, head: Ppn, chain: seq<Ppn>)
    requires IsChain(pages, head, chain)
    requires forall p :: p in chain && p in pages ==> p in pages' && pages'[p] == pages[p]
    ensures IsChain(pages', head, chain)
    decreases |chain|
  {
    if chain != [] {
      ChainFrame(pages, pages', pages[head].next, chain[1..]);
    }
  }

  /** Pushing a page that is not on the list keeps the list acyclic. */
  lemma PushChain(pages: map<Ppn, Page>, head: Ppn, chain: seq<Ppn>, p: Ppn)
    requires IsChain(pages, head, chain) && NoDup(chain) && p !in chain && p != NULL
    ensures IsChain(pages[p := Run(head)], p, [p] + chain) && NoDup([p] + chain)
    ensures forall x :: x in [p] + chain <==> x == p || x in chain
  {
    ChainFrame(pages, pages[p := Run(head)], head, chain);
    assert ([p] + chain)[1..] == chain;
  }

  /** The statically zeroed ref_count array. */
  function ZeroCounts(lo: Ppn, hi: Ppn): (m: map<Ppn, int>)
    requires lo <= hi
    ensures forall p :: p in m <==> lo <= p < hi
    ensures forall p :: p in m ==> m[p] == 0
    decreases hi - lo
  {
    if lo == hi then map[] else ZeroCounts(lo + 1, hi)[lo := 0]
  }

  class PhysicalMemory {
    const base: Ppn        // KERNBASE / PGSIZE
    const first: Ppn       // PGROUNDUP(end) / PGSIZE
    const stop: Ppn        // PHYSTOP / PGSIZE
    var pages: map<Ppn, Page>
    var refs: map<Ppn, int>
    var freelist: Ppn
    ghost var chain: seq<Ppn>
    ghost var managed: set<Ppn>   // pages handed over so far by kinit

    /** Every managed page is on the acyclic free list exactly once, or has a positive count. */
    ghost predicate Valid()
      reads this
    {
      && 0 < base <= first <= stop
      && (forall p :: p in refs <==> base <= p < stop)
      && (forall p :: p in managed ==> first <= p < stop && p in pages)
      && (forall p :: p in refs ==> refs[p] >= 0)
      && IsChain(pages, freelist, chain)
      && NoDup(chain)
      && (forall p :: p in chain <==> p in managed && refs[p] == 0)
    }

    ghost function FreePages(): set<Ppn>
      reads this
    {
      set q | q in managed && q in refs && refs[q] == 0
    }

    constructor (base: Ppn, first: Ppn, stop: Ppn)
      requires 0 < base <= first <= stop
      ensures Valid() && managed == {} && this.base == base && this.first == first && this.stop == stop
      ensures forall p :: p in refs ==> refs[p] == 0
    {
      this.base, this.first, this.stop := base, first, stop;
      pages := map[];
      refs := ZeroCounts(base, stop);
      freelist := NULL;
      chain, managed := [], {};
    }

    /** kfree: drop one reference; the last one puts the page on the free list. `ok` is
        false exactly where the source panics. */
    method KFree(p: Ppn) returns (ok: bool)
      requires Valid() && p in refs
      requires p !in managed || refs[p] > 0
      modifies this
      ensures Valid()
      ensures ok <==> old(refs[p]) > 1 || first <= p < stop
      ensures old(refs[p]) > 1 ==>
                refs == old(refs)[p := old(refs[p]) - 1] && pages == old(pages) && managed == old(managed)
      ensures old(refs[p]) <= 1 && ok ==>
                && refs == old(refs)[p := 0]
                && managed == old(managed) + {p}
                && p in pages && pages[p].Run? && pages == old(pages)[p := pages[p]]
                && chain == [p] + old(chain)
    {
      hide IsChain, NoDup;
      if refs[p] >= 1 {
        refs := refs[p := refs[p] - 1];
      }
      if refs[p] == 0 {
        if p < first || p >= stop {
          return false;
        }
        PushChain(pages, freelist, chain, p);
        pages := pages[p := Run(freelist)];
        freelist := p;
        chain := [p] + chain;
        managed := managed + {p};
      }
      ok := true;
    }

    /** kalloc (and kalloc_no_lock): null exactly when no page is free. */
    method KAlloc() returns (p: Ppn)
      requires Valid()
      modifies this
      ensures Valid() && managed == old(managed)
      ensures p == NULL <==> forall q :: q in old(managed) ==> old(refs)[q] != 0
      ensures p == NULL ==> refs == old(refs) && pages == old(pages)
      ensures p != NULL ==>
                && p in managed && old(refs[p]) == 0
                && refs == old(refs)[p := 1]
                && pages == old(pages)[p := Fill(5)]
      ensures p == NULL ==> FreePages() == {}
      ensures p != NULL ==> |FreePages()| + 1 == |old(FreePages())|
    {
      p := freelist;
      if p != NULL {
        freelist := pages[p].next;
        ghost var before := pages;
        pages := pages[p := Fill(5)];
        assert old(chain) == [p] + old(chain)[1..];
        chain := chain[1..];
        ChainFrame(before, pages, freelist, chain);
        assert p in old(managed) && old(refs[p]) == 0;
        refs := refs[p := 1];
        assert FreePages() == old(FreePages()) - {p};
      } else {
        assert chain == [];
      }
    }

    /** kfree_no_lock decrements unconditionally. */
    method KFreeNoLock(p: Ppn) returns (ok: bool)
      requires Valid() && p in managed && refs[p] > 0
      modifies this
      ensures Valid() && managed == old(managed) && ok
      ensures refs == old(refs)[p := old(refs[p]) - 1]
      ensures old(refs[p]) > 1 ==> pages == old(pages)
      ensures old(refs[p]) == 1 ==> p in pages && pages[p].Run? && pages == old(pages)[p := pages[p]]
    {
      hide IsChain, NoDup;
      refs := refs[p := refs[p] - 1];
      if refs[p] == 0 {
        if p < first || p >= stop {
          return false;
        }
        PushChain(pages, freelist, chain, p);
        pages := pages[p := Run(freelist)];
        freelist := p;
        chain := [p] + chain;
      }
      ok := true;
    }

    /** A store into a page that is in use. */
    method SetPage(p: Ppn, page: Page)
      requires Valid() && p in managed && refs[p] > 0
      modifies this`pages
      ensures Valid() && pages == old(pages)[p := page] && FreePages() == old(FreePages())
    {
      ghost var before := pages;
      pages := pages[p := page];
      ChainFrame(before, pages, freelist, chain);
    }

    /** update_ref_count(pa, 1) */
    method Retain(p: Ppn)
      requires Valid() && p in managed && refs[p] > 0
      modifies this`refs
      ensures Valid() && refs == old(refs)[p := old(refs[p]) + 1] && FreePages() == old(FreePages())
    {
      refs := refs[p := refs[p] + 1];
    }

    /** kinit / freerange: every whole page from `first` to `stop` ends up free. */
    method FreeRange()
      requires Valid() && managed == {} && forall p :: p in refs ==> refs[p] == 0
      modifies this
      ensures Valid()
      ensures forall p :: p in managed <==> first <= p < stop
      ensures forall p :: p in managed ==> refs[p] == 0
    {
      var p := first;
      while p + 1 <= stop
        invariant first <= p <= stop && Valid()
        invariant forall q :: q in managed <==> first <= q < p
        invariant forall q :: q in refs ==> refs[q] == 0
      {
        var ok := KFree(p);
        p := p + 1;
      }
    }
  }
}
