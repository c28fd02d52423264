/** The algebra of copy-on-write mappings: all user leaf entries of all processes in one
    map, the reference counts, and the memory each process sees. Each lemma is one change
    that kernel/vm.c and kernel/kalloc.c make, with its effect on every process's view. */
module Cow {
  import opened Kalloc

  type Pid = nat
  datatype Key = Key(pid: Pid, vpn: nat)
  type Maps = map<Key, Pte>

  /** The user entries that map a physical page. */
  ghost function Users(m: Maps, p: Ppn): set<Key> {
    set k | k in m && m[k].ppn == p
  }

  /** A page as its process sees it: copy-on-write pages count as writable. */
  datatype APage = APage(bytes: seq<Byte>, writable: bool, exec: bool, user: bool)
  type View = map<Key, APage>

  ghost predicate Backed(m: Maps, pages: map<Ppn, Page>) {
    forall k :: k in m ==> m[k].ppn in pages && IsData(pages[m[k].ppn])
  }

  ghost function Seen(e: Pte, page: Page): APage
    requires page.Data?
  {
    APage(page.bytes, e.w || e.cow, e.x, e.u)
  }

  ghost function ViewOf(m: Maps, pages: map<Ppn, Page>): (v: View)
    requires Backed(m, pages)
    ensures v.Keys == m.Keys
  {
    map k | k in m :: Seen(m[k], pages[m[k].ppn])
  }

  ghost predicate EntryOk(e: Pte, refs: map<Ppn, int>) {
    && e.v && e.r
    && e.ppn in refs
    && (e.w ==> !e.cow && refs[e.ppn] == 1)
  }

  /** The count of a mapped page is the number of user entries that map it, and no entry
      with PTE_W maps a page whose count exceeds 1. */
  ghost predicate CowInv(m: Maps, pages: map<Ppn, Page>, refs: map<Ppn, int>) {
    && Backed(m, pages)
    && (forall k :: k in m ==> EntryOk(m[k], refs))
    && (forall k :: k in m ==> refs[m[k].ppn] == |Users(m, m[k].ppn)|)
  }

  lemma CountPositive(m: Maps, k: Key)
    requires k in m
    ensures |Users(m, m[k].ppn)| >= 1
    ensures |Users(m, m[k].ppn)| == 1 ==> Users(m, m[k].ppn) == {k}
  {
    var u := Users(m, m[k].ppn);
    assert k in u;
    assert |u| == |u - {k}| + 1;
  }

  lemma Unused(m: Maps, q: Ppn)
    requires Users(m, q) == {}
    ensures forall k :: k in m ==> m[k].ppn != q
  {
    forall k | k in m ensures m[k].ppn != q {
      assert k !in Users(m, q);
    }
  }

  /** The entry uvmcopy puts into both tables. */
  function SharedPte(e: Pte): Pte {
    if e.w then e.(w := false, r := true, cow := true) else e
  }

  /** The entry update installs once the page is private. */
  function PrivatePte(e: Pte, p: Ppn): Pte {
    e.(ppn := p, w := true, cow := false)
  }

  /** uvmcopy write-protects the parent's entry first; all views stay. */
  lemma Protect(m: Maps, pages: map<Ppn, Page>, refs: map<Ppn, int>, k: Key)
    requires CowInv(m, pages, refs) && k in m
    ensures var m' := m[k := SharedPte(m[k])];
            CowInv(m', pages, refs) && ViewOf(m', pages) == ViewOf(m, pages)
  {
    var m' := m[k := SharedPte(m[k])];
    forall x | x in m' ensures EntryOk(m'[x], refs) && Users(m', m'[x].ppn) == Users(m, m[x].ppn) {
      assert EntryOk(m[x], refs);
    }
  }

  /** uvmcopy then gives the child the same entry: it sees a copy, nobody else sees a change. */
  lemma Share(m: Maps, pages: map<Ppn, Page>, refs: map<Ppn, int>, parent: Key, child: Key)
    requires CowInv(m, pages, refs) && parent in m && child !in m && !m[parent].w
    ensures var e := m[parent];
            var m' := m[child := e];
            && CowInv(m', pages, refs[e.ppn := refs[e.ppn] + 1])
            && ViewOf(m', pages) == ViewOf(m, pages)[child := ViewOf(m, pages)[parent]]
  {
    var p := m[parent].ppn;
    var m' := m[child := m[parent]];
    var refs' := refs[p := refs[p] + 1];
    assert Users(m', p) == Users(m, p) + {child};
    forall k | k in m' ensures EntryOk(m'[k], refs') && refs'[m'[k].ppn] == |Users(m', m'[k].ppn)| {
      if k in m {
        assert EntryOk(m[k], refs);
        if m[k].ppn == p && k != parent {
          OnlyUser(m, refs, parent, k);
        }
        if m[k].ppn != p {
          assert Users(m', m[k].ppn) == Users(m, m[k].ppn);
        }
      }
    }
  }

  /** Two entries on one page: neither has PTE_W. */
  lemma OnlyUser(m: Maps, refs: map<Ppn, int>, a: Key, b: Key)
    requires a in m && b in m && a != b && m[a].ppn == m[b].ppn
    requires forall k :: k in m ==> EntryOk(m[k], refs) && refs[m[k].ppn] == |Users(m, m[k].ppn)|
    ensures !m[a].w && !m[b].w
  {
    CountPositive(m, a);
    assert b in Users(m, m[a].ppn);
    CountPositive(m, b);
  }

  /** update on a shared page: one entry moves to a private copy in page `q`; all views stay. */
  lemma Split(m: Maps, pages: map<Ppn, Page>, refs: map<Ppn, int>, k: Key, q: Ppn)
    requires CowInv(m, pages, refs) && k in m && m[k].cow && refs[m[k].ppn] > 1
    requires Users(m, q) == {}
    ensures var p := m[k].ppn;
            var m' := m[k := PrivatePte(m[k], q)];
            var pages' := pages[q := pages[p]];
            && CowInv(m', pages', refs[q := 1][p := refs[p] - 1])
            && ViewOf(m', pages') == ViewOf(m, pages)
  {
    var p := m[k].ppn;
    var m' := m[k := PrivatePte(m[k], q)];
    var refs' := refs[q := 1][p := refs[p] - 1];
    Unused(m, q);
    assert Users(m', p) == Users(m, p) - {k};
    assert Users(m', q) == {k};
    forall x | x in m' ensures EntryOk(m'[x], refs') && refs'[m'[x].ppn] == |Users(m', m'[x].ppn)| {
      if x != k {
        assert EntryOk(m[x], refs);
        if m[x].ppn != p {
          assert Users(m', m[x].ppn) == Users(m, m[x].ppn);
        }
      }
    }
  }

  /** update on a page with count 1: the entry becomes writable in place; all views stay. */
  lemma Claim(m: Maps, pages: map<Ppn, Page>, refs: map<Ppn, int>, k: Key)
    requires CowInv(m, pages, refs) && k in m && m[k].cow && refs[m[k].ppn] == 1
    ensures var m' := m[k := PrivatePte(m[k], m[k].ppn)];
            CowInv(m', pages, refs) && ViewOf(m', pages) == ViewOf(m, pages)
  {
    var m' := m[k := PrivatePte(m[k], m[k].ppn)];
    forall x | x in m' ensures EntryOk(m'[x], refs) && Users(m', m'[x].ppn) == Users(m, m[x].ppn) {
      assert EntryOk(m[x], refs);
    }
  }

  /** A store through an entry with PTE_W changes the view of that process's page only. */
  lemma Write(m: Maps, pages: map<Ppn, Page>, refs: map<Ppn, int>, k: Key, bytes: seq<Byte>)
    requires CowInv(m, pages, refs) && k in m && m[k].w && |bytes| == PAGE_SIZE
    ensures var pages' := pages[m[k].ppn := Data(bytes)];
            && CowInv(m, pages', refs)
            && ViewOf(m, pages') == ViewOf(m, pages)[k := ViewOf(m, pages)[k].(bytes := bytes)]
  {
    forall x | x in m && m[x].ppn == m[k].ppn ensures x == k {
      if x != k {
        OnlyUser(m, refs, x, k);
      }
    }
  }

  /** uvmalloc for one page. */
  lemma MapFresh(m: Maps, pages: map<Ppn, Page>, refs: map<Ppn, int>, k: Key, e: Pte, page: Page)
    requires CowInv(m, pages, refs) && k !in m && Users(m, e.ppn) == {}
    requires e.v && e.r && !e.cow && IsData(page)
    ensures var m' := m[k := e];
            var pages' := pages[e.ppn := page];
            && CowInv(m', pages', refs[e.ppn := 1])
            && ViewOf(m', pages') == ViewOf(m, pages)[k := Seen(e, page)]
  {
    var m' := m[k := e];
    var refs' := refs[e.ppn := 1];
    Unused(m, e.ppn);
    assert Users(m', e.ppn) == {k};
    forall x | x in m' ensures EntryOk(m'[x], refs') && refs'[m'[x].ppn] == |Users(m', m'[x].ppn)| {
      if x != k {
        assert EntryOk(m[x], refs);
        assert Users(m', m[x].ppn) == Users(m, m[x].ppn);
      }
    }
  }

  /** uvmunmap with do_free for one page: the last reference leaves the page to the allocator. */
  lemma Unmap(m: Maps, pages: map<Ppn, Page>, refs: map<Ppn, int>, k: Key, pages': map<Ppn, Page>)
    requires CowInv(m, pages, refs) && k in m
    requires forall q :: q in pages && (q != m[k].ppn || refs[q] > 1) ==> q in pages' && pages'[q] == pages[q]
    ensures var m' := m - {k};
            var p := m[k].ppn;
            && CowInv(m', pages', refs[p := refs[p] - 1])
            && ViewOf(m', pages') == ViewOf(m, pages) - {k}
            && (refs[p] == 1 <==> Users(m', p) == {})
  {
    var p := m[k].ppn;
    var m' := m - {k};
    var refs' := refs[p := refs[p] - 1];
    assert k in Users(m, p);
    assert Users(m', p) == Users(m, p) - {k};
    forall x | x in m' ensures
        m'[x].ppn in pages' && pages'[m'[x].ppn] == pages[m[x].ppn] &&
        EntryOk(m'[x], refs') && refs'[m'[x].ppn] == |Users(m', m'[x].ppn)|
    {
      assert EntryOk(m[x], refs);
      if m[x].ppn == p {
        OnlyUser(m, refs, x, k);
        CountPositive(m', x);
      } else {
        assert Users(m', m[x].ppn) == Users(m, m[x].ppn);
      }
    }
  }

  /** Changes to unmapped pages and their counts are invisible. */
  lemma CowFrame(m: Maps, pages: map<Ppn, Page>, refs: map<Ppn, int>, pages': map<Ppn, Page>, refs': map<Ppn, int>)
    requires CowInv(m, pages, refs)
    requires forall k :: k in m ==>
               && m[k].ppn in pages' && pages'[m[k].ppn] == pages[m[k].ppn]
               && m[k].ppn in refs' && refs'[m[k].ppn] == refs[m[k].ppn]
    ensures CowInv(m, pages', refs') && ViewOf(m, pages') == ViewOf(m, pages)
  {
    forall k | k in m ensures EntryOk(m[k], refs') {
      assert EntryOk(m[k], refs);
    }
  }
}
