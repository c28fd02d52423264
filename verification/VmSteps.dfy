/** Each change that the functions of kernel/vm.c make to user memory keeps the global
    invariant; its effect on the views of all processes is stated exactly. */
module VmSteps {
  import opened Kalloc
  import opened PageTable
  import opened Cow
  import opened VmState

  ghost predicate SameTrees(s: State, s': State) {
    s'.roots == s.roots && s'.trees == s.trees && s'.managed == s.managed
  }

  /** The kernel takes, fills or returns a page of its own. */
  lemma KernelStep(s: State, s': State, q: Ppn)
    requires Inv(s) && q in s.owner && !s.owner[q].User? && !s.owner[q].Node?
    requires SameTrees(s, s') && s'.maps == s.maps
    requires q in s'.pages && s'.pages == s.pages[q := s'.pages[q]]
    requires q in s'.refs && s'.refs == s.refs[q := s'.refs[q]]
    requires q in s'.owner && s'.owner == s.owner[q := s'.owner[q]]
    requires (s'.owner[q].Free? && s'.refs[q] == 0) || (s'.owner[q].Kernel? && s'.refs[q] == 1)
    ensures Inv(s') && ViewOf(s'.maps, s'.pages) == ViewOf(s.maps, s.pages)
  {
    hide Parts, TreesParts, Users, ViewOf, EntryOk, IsData, Backed;
    Basics(s);
    UsersPart(s);
    TreesFrame(s, s');
    KernelUnseen(s, q);
    KernelOwners(s, s', q);
    CowFrame(s.maps, s.pages, s.refs, s'.pages, s'.refs);
    Assemble(s');
  }

  lemma UsersPart(s: State)
    requires Inv(s)
    ensures TreesInv(s) && CowInv(s.maps, s.pages, s.refs) && OwnersInv(s)
  {}

  lemma Assemble(s: State)
    requires TreesInv(s) && CowInv(s.maps, s.pages, s.refs) && OwnersInv(s)
    ensures Inv(s)
  {}

  lemma KernelOwners(s: State, s': State, q: Ppn)
    requires OwnersInv(s) && q in s.owner && !s.owner[q].User? && s'.maps == s.maps && s'.managed == s.managed
    requires q in s'.refs && s'.refs == s.refs[q := s'.refs[q]] && q in s'.owner
             && s'.owner == s.owner[q := s'.owner[q]]
    requires (s'.owner[q].Free? && s'.refs[q] == 0) || (s'.owner[q].Kernel? && s'.refs[q] == 1)
    ensures OwnersInv(s')
  {
    hide Users;
  }

  lemma KernelUnseen(s: State, q: Ppn)
    requires OwnersInv(s) && q in s.owner && !s.owner[q].User?
    ensures forall k :: k in s.maps ==> s.maps[k].ppn != q
    ensures Users(s.maps, q) == {}
  {}

  ghost predicate StoresAt(s: State, s': State, pid: Pid, vpn: nat, e: Pte) {
    && pid in s.trees && vpn < MAX_VPN && PathAt(0, vpn) in s.trees[pid]
    && var q := s.trees[pid][PathAt(0, vpn)];
       && q in s.pages && IsTable(s.pages[q])
       && s' == s.(pages := StorePte(s.pages, q, Px(0, vpn), e), maps := StoredAt(s.maps, Key(pid, vpn), e))
  }

  /** An entry changes without changing what it maps. */
  lemma ReplaceEntry(s: State, s': State, pid: Pid, vpn: nat, e: Pte)
    requires Inv(s) && pid in s.roots && Key(pid, vpn) in s.maps && StoresAt(s, s', pid, vpn, e)
    requires e.v && e.ppn == s.maps[Key(pid, vpn)].ppn
    requires CowInv(s.maps[Key(pid, vpn) := e], s.pages, s.refs)
    ensures Inv(s') && ViewOf(s'.maps, s'.pages) == ViewOf(s.maps[Key(pid, vpn) := e], s.pages)
  {
    hide CowInv, ProcInv, PathAt, Px, StorePte, NodesInv, ViewOf, Users;
    var m' := s.maps[Key(pid, vpn) := e];
    StoreEntry(s, s', pid, vpn, e);
    ReplaceKeepsOwners(s, Key(pid, vpn), e);
    GrowKeepsUsers(s.(maps := m'), s');
  }

  lemma ReplaceKeepsOwners(s: State, k: Key, e: Pte)
    requires OwnersInv(s) && k in s.maps && e.ppn == s.maps[k].ppn
    ensures OwnersInv(s.(maps := s.maps[k := e]))
  {
    var m' := s.maps[k := e];
    forall q | q in s.owner && s.owner[q].User? ensures Users(m', q) != {} {
      assert Users(m', q) == Users(s.maps, q);
    }
  }

  /** mappages put a page the kernel held under an unmapped key: the page becomes user memory. */
  lemma FreshStep(s: State, s1: State, s': State, k: Key, e: Pte)
    requires Inv(s) && k !in s.maps && e.ppn in s.owner && s.owner[e.ppn].Kernel?
    requires e.ppn in s.pages && IsData(s.pages[e.ppn]) && e.v && e.r && !e.cow
    requires TreesInv(s1) && OnlyTablesGrew(s, s1) && s1.maps == s.maps[k := e]
    requires SameTrees(s1, s') && s'.maps == s1.maps && s'.pages == s1.pages && s'.refs == s1.refs
    requires s'.owner == s1.owner[e.ppn := User] && !s1.owner[e.ppn].Node?
    ensures Inv(s') && ViewOf(s'.maps, s'.pages) == ViewOf(s.maps, s.pages)[k := Seen(e, s.pages[e.ppn])]
  {
    hide Parts, TreesParts, NodesInv, Users, ViewOf, EntryOk, IsData, Backed, OnlyTablesGrew;
    UsersPart(s);
    TreesBasics(s1);
    GrowKeepsUsers(s, s1);
    KernelUnseen(s, e.ppn);
    FreshFacts(s, s1, e.ppn);
    MapFresh(s.maps, s1.pages, s1.refs, k, e, s.pages[e.ppn]);
    GiveToUser(s1, s', s.maps, k, e);
    TreesFrame(s1, s');
    Assemble(s');
  }

  lemma FreshFacts(s: State, s1: State, q: Ppn)
    requires Inv(s) && OnlyTablesGrew(s, s1) && q in s.owner && s.owner[q].Kernel?
    ensures q in s1.owner && s1.owner[q].Kernel? && q in s1.refs && s1.refs[q] == 1
    ensures q in s.pages && q in s1.pages && s1.pages == s1.pages[q := s.pages[q]] && s1.refs == s1.refs[q := 1]
  {
    hide Parts;
    Basics(s);
  }

  lemma TreesBasics(s: State)
    requires TreesInv(s)
    ensures NodesInv(s) && s.owner.Keys == s.managed && s.managed <= s.pages.Keys && s.managed <= s.refs.Keys
  {
    hide ProcInv, NodesInv;
  }

  lemma NodesPart(s: State)
    requires TreesInv(s)
    ensures NodesInv(s)
  {}

  lemma GiveToUser(s1: State, s': State, m: Maps, k: Key, e: Pte)
    requires OwnersInv(s1.(maps := m)) && k !in m && e.ppn in s1.owner && !s1.owner[e.ppn].Free?
    requires SameTrees(s1, s') && s'.maps == m[k := e] && s'.refs == s1.refs && s'.owner == s1.owner[e.ppn := User]
    ensures OwnersInv(s')
  {
    assert k in Users(s'.maps, e.ppn);
    forall q | q in s'.owner && s'.owner[q].User? ensures Users(s'.maps, q) != {} {
      if q != e.ppn {
        assert Users(m, q) <= Users(s'.maps, q);
      }
    }
  }

  /** uvmcopy of one write-protected page into the child. */
  lemma ShareStep(s: State, s1: State, s': State, parent: Key, child: Key)
    requires Inv(s) && parent in s.maps && child !in s.maps && !s.maps[parent].w
    requires TreesInv(s1) && OnlyTablesGrew(s, s1) && s1.maps == s.maps[child := s.maps[parent]]
    requires SameTrees(s1, s') && s'.maps == s1.maps && s'.pages == s1.pages && s'.owner == s1.owner
    requires var p := s.maps[parent].ppn; p in s1.refs && s'.refs == s1.refs[p := s1.refs[p] + 1]
    ensures Inv(s') && ViewOf(s'.maps, s'.pages) == ViewOf(s.maps, s.pages)[child := ViewOf(s.maps, s.pages)[parent]]
  {
    hide Parts, TreesParts, NodesInv, Users, ViewOf, EntryOk, IsData, Backed;
    UsersPart(s);
    TreesBasics(s1);
    GrowKeepsUsers(s, s1);
    Share(s.maps, s1.pages, s1.refs, parent, child);
    ShareOwners(s1, s', s.maps, parent, child);
    NodeNotUser(s1, s.maps, parent);
    TreesFrame(s1, s');
    Assemble(s');
  }

  lemma NodeNotUser(s1: State, m: Maps, k: Key)
    requires OwnersInv(s1.(maps := m)) && k in m
    ensures m[k].ppn in s1.owner && s1.owner[m[k].ppn].User? && s1.refs[m[k].ppn] != 0
  {}

  lemma ShareOwners(s1: State, s': State, m: Maps, parent: Key, child: Key)
    requires OwnersInv(s1.(maps := m)) && parent in m && child !in m && s'.maps == m[child := m[parent]]
    requires m[parent].ppn in s1.refs && s1.refs[m[parent].ppn] > 0
    requires s'.refs == s1.refs[m[parent].ppn := s1.refs[m[parent].ppn] + 1]
    requires s'.owner == s1.owner && s'.managed == s1.managed
    ensures OwnersInv(s')
  {
    forall q | q in s'.owner && s'.owner[q].User? ensures Users(s'.maps, q) != {} {
      assert Users(m, q) <= Users(s'.maps, q);
    }
  }

  /** update on a shared page: the entry moves to the copy that the kernel made in page `q`. */
  lemma SplitStep(s: State, s1: State, s': State, k: Key, q: Ppn)
    requires Inv(s) && k in s.maps && s.maps[k].cow && s.refs[s.maps[k].ppn] > 1
    requires q in s.owner && s.owner[q].Kernel? && s.pages[q] == s.pages[s.maps[k].ppn]
    requires TreesInv(s1) && OnlyTablesGrew(s, s1) && s1.maps == s.maps[k := PrivatePte(s.maps[k], q)]
    requires SameTrees(s1, s') && s'.maps == s1.maps && s'.pages == s1.pages && !s1.owner[q].Node?
    requires s'.owner == s1.owner[q := User]
    requires var p := s.maps[k].ppn; p in s1.refs && s'.refs == s1.refs[p := s1.refs[p] - 1]
    ensures Inv(s') && ViewOf(s'.maps, s'.pages) == ViewOf(s.maps, s.pages)
  {
    hide Parts, TreesParts, NodesInv, Users, ViewOf, EntryOk, IsData, Backed, OnlyTablesGrew;
    UsersPart(s);
    TreesBasics(s1);
    GrowKeepsUsers(s, s1);
    KernelUnseen(s, q);
    SplitFacts(s, s1, k, q);
    Split(s.maps, s1.pages, s1.refs, k, q);
    SplitOwners(s1, s', s.maps, k, q);
    SplitTrees(s1, s', s.maps[k].ppn, q);
    Assemble(s');
  }

  lemma SplitFacts(s: State, s1: State, k: Key, q: Ppn)
    requires Inv(s) && k in s.maps && OnlyTablesGrew(s, s1) && q in s.owner && s.owner[q].Kernel?
    requires s.pages[q] == s.pages[s.maps[k].ppn] && s.refs[s.maps[k].ppn] > 1
    ensures var p := s.maps[k].ppn;
            && p in s1.owner && s1.owner[p].User? && q in s1.owner && s1.owner[q].Kernel? && p != q
            && p in s1.refs && q in s1.refs && s1.refs[p] == s.refs[p] && s1.refs[q] == 1
            && p in s1.pages && q in s1.pages
            && s1.pages[q := s1.pages[p]] == s1.pages && s1.refs[q := 1] == s1.refs
  {
    hide Parts;
    Basics(s);
  }

  lemma SplitTrees(s1: State, s': State, p: Ppn, q: Ppn)
    requires TreesInv(s1) && p in s1.owner && s1.owner[p].User? && q in s1.owner && s1.owner[q].Kernel?
    requires SameTrees(s1, s') && s'.maps == s1.maps && s'.pages == s1.pages && s'.owner == s1.owner[q := User]
    requires p in s1.refs && s'.refs == s1.refs[p := s1.refs[p] - 1]
    ensures TreesInv(s')
  {
    hide TreesParts, NodesInv;
    TreesBasics(s1);
    TreesFrame(s1, s');
  }

  lemma SplitOwners(s1: State, s': State, m: Maps, k: Key, q: Ppn)
    requires OwnersInv(s1.(maps := m)) && k in m && q in s1.owner && s1.refs[q] == 1 && q != m[k].ppn
    requires s'.maps == m[k := PrivatePte(m[k], q)] && s'.owner == s1.owner[q := User] && s'.managed == s1.managed
    requires m[k].ppn in s1.refs && s1.refs[m[k].ppn] > 1 && s1.refs[m[k].ppn] == |Users(m, m[k].ppn)|
    requires s'.refs == s1.refs[m[k].ppn := s1.refs[m[k].ppn] - 1]
    ensures OwnersInv(s')
  {
    var p := m[k].ppn;
    assert k in Users(s'.maps, q);
    assert Users(s'.maps, p) == Users(m, p) - {k};
    assert k in Users(m, p) && |Users(s'.maps, p)| == |Users(m, p)| - 1;
    forall x | x in s'.owner && s'.owner[x].User? ensures Users(s'.maps, x) != {} {
      if x != q && x != p {
        assert Users(m, x) <= Users(s'.maps, x);
      }
    }
  }

  /** update on a page with one user: the entry becomes writable in place. */
  lemma ClaimStep(s: State, s': State, k: Key)
    requires Inv(s) && k in s.maps && s.maps[k].cow && s.maps[k].ppn in s.refs && s.refs[s.maps[k].ppn] == 1
    requires TreesInv(s') && OnlyTablesGrew(s, s') && s'.maps == s.maps[k := PrivatePte(s.maps[k], s.maps[k].ppn)]
    ensures Inv(s') && ViewOf(s'.maps, s'.pages) == ViewOf(s.maps, s.pages)
  {
    hide TreesParts, NodesInv, Users, ViewOf, EntryOk, Backed;
    var e := PrivatePte(s.maps[k], s.maps[k].ppn);
    NodesPart(s');
    Claim(s.maps, s.pages, s.refs, k);
    ReplaceKeepsOwners(s, k, e);
    GrowKeepsUsers(s.(maps := s'.maps), s');
  }

  /** What uvmunmap does to the state for one page: clear the entry, drop one reference. */
  ghost predicate Unmaps(s: State, s2: State, s': State, pid: Pid, vpn: nat) {
    && pid in s.roots && Key(pid, vpn) in s.maps && StoresAt(s, s2, pid, vpn, ZERO_PTE)
    && SameTrees(s, s') && s'.maps == s.maps - {Key(pid, vpn)}
    && var p := s.maps[Key(pid, vpn)].ppn;
       && p in s.refs && p in s.owner
       && s'.refs == s.refs[p := s.refs[p] - 1]
       && s'.owner == (if s.refs[p] == 1 then s.owner[p := Free] else s.owner)
       && s'.pages.Keys == s2.pages.Keys
       && forall q :: q in s2.pages && (q != p || s.refs[p] > 1) ==> s'.pages[q] == s2.pages[q]
  }

  /** uvmunmap with do_free of one page. */
  lemma UnmapStep(s: State, s2: State, s': State, pid: Pid, vpn: nat)
    requires Inv(s) && Unmaps(s, s2, s', pid, vpn)
    ensures Inv(s') && ViewOf(s'.maps, s'.pages) == ViewOf(s.maps, s.pages) - {Key(pid, vpn)}
    ensures Kept(s, s', pid)
  {
    hide TreesParts, EntryOk, Backed, Users, ViewOf, Unmaps, Kept;
    UnmapTrees(s, s2, s', pid, vpn);
    UnmapUsers(s, s2, s', pid, vpn);
    UnmapOwners(s, s', pid, vpn, s2);
  }

  lemma UnmapTrees(s: State, s2: State, s': State, pid: Pid, vpn: nat)
    requires Inv(s) && Unmaps(s, s2, s', pid, vpn)
    ensures TreesInv(s2) && OnlyTablesGrew(s, s2) && TreesInv(s')
  {
    hide ProcInv, NodesInv, Users, ViewOf, EntryOk, Backed, PathAt, Px, StorePte, OnlyTablesGrew;
    StoreEntry(s, s2, pid, vpn, ZERO_PTE);
    assert s2.owner[s.maps[Key(pid, vpn)].ppn].User?;
    TreesFrame(s2, s');
  }

  lemma UnmapUsers(s: State, s2: State, s': State, pid: Pid, vpn: nat)
    requires Inv(s) && Unmaps(s, s2, s', pid, vpn) && TreesInv(s2) && OnlyTablesGrew(s, s2)
    ensures CowInv(s'.maps, s'.pages, s'.refs)
    ensures ViewOf(s'.maps, s'.pages) == ViewOf(s.maps, s.pages) - {Key(pid, vpn)}
  {
    hide ProcInv, NodesInv, Users, ViewOf, EntryOk, Backed, PathAt, Px, StorePte, OnlyTablesGrew, OwnersInv;
    NodesPart(s2);
    GrowKeepsUsers(s, s2);
    Unmap(s.maps, s2.pages, s2.refs, Key(pid, vpn), s'.pages);
  }

  lemma UnmapOwners(s: State, s': State, pid: Pid, vpn: nat, s2: State)
    requires Inv(s) && Unmaps(s, s2, s', pid, vpn)
    ensures OwnersInv(s') && Kept(s, s', pid)
  {
    hide TreesParts, EntryOk, Backed, ViewOf, StoresAt, Users;
    DropUser(s.maps, s'.maps, Key(pid, vpn));
  }

  /** One entry fewer: its page loses one user, every other page none. */
  lemma DropUser(m: Maps, m': Maps, k: Key)
    requires k in m && m' == m - {k}
    ensures |Users(m', m[k].ppn)| == |Users(m, m[k].ppn)| - 1
    ensures forall q :: q != m[k].ppn ==> Users(m', q) == Users(m, q)
    ensures forall x :: x in m' ==> x in Users(m', m'[x].ppn) && |Users(m', m'[x].ppn)| > 0
    ensures forall q :: |Users(m', q)| > 0 ==> Users(m', q) != {}
  {
    var p := m[k].ppn;
    assert Users(m', p) == Users(m, p) - {k} && k in Users(m, p);
    forall q | q != p ensures Users(m', q) == Users(m, q) {}
    forall x | x in m' ensures x in Users(m', m'[x].ppn) && |Users(m', m'[x].ppn)| > 0 {
      CountPositive(m', x);
    }
  }

  /** What walk and mappages need of the tree of one process. */
  lemma ProcPart(s: State, pid: Pid)
    requires TreesInv(s) && pid in s.roots
    ensures pid in s.trees && TreeInv(s.pages, s.trees[pid], s.roots[pid])
    ensures Linked(s.pages, s.trees[pid], s.maps, pid)
    ensures forall p :: p in s.trees[pid] ==>
              s.trees[pid][p] in s.managed && s.trees[pid][p] in s.refs && s.refs[s.trees[pid][p]] == 1
  {
    hide TreeInv, Linked;
    forall p | p in s.trees[pid] ensures
      s.trees[pid][p] in s.managed && s.trees[pid][p] in s.refs && s.refs[s.trees[pid][p]] == 1
    {
      assert s.owner[s.trees[pid][p]] == Node(pid, p);
    }
    assert ProcInv(s.pages, s.trees[pid], s.roots[pid], s.maps, pid);
  }

  lemma LeafLinked(pages: map<Ppn, Page>, t: Tree, root: Ppn, m: Maps, pid: Pid, vpn: nat)
    requires TreeInv(pages, t, root) && Linked(pages, t, m, pid)
    ensures vpn < MAX_VPN ==> LinkedAt(Leaf(pages, t, vpn), m, Key(pid, vpn))
  {}

  /** mappages on the tree of one process, or its failure. */
  lemma MapStep(s: State, s': State, pid: Pid, t': Tree, vpn: nat, done: nat, ppn: Ppn, perm: Pte)
    requires Inv(s) && pid in s.roots && done <= 1 && (done == 1 ==> vpn < MAX_VPN)
    requires Tables(s.pages, s.trees[pid]) && TreeInv(s'.pages, t', s.roots[pid]) && t'.Values <= s.managed
    requires MapKeeps(s.pages, s.refs, s.trees[pid], s'.pages, s'.refs, t', vpn, done, ppn, perm)
    requires s'.managed == s.managed && s'.roots == s.roots && s'.trees == s.trees[pid := t']
    requires s'.maps == if done == 1 then s.maps[Key(pid, vpn) := perm.(ppn := ppn, v := true)] else s.maps
    requires s'.owner == Reown(s.owner, pid, s.trees[pid], t')
    ensures TreesInv(s') && OnlyTablesGrew(s, s') && GrewFor(s, s', pid)
    ensures done == 0 ==> Inv(s') && ViewOf(s'.maps, s'.pages) == ViewOf(s.maps, s.pages)
  {
    hide NodeInv, PathInv, Injective, Users, EntryOk, Backed, ViewOf, ProcInv, NodesInv,
         Grew, SameOutside, Mapped, Reown, IsTable;
    MapGrows(s, s', pid, t', vpn, done, ppn, perm);
    NodesPart(s');
    GrowKeepsUsers(s, s');
    assert done == 0 ==> s' == s'.(maps := s.maps);
  }

  /** The user pages of `pid` are exactly the first `n`. */
  ghost predicate Dense(m: Maps, pid: Pid, n: nat) {
    forall vpn: nat :: Key(pid, vpn) in m <==> vpn < n
  }

  ghost function Range(pid: Pid, lo: nat, hi: nat): set<Key> {
    set v | lo <= v < hi :: Key(pid, v)
  }

  lemma NextInRange<T>(v: map<Key, T>, pid: Pid, lo: nat, i: nat)
    requires lo <= i
    ensures v - Range(pid, lo, i) - {Key(pid, i)} == v - Range(pid, lo, i + 1)
  {
    assert Range(pid, lo, i + 1) == Range(pid, lo, i) + {Key(pid, i)};
  }

  lemma DenseDisjoint(m: Maps, pid: Pid, lo: nat, hi: nat)
    requires Dense(m, pid, lo)
    ensures m.Keys !! Range(pid, lo, hi)
  {}

  lemma NextAdded<T>(v: map<Key, T>, v': map<Key, T>, pid: Pid, lo: nat, i: nat)
    requires lo <= i && v' - {Key(pid, i)} == v
    ensures v' - Range(pid, lo, i + 1) == v - Range(pid, lo, i)
  {
    assert Range(pid, lo, i + 1) == Range(pid, lo, i) + {Key(pid, i)};
  }

  ghost function Filled(pid: Pid, lo: nat, hi: nat, page: APage): View {
    map k | k in Range(pid, lo, hi) :: page
  }

  /** The first `n` pages of `parent`, as pages of `child`: an eager fork. */
  ghost function CopyOf(v: View, parent: Pid, child: Pid, n: nat): View
    requires Range(parent, 0, n) <= v.Keys
  {
    map k | k in Range(child, 0, n) && Key(parent, k.vpn) in v :: v[Key(parent, k.vpn)]
  }

  lemma NextCopied(v: View, parent: Pid, child: Pid, i: nat)
    requires Range(parent, 0, i + 1) <= v.Keys && parent != child
    requires Range(parent, 0, i) <= v.Keys
    ensures Key(parent, i) in v && (v + CopyOf(v, parent, child, i))[Key(parent, i)] == v[Key(parent, i)]
    ensures (v + CopyOf(v, parent, child, i))[Key(child, i) := v[Key(parent, i)]] == v + CopyOf(v, parent, child, i + 1)
  {
    assert Key(parent, i) in Range(parent, 0, i + 1);
    assert Range(child, 0, i + 1) == Range(child, 0, i) + {Key(child, i)};
    assert forall j :: 0 <= j <= i ==> Key(parent, j) in Range(parent, 0, i + 1);
  }

  lemma CopiedFacts(v: View, parent: Pid, child: Pid, n: nat)
    requires Range(parent, 0, n) <= v.Keys
    ensures CopyOf(v, parent, child, 0) == map[] && v + CopyOf(v, parent, child, 0) == v
    ensures v.Keys !! Range(child, 0, n) ==> v + CopyOf(v, parent, child, n) - Range(child, 0, n) == v
  {}

  lemma DenseRange(m: Maps, pid: Pid, n: nat, i: nat)
    requires Dense(m, pid, n) && i <= n
    ensures Range(pid, 0, i) <= m.Keys
  {}

  lemma NextSame(m: Maps, m1: Maps, m2: Maps, child: Pid, i: nat)
    requires SamePages(m, m1 - Range(child, 0, i)) && SamePages(m1, m2 - {Key(child, i)}) && Key(child, i) !in m1
    ensures SamePages(m, m2 - Range(child, 0, i + 1))
  {
    assert Range(child, 0, i + 1) == Range(child, 0, i) + {Key(child, i)};
    assert m2 - Range(child, 0, i + 1) == m2 - {Key(child, i)} - Range(child, 0, i);
  }

  lemma DenseAt(m: Maps, pid: Pid, n: nat, i: nat)
    requires Dense(m, pid, n)
    ensures Key(pid, i) in m <==> i < n
  {}

  lemma DenseSame(m: Maps, m': Maps, pid: Pid, n: nat)
    requires Dense(m, pid, n) && m'.Keys == m.Keys
    ensures Dense(m', pid, n) && forall vpn: nat :: vpn < n ==> Key(pid, vpn) in m'
  {}

  lemma NextDense(m: Maps, m': Maps, parent: Pid, child: Pid, n: nat, i: nat)
    requires Dense(m, parent, n) && Dense(m, child, i) && parent != child
    requires Key(child, i) in m' && SamePages(m, m' - {Key(child, i)})
    ensures Dense(m', parent, n) && Dense(m', child, i + 1)
  {
    forall vpn: nat ensures Key(parent, vpn) in m' <==> vpn < n {
      assert Key(parent, vpn) in m' - {Key(child, i)} <==> Key(parent, vpn) in m';
    }
    forall vpn: nat ensures Key(child, vpn) in m' <==> vpn < i + 1 {
      assert vpn != i ==> (Key(child, vpn) in m' - {Key(child, i)} <==> Key(child, vpn) in m');
    }
  }

  lemma RestSame(m: Maps, m1: Maps, m2: Maps, child: Pid, i: nat)
    requires SamePages(m, m1 - Range(child, 0, i)) && SamePages(m1, m2)
    ensures SamePages(m, m2 - Range(child, 0, i))
  {}

  lemma EmptyRange<T>(v: map<Key, T>, pid: Pid, lo: nat)
    ensures v - Range(pid, lo, lo) == v
  {}

  lemma EmptyFilled(v: View, pid: Pid, lo: nat, page: APage)
    ensures v + Filled(pid, lo, lo, page) == v
  {}

  lemma NextFilled(v: View, pid: Pid, lo: nat, i: nat, page: APage)
    requires lo <= i
    ensures (v + Filled(pid, lo, i, page))[Key(pid, i) := page] == v + Filled(pid, lo, i + 1, page)
  {
    assert Range(pid, lo, i + 1) == Range(pid, lo, i) + {Key(pid, i)};
  }

  /** Taking a range away again restores what was there before. */
  lemma RemoveFilled(v: View, pid: Pid, lo: nat, i: nat, page: APage)
    requires v.Keys !! Range(pid, lo, i)
    ensures v + Filled(pid, lo, i, page) - Range(pid, lo, i) == v
  {}

  /** Process `pid` may have more pages, and otherwise nothing changed. */
  ghost predicate OnlyGrew(v: View, v': View, pid: Pid) {
    && (forall k :: k in v ==> k in v' && v'[k] == v[k])
    && (forall k :: k in v' && k !in v ==> k.pid == pid)
  }

  lemma FilledGrew(v: View, pid: Pid, lo: nat, i: nat, page: APage)
    requires v.Keys !! Range(pid, lo, i)
    ensures OnlyGrew(v, v + Filled(pid, lo, i, page), pid)
  {}

  /** Only pages that became tables have a different count. */
  ghost predicate CountsKept(s: State, s': State) {
    forall q :: q in s.owner ==>
      q in s'.owner && q in s.refs && q in s'.refs && (s'.owner[q].Node? || s'.refs[q] == s.refs[q])
  }

  /** The kernel holds the same pages of its own, no table was given up, and new ones are `pid`'s. */
  ghost predicate Kept(s: State, s': State, pid: Pid) {
    && s'.owner.Keys == s.owner.Keys
    && GrewFor(s, s', pid)
    && forall q :: q in s.owner ==>
         && (s'.owner[q].Kernel? <==> s.owner[q].Kernel?)
         && (s.owner[q].Node? ==> s'.owner[q] == s.owner[q])
  }

  /** A page the kernel held becomes a user page, or free again, while tables were made for `pid`. */
  lemma KeptMapped(s: State, s1: State, s': State, pid: Pid, q: Ppn, o: Owner)
    requires OnlyTablesGrew(s, s1) && GrewFor(s, s1, pid) && q in s.owner && s.owner[q].Kernel?
    requires forall p :: p in s.owner && s.owner[p].Kernel? ==> p in s.refs && s.refs[p] == 1
    requires s'.owner == s1.owner[q := o] && (o.User? || o.Free?)
    ensures Kept(s.(owner := s.owner[q := Free]), s', pid) && s1.managed == s.managed && s1.roots == s.roots
    ensures q in s1.owner && s1.owner[q].Kernel?
  {}

  lemma KeptRefl(s: State, pid: Pid)
    ensures Kept(s, s, pid)
  {}

  lemma KeptTrans(s0: State, s1: State, s2: State, pid: Pid)
    requires Kept(s0, s1, pid) && Kept(s1, s2, pid)
    ensures Kept(s0, s2, pid)
  {}

  /** The same keys map the same physical pages. */
  ghost predicate SamePages(m: Maps, m': Maps) {
    m'.Keys == m.Keys && forall k :: k in m ==> m'[k].ppn == m[k].ppn
  }

  /** Parent and child have the same read-only entry for each of the first `n` pages. */
  ghost predicate Shares(m: Maps, parent: Pid, child: Pid, n: nat) {
    forall v: nat :: v < n ==> SharedEntry(m, parent, child, v)
  }

  ghost predicate SharedEntry(m: Maps, parent: Pid, child: Pid, v: nat) {
    && Key(parent, v) in m && Key(child, v) in m
    && m[Key(child, v)] == m[Key(parent, v)] && !m[Key(parent, v)].w
  }

  /** One page was shared, and no other entry touched. */
  ghost predicate SharesOne(m: Maps, m': Maps, parent: Pid, child: Pid, v: nat) {
    && SharedEntry(m', parent, child, v)
    && forall k :: k in m && k != Key(parent, v) && k != Key(child, v) ==> k in m' && m'[k] == m[k]
  }

  lemma SharesBy(m: Maps, m1: Maps, parent: Pid, child: Pid, v: nat, pte: Pte)
    requires Key(parent, v) in m && parent != child && !pte.w && Key(parent, v) in m1 && m1[Key(parent, v)] == pte
    requires m1 == m || m1 == m[Key(parent, v) := pte]
    ensures SharesOne(m, m1[Key(child, v) := pte], parent, child, v)
  {}

  /** uvmcopy has come to page `i`; `v` is what was seen before, `v1` what is seen now. */
  ghost predicate Copying(s0: State, s: State, v: View, v1: View, parent: Pid, child: Pid, n: nat, i: nat) {
    && i <= n && Kept(s0, s, child) && SamePages(s0.maps, s.maps - Range(child, 0, i))
    && Dense(s.maps, parent, n) && Dense(s.maps, child, i) && Shares(s.maps, parent, child, i)
    && Range(parent, 0, n) <= v.Keys && Range(parent, 0, i) <= v.Keys && v1 == v + CopyOf(v, parent, child, i)
  }

  lemma CopyingStart(s: State, v: View, parent: Pid, child: Pid, n: nat)
    requires v.Keys == s.maps.Keys && Dense(s.maps, parent, n) && Dense(s.maps, child, 0)
    ensures Copying(s, s, v, v, parent, child, n, 0)
  {
    hide Kept, Range, CopyOf, Dense, Shares;
    KeptRefl(s, child);
    EmptyRange(s.maps, child, 0);
    DenseRange(s.maps, parent, n, n);
    DenseRange(s.maps, parent, n, 0);
    CopiedFacts(v, parent, child, 0);
    SharesNone(s.maps, parent, child);
  }

  lemma CopyingAt(s0: State, s: State, v: View, v1: View, parent: Pid, child: Pid, n: nat, i: nat)
    requires Copying(s0, s, v, v1, parent, child, n, i) && i < n
    ensures Key(parent, i) in s.maps && Key(child, i) !in s.maps
  {
    hide Kept, Range, CopyOf, Dense, Shares, SamePages;
    DenseAt(s.maps, parent, n, i);
    DenseAt(s.maps, child, i, i);
  }

  lemma CopyingNext(s0: State, s: State, s': State, v: View, v1: View, v2: View, parent: Pid, child: Pid, n: nat,
      i: nat)
    requires Copying(s0, s, v, v1, parent, child, n, i) && i < n && parent != child && Kept(s, s', child)
    requires Key(child, i) in s'.maps && SamePages(s.maps, s'.maps - {Key(child, i)})
    requires SharesOne(s.maps, s'.maps, parent, child, i)
    requires Key(parent, i) in v1 && v2 == v1[Key(child, i) := v1[Key(parent, i)]]
    ensures Copying(s0, s', v, v2, parent, child, n, i + 1)
  {
    hide Kept, Range, CopyOf, Dense, Shares, SharesOne;
    CopyingAt(s0, s, v, v1, parent, child, n, i);
    KeptTrans(s0, s, s', child);
    WiderRange(v.Keys, parent, i + 1, n);
    NextCopied(v, parent, child, i);
    NextSame(s0.maps, s.maps, s'.maps, child, i);
    NextDense(s.maps, s'.maps, parent, child, n, i);
    NextShares(s.maps, s'.maps, parent, child, i);
  }

  lemma WiderRange(keys: set<Key>, pid: Pid, i: nat, n: nat)
    requires Range(pid, 0, n) <= keys && i <= n
    ensures Range(pid, 0, i) <= keys
  {}

  lemma SharesNone(m: Maps, parent: Pid, child: Pid)
    ensures Shares(m, parent, child, 0)
  {}

  lemma NextShares(m: Maps, m': Maps, parent: Pid, child: Pid, v: nat)
    requires Shares(m, parent, child, v) && SharesOne(m, m', parent, child, v)
    ensures Shares(m', parent, child, v + 1)
  {
    forall u: nat | u < v ensures SharedEntry(m', parent, child, u) {
      assert SharedEntry(m, parent, child, u);
    }
  }

  /** The counts are a function of the user entries: the same entries mean the same counts. */
  lemma CountsFromMaps(s: State, s': State, pid: Pid)
    requires Inv(s) && Inv(s') && SamePages(s.maps, s'.maps) && Kept(s, s', pid)
    ensures CountsKept(s, s')
  {
    assert forall q :: Users(s'.maps, q) == Users(s.maps, q);
    forall q | q in s.owner
      ensures q in s'.owner && q in s.refs && q in s'.refs && (s'.owner[q].Node? || s'.refs[q] == s.refs[q])
    {
      Partition(s, q);
      Partition(s', q);
    }
  }

  /** uvmcreate: a zeroed page that the kernel holds becomes the root of a new process. */
  lemma CreateStep(s: State, s': State, pid: Pid, q: Ppn)
    requires Inv(s) && pid !in s.roots && q in s.owner && s.owner[q].Kernel?
    requires q in s.pages && s.pages[q] == ZeroTable()
    requires s' == s.(roots := s.roots[pid := q], trees := s.trees[pid := map[Top := q]],
                        owner := s.owner[q := Node(pid, Top)])
    ensures Inv(s')
  {
    hide Users, EntryOk, Backed, ProcInv, NodesInv;
    NodesPart(s);
    CreateNodes(s, s', pid, q);
    EmptyTree(s.pages, q, s.maps, pid);
    CreateOwners(s, s', q);
  }

  lemma CreateNodes(s: State, s': State, pid: Pid, q: Ppn)
    requires NodesInv(s) && pid !in s.trees && q in s.owner && s.owner[q].Kernel? && q in s.refs && s.refs[q] == 1
    requires s'.refs == s.refs && s'.trees == s.trees[pid := map[Top := q]] && s'.owner == s.owner[q := Node(pid, Top)]
    ensures NodesInv(s')
  {}

  lemma CreateOwners(s: State, s': State, q: Ppn)
    requires OwnersInv(s) && q in s.owner && s.owner[q].Kernel? && q in s'.owner && s'.owner[q].Node?
    requires s'.refs == s.refs && s'.maps == s.maps && s'.managed == s.managed && s'.owner == s.owner[q := s'.owner[q]]
    ensures OwnersInv(s')
  {
    hide Users;
  }

  lemma EmptyTree(pages: map<Ppn, Page>, q: Ppn, m: Maps, pid: Pid)
    requires q in pages && pages[q] == ZeroTable() && forall k :: k in m ==> k.pid != pid
    ensures ProcInv(pages, map[Top := q], q, m, pid)
  {}

  /** No user entry left in the process: freewalk finds no leaf. */
  lemma NothingMapped(s: State, pid: Pid)
    requires TreesInv(s) && pid in s.roots && forall k :: k in s.maps ==> k.pid != pid
    ensures Shape(s.trees[pid]) && s.trees[pid].Values <= s.managed
    ensures Top in s.trees[pid] && s.trees[pid][Top] == s.roots[pid]
    ensures Unmapped(s.pages, s.refs, s.trees[pid], Top)
  {
    hide Injective, TreesParts;
    ProcPart(s, pid);
    var t := s.trees[pid];
    forall x | x in t ensures UnmappedNode(s.pages, s.refs, t, x) {
      assert PathInv(t, x);
      if x.Low? {
        forall i | 0 <= i < NPTE ensures !s.pages[t[x]].entries[i].v {
          var vpn := SlotHasPage(x.i, x.j, i);
          assert LinkedAt(Leaf(s.pages, t, vpn), s.maps, Key(pid, vpn));
        }
      } else {
        assert NodeInv(s.pages, t, x);
      }
    }
  }

  /** Exactly the table pages of `pid` became free. */
  ghost predicate TablesFreed(s: State, s': State, pid: Pid) {
    s'.owner == map q | q in s.owner :: if s.owner[q].Node? && s.owner[q].pid == pid then Free else s.owner[q]
  }

  /** freewalk returned every table page of the process. */
  lemma FreeTreeStep(s: State, s': State, pid: Pid)
    requires Inv(s) && pid in s.roots && forall k :: k in s.maps ==> k.pid != pid
    requires s'.maps == s.maps && s'.managed == s.managed
    requires s'.roots == s.roots - {pid} && s'.trees == s.trees - {pid}
    requires Freed(s.refs, s'.refs, s.trees[pid].Values) && Untouched(s.pages, s'.pages, s.trees[pid].Values)
    requires s'.owner == map q | q in s.owner :: if q in s.trees[pid].Values then Free else s.owner[q]
    ensures Inv(s') && ViewOf(s'.maps, s'.pages) == ViewOf(s.maps, s.pages)
    ensures TablesFreed(s, s', pid)
  {
    hide Users, EntryOk, Backed, ProcInv, ViewOf, NodesInv, Freed;
    FreeNodes(s, s', pid);
    forall x | x in s'.roots ensures ProcInv(s'.pages, s'.trees[x], s'.roots[x], s'.maps, x) {
      assert ProcInv(s.pages, s.trees[x], s.roots[x], s.maps, x);
      FreeOther(s, s', pid, x);
    }
    FreeUsers(s, s', pid);
  }

  lemma FreeNodes(s: State, s': State, pid: Pid)
    requires TreesInv(s) && pid in s.roots
    requires s'.trees == s.trees - {pid} && Freed(s.refs, s'.refs, s.trees[pid].Values)
    requires s'.owner == map q | q in s.owner :: if q in s.trees[pid].Values then Free else s.owner[q]
    ensures NodesInv(s')
    ensures forall q :: q in s.trees[pid].Values <==> q in s.owner && s.owner[q].Node? && s.owner[q].pid == pid
  {
    hide ProcInv;
    forall q | q in s.trees[pid].Values ensures q in s.owner && s.owner[q].Node? && s.owner[q].pid == pid {}
    forall q | q in s.owner && s.owner[q].Node? && s.owner[q].pid == pid ensures q in s.trees[pid].Values {}
  }

  lemma FreeOther(s: State, s': State, pid: Pid, x: Pid)
    requires TreesInv(s) && pid in s.roots && x in s.roots && x != pid && s'.maps == s.maps
    requires forall q :: q in s.trees[pid].Values ==> q in s.owner && s.owner[q].Node? && s.owner[q].pid == pid
    requires Untouched(s.pages, s'.pages, s.trees[pid].Values)
    ensures ProcInv(s'.pages, s.trees[x], s.roots[x], s'.maps, x)
  {
    hide ProcInv;
    var t := s.trees[x];
    assert ProcInv(s.pages, t, s.roots[x], s.maps, x);
    forall p | p in t ensures t[p] in s.pages && t[p] in s'.pages && s'.pages[t[p]] == s.pages[t[p]] {
      assert s.owner[s.trees[x][p]] == Node(x, p);
    }
    ProcFrame(s.pages, s'.pages, t, s.roots[x], s.maps, s'.maps, x);
  }

  lemma FreeUsers(s: State, s': State, pid: Pid)
    requires Inv(s) && pid in s.roots && s'.maps == s.maps && s'.managed == s.managed
    requires forall q :: q in s.trees[pid].Values <==> q in s.owner && s.owner[q].Node? && s.owner[q].pid == pid
    requires Freed(s.refs, s'.refs, s.trees[pid].Values) && Untouched(s.pages, s'.pages, s.trees[pid].Values)
    requires s'.owner == map q | q in s.owner :: if q in s.trees[pid].Values then Free else s.owner[q]
    ensures CowInv(s'.maps, s'.pages, s'.refs) && OwnersInv(s')
    ensures ViewOf(s'.maps, s'.pages) == ViewOf(s.maps, s.pages)
  {
    hide Parts, Users, EntryOk, Backed, ViewOf;
    Basics(s);
    UsersPart(s);
    FreeOwners(s, s', s.trees[pid].Values);
    CowFrame(s.maps, s.pages, s.refs, s'.pages, s'.refs);
  }

  lemma FreeOwners(s: State, s': State, freed: set<Ppn>)
    requires OwnersInv(s) && s'.maps == s.maps && s'.managed == s.managed && Freed(s.refs, s'.refs, freed)
    requires forall q :: q in freed ==> q in s.owner && s.owner[q].Node?
    requires s'.owner == map q | q in s.owner :: if q in freed then Free else s.owner[q]
    ensures OwnersInv(s')
  {
    hide Users;
  }

  /** No table of `pid` is left, and the kernel and the other processes have the pages they had for themselves. */
  ghost predicate Released(s: State, s': State, pid: Pid) {
    && s'.owner.Keys == s.owner.Keys
    && forall q :: q in s.owner ==>
         && (s'.owner[q].Kernel? <==> s.owner[q].Kernel?)
         && (s'.owner[q].Node? <==> s.owner[q].Node? && s.owner[q].pid != pid)
         && (s'.owner[q].Node? ==> s'.owner[q] == s.owner[q])
  }

  lemma ReleasedBy(s: State, s1: State, s': State, pid: Pid)
    requires Kept(s, s1, pid) && TablesFreed(s1, s', pid)
    ensures Released(s, s', pid)
  {}

  /** The entries of the other processes. */
  ghost function Rest(m: Maps, pid: Pid): Maps {
    map k | k in m && k.pid != pid :: m[k]
  }

  lemma RestOf(m: Maps, pid: Pid, n: nat)
    requires Dense(m, pid, n)
    ensures m - Range(pid, 0, n) == Rest(m, pid)
  {
    forall k | k in m ensures k in Range(pid, 0, n) <==> k.pid == pid {
      assert k.pid == pid ==> Key(pid, k.vpn) == k;
    }
  }

  /** The count of page `q` once `pid` is gone: its tables have none, its user pages lose its entries. */
  ghost function CountWithout(s: State, pid: Pid, q: Ppn): int
    requires q in s.owner
  {
    if s.owner[q].Kernel? then 1
    else if s.owner[q].Node? then (if s.owner[q].pid == pid then 0 else 1)
    else |Users(Rest(s.maps, pid), q)|
  }

  ghost predicate FreedCounts(s: State, s': State, pid: Pid) {
    forall q :: q in s.owner ==> q in s'.refs && s'.refs[q] == CountWithout(s, pid, q)
  }

  lemma CountsOf(s: State, s': State, pid: Pid)
    requires Inv(s) && Inv(s') && Released(s, s', pid) && s'.maps == Rest(s.maps, pid)
    ensures FreedCounts(s, s', pid)
  {
    hide Parts, Rest;
    Basics(s');
    forall q | q in s.owner ensures q in s'.refs && s'.refs[q] == CountWithout(s, pid, q) {
      Partition(s', q);
      if s.owner[q].Node? && s.owner[q].pid == pid {
        NoUsers(s, q, pid);
      }
    }
  }

  lemma NoUsers(s: State, q: Ppn, pid: Pid)
    requires Inv(s) && q in s.owner && !s.owner[q].User?
    ensures Users(Rest(s.maps, pid), q) == {}
  {
    Partition(s, q);
    assert Users(Rest(s.maps, pid), q) <= Users(s.maps, q);
  }

  /** What a failed uvmalloc leaves behind are tables of `pid`: once `pid` is gone the counts are the same as if it had
      never been tried. */
  lemma AllocUndone(s: State, s1: State, pid: Pid)
    requires Inv(s) && Inv(s1) && Kept(s, s1, pid) && s1.maps == s.maps
    ensures forall q :: q in s.owner ==> q in s1.owner && CountWithout(s1, pid, q) == CountWithout(s, pid, q)
  {
    hide Parts, Rest;
    Basics(s);
    Basics(s1);
    forall q | q in s.owner ensures q in s1.owner && CountWithout(s1, pid, q) == CountWithout(s, pid, q) {
      Partition(s, q);
      Partition(s1, q);
      if s1.owner[q].Node? && !s.owner[q].Node? {
        NoUsers(s1, q, pid);
      }
    }
  }

  lemma KeptOwner(s: State, t: State, s': State, t': State, pid: Pid)
    requires s.owner == t.owner && s'.owner == t'.owner && Kept(s, s', pid)
    ensures Kept(t, t', pid)
  {}

  /** `k` moved to a writable private page; every other entry is as it was. */
  ghost predicate MadePrivate(m: Maps, m': Maps, k: Key) {
    k in m && k in m' && m' == m[k := m'[k]] && m'[k] == PrivatePte(m[k], m'[k].ppn)
  }

  /** memmove into the middle of a page. */
  function Splice(bytes: seq<Byte>, off: nat, bs: seq<Byte>): seq<Byte>
    requires off + |bs| <= |bytes|
  {
    bytes[..off] + bs + bytes[off + |bs|..]
  }

  /** A write through an entry with PTE_W. */
  lemma WriteStep(s: State, s': State, k: Key, bytes: seq<Byte>)
    requires Inv(s) && k in s.maps && s.maps[k].w && |bytes| == PAGE_SIZE
    requires s' == s.(pages := s.pages[s.maps[k].ppn := Data(bytes)])
    ensures Inv(s')
    ensures ViewOf(s'.maps, s'.pages) == ViewOf(s.maps, s.pages)[k := ViewOf(s.maps, s.pages)[k].(bytes := bytes)]
  {
    hide ProcInv, NodesInv, Users, ViewOf, EntryOk;
    TreesFrame(s, s');
    Write(s.maps, s.pages, s.refs, k, bytes);
  }

  ghost predicate PageWrote(a: APage, a': APage, k: Key, pid: Pid, va: nat, bs: seq<Byte>) {
    && a' == a.(bytes := a'.bytes) && |a'.bytes| == |a.bytes|
    && forall o :: 0 <= o < |a.bytes| ==>
         var at := k.vpn * PAGE_SIZE + o;
         a'.bytes[o] == if k.pid == pid && va <= at < va + |bs| then bs[at - va] else a.bytes[o]
  }

  /** The bytes `bs` were written at `va` of process `pid`; nothing else changed for anyone. */
  ghost predicate Wrote(v: View, v': View, pid: Pid, va: nat, bs: seq<Byte>) {
    v'.Keys == v.Keys && forall k :: k in v ==> PageWrote(v[k], v'[k], k, pid, va, bs)
  }

  lemma WroteNothing(v: View, pid: Pid, va: nat)
    ensures Wrote(v, v, pid, va, [])
  {}

  lemma WroteTrans(v0: View, v1: View, v2: View, pid: Pid, va: nat, a: seq<Byte>, b: seq<Byte>)
    requires Wrote(v0, v1, pid, va, a) && Wrote(v1, v2, pid, va + |a|, b)
    ensures Wrote(v0, v2, pid, va, a + b)
  {
    forall k | k in v0 ensures PageWrote(v0[k], v2[k], k, pid, va, a + b) {
      assert PageWrote(v0[k], v1[k], k, pid, va, a) && PageWrote(v1[k], v2[k], k, pid, va + |a|, b);
    }
  }

  ghost predicate Paged(v: View) {
    forall k :: k in v ==> |v[k].bytes| == PAGE_SIZE
  }

  /** A write inside one page, in terms of addresses. */
  lemma WroteInPage(v: View, pid: Pid, va: nat, bs: seq<Byte>)
    requires Key(pid, va / PAGE_SIZE) in v && va % PAGE_SIZE + |bs| <= PAGE_SIZE
    requires Paged(v)
    ensures var k := Key(pid, va / PAGE_SIZE);
            Wrote(v, v[k := v[k].(bytes := Splice(v[k].bytes, va % PAGE_SIZE, bs))], pid, va, bs)
  {
    var k := Key(pid, va / PAGE_SIZE);
    var v' := v[k := v[k].(bytes := Splice(v[k].bytes, va % PAGE_SIZE, bs))];
    forall x | x in v ensures PageWrote(v[x], v'[x], x, pid, va, bs) {
      if x != k && x.pid == pid {
        forall o | 0 <= o < PAGE_SIZE ensures v'[x].bytes[o] == v[x].bytes[o]
        && !(va <= x.vpn * PAGE_SIZE + o < va + |bs|) {
          OtherPage(x.vpn, va, |bs|, o);
        }
      }
    }
  }

  lemma OtherPage(vpn: nat, va: nat, n: nat, o: nat)
    requires vpn != va / PAGE_SIZE && va % PAGE_SIZE + n <= PAGE_SIZE && o < PAGE_SIZE
    ensures !(va <= vpn * PAGE_SIZE + o < va + n)
  {}

  ghost predicate Readable(v: View, pid: Pid, va: nat) {
    var k := Key(pid, va / PAGE_SIZE);
    k in v && v[k].user && |v[k].bytes| == PAGE_SIZE
  }

  /** The byte that a process sees at an address. */
  ghost function ByteAt(v: View, pid: Pid, va: nat): Byte
    requires Readable(v, pid, va)
  {
    v[Key(pid, va / PAGE_SIZE)].bytes[va % PAGE_SIZE]
  }

  /** `bs` is what the process sees from `va` on. */
  ghost predicate Reads(v: View, pid: Pid, va: nat, bs: seq<Byte>) {
    forall a :: va <= a < va + |bs| ==> Readable(v, pid, a) && bs[a - va] == ByteAt(v, pid, a)
  }

  /** Reading on within one page. */
  lemma ReadsMore(v: View, pid: Pid, va: nat, bs: seq<Byte>, n: nat)
    requires Reads(v, pid, va, bs) && Paged(v)
    requires var k := Key(pid, (va + |bs|) / PAGE_SIZE); k in v && v[k].user
    requires (va + |bs|) % PAGE_SIZE + n <= PAGE_SIZE
    ensures var page := v[Key(pid, (va + |bs|) / PAGE_SIZE)].bytes;
            var off := (va + |bs|) % PAGE_SIZE;
            Reads(v, pid, va, bs + page[off..off + n])
  {
    var at := va + |bs|;
    var page := v[Key(pid, at / PAGE_SIZE)].bytes;
    var off := at % PAGE_SIZE;
    var bs' := bs + page[off..off + n];
    forall a | va <= a < va + |bs'| ensures Readable(v, pid, a) && bs'[a - va] == ByteAt(v, pid, a) {
      if a < at {
        assert Readable(v, pid, a);
      } else {
        assert a / PAGE_SIZE == at / PAGE_SIZE && a % PAGE_SIZE == off + (a - at);
      }
    }
  }
}
