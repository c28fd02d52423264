/** The whole of user memory as a value: physical pages, reference counts, the page-table
    tree of every process, and all user entries, with the invariant that every operation
    of kernel/vm.c keeps. */
module VmState {
  import opened Kalloc
  import opened PageTable
  import opened Cow

  /** Who holds a managed page. */
  datatype Owner = Free | User | Kernel | Node(pid: Pid, path: Path)

  datatype State = State(pages: map<Ppn, Page>, refs: map<Ppn, int>, managed: set<Ppn>,
                         roots: map<Pid, Ppn>, trees: map<Pid, Tree>, maps: Maps, owner: map<Ppn, Owner>)

  ghost predicate LinkedAt(e: Pte, m: Maps, k: Key) {
    (e.v <==> k in m) && (e.v ==> m[k] == e)
  }

  /** The flat map of the process's tree is its part of `maps`. */
  ghost predicate Linked(pages: map<Ppn, Page>, t: Tree, m: Maps, pid: Pid)
    requires Tables(pages, t)
  {
    forall vpn :: 0 <= vpn < MAX_VPN ==> LinkedAt(Leaf(pages, t, vpn), m, Key(pid, vpn))
  }

  ghost predicate ProcInv(pages: map<Ppn, Page>, t: Tree, root: Ppn, m: Maps, pid: Pid) {
    TreeInv(pages, t, root) && Linked(pages, t, m, pid)
  }

  /** Table pages have count 1 and belong to exactly one position of one tree. */
  ghost predicate NodesInv(s: State) {
    && (forall pid, p :: pid in s.trees && p in s.trees[pid] ==>
          s.trees[pid][p] in s.owner && s.owner[s.trees[pid][p]] == Node(pid, p))
    && (forall q :: q in s.owner && s.owner[q].Node? ==>
          var Node(pid, p) := s.owner[q];
          q in s.refs && s.refs[q] == 1 && pid in s.trees && p in s.trees[pid] && s.trees[pid][p] == q)
  }

  ghost predicate TreesInv(s: State) {
    TreesParts(s)
  }

  ghost predicate TreesParts(s: State) {
    && s.roots.Keys == s.trees.Keys
    && s.owner.Keys == s.managed
    && (forall q :: q in s.managed ==> q in s.pages && q in s.refs)
    && (forall k :: k in s.maps ==> k.pid in s.roots && k.vpn < MAX_VPN)
    && NodesInv(s)
    && (forall pid :: pid in s.roots ==> ProcInv(s.pages, s.trees[pid], s.roots[pid], s.maps, pid))
  }

  /** Every managed page is free with count 0, or user memory, or kernel-owned with count 1. */
  ghost predicate OwnersInv(s: State) {
    && s.owner.Keys == s.managed
    && (forall q :: q in s.owner ==> q in s.refs && (s.owner[q].Free? <==> s.refs[q] == 0))
    && (forall q :: q in s.owner && s.owner[q].User? ==> Users(s.maps, q) != {})
    && (forall q :: q in s.owner && s.owner[q].Kernel? ==> s.refs[q] == 1)
    && (forall k :: k in s.maps ==> s.maps[k].ppn in s.owner && s.owner[s.maps[k].ppn].User?)
  }

  /** The invariant of user memory; `Parts` lets a proof keep it folded. */
  ghost predicate Inv(s: State) {
    Parts(s)
  }

  ghost predicate Parts(s: State) {
    TreesInv(s) && CowInv(s.maps, s.pages, s.refs) && OwnersInv(s)
  }

  /** The allocator partition as the source's documentation would put it: count 0 exactly on
      free pages; otherwise the number of user entries, or 1 for a page the kernel owns. */
  lemma Partition(s: State, q: Ppn)
    requires Inv(s) && q in s.managed
    ensures s.owner[q].Free? ==> s.refs[q] == 0 && Users(s.maps, q) == {}
    ensures s.owner[q].User? ==> s.refs[q] == |Users(s.maps, q)| > 0
    ensures s.owner[q].Kernel? || s.owner[q].Node? ==> s.refs[q] == 1 && Users(s.maps, q) == {}
    ensures s.refs[q] > 1 ==> forall k :: k in Users(s.maps, q) ==> !s.maps[k].w
  {
    if k :| k in Users(s.maps, q) {
      assert s.owner[q].User? && EntryOk(s.maps[k], s.refs);
      CountPositive(s.maps, k);
    }
    forall k | k in Users(s.maps, q) && s.refs[q] > 1 ensures !s.maps[k].w {
      assert EntryOk(s.maps[k], s.refs);
    }
  }

  /** The parts of the invariant that callers look at. */
  lemma Basics(s: State)
    requires Inv(s)
    ensures s.owner.Keys == s.managed && s.roots.Keys == s.trees.Keys
    ensures forall q :: q in s.owner ==>
                          q in s.pages && q in s.refs && (if s.owner[q].Free? then s.refs[q] == 0 else s.refs[q] > 0)
    ensures forall q :: q in s.owner && s.owner[q].Kernel? ==> s.refs[q] == 1
    ensures forall k :: k in s.maps ==>
              && k.pid in s.roots && k.vpn < MAX_VPN
              && s.maps[k].ppn in s.owner && s.owner[s.maps[k].ppn].User?
              && EntryOk(s.maps[k], s.refs) && IsData(s.pages[s.maps[k].ppn])
  {
    hide ProcInv, NodesInv, Users;
    forall q | q in s.owner ensures if s.owner[q].Free? then s.refs[q] == 0 else s.refs[q] > 0 {
      Partition(s, q);
    }
  }

  ghost predicate AgreeOn(m: Maps, m': Maps, pid: Pid) {
    forall k: Key :: k.pid == pid ==> (k in m' <==> k in m) && (k in m ==> m'[k] == m[k])
  }

  lemma ProcFrame(pages: map<Ppn, Page>, pages': map<Ppn, Page>, t: Tree, root: Ppn, m: Maps, m': Maps, pid: Pid)
    requires ProcInv(pages, t, root, m, pid) && AgreeOn(m, m', pid)
    requires forall p :: p in t ==> t[p] in pages' && pages'[t[p]] == pages[t[p]]
    ensures ProcInv(pages', t, root, m', pid)
  {
    TreeFrame(pages, pages', t, root);
    hide TreeInv, Leaf;
  }

  /** Changes to pages that are not tables leave every tree alone. */
  lemma TreesFrame(s: State, s': State)
    requires TreesInv(s)
    requires s'.roots == s.roots && s'.trees == s.trees && s'.maps == s.maps && s'.managed == s.managed
    requires s'.owner.Keys == s.managed && s.managed <= s'.pages.Keys && s.managed <= s'.refs.Keys
    requires forall q :: q in s.owner && (s.owner[q].Node? || s'.owner[q].Node?) ==>
               s'.owner[q] == s.owner[q] && s'.pages[q] == s.pages[q] && s'.refs[q] == s.refs[q]
    ensures TreesInv(s')
  {
    hide ProcInv;
    forall pid | pid in s'.roots ensures ProcInv(s'.pages, s'.trees[pid], s'.roots[pid], s'.maps, pid) {
      ProcFrame(s.pages, s'.pages, s.trees[pid], s.roots[pid], s.maps, s'.maps, pid);
    }
  }

  /** The user entries after `e` was stored at `k`. */
  ghost function StoredAt(m: Maps, k: Key, e: Pte): Maps {
    if e.v then m[k := e] else m - {k}
  }

  lemma StoreOwn(pages: map<Ppn, Page>, t: Tree, root: Ppn, m: Maps, pid: Pid, vpn: nat, e: Pte)
    requires ProcInv(pages, t, root, m, pid) && vpn < MAX_VPN && PathAt(0, vpn) in t
    ensures ProcInv(StorePte(pages, t[PathAt(0, vpn)], Px(0, vpn), e), t, root, StoredAt(m, Key(pid, vpn), e), pid)
  {
    StoreLeaf(pages, t, root, vpn, e);
    hide NodeInv, PathInv, Injective, Leaf, PathAt, Px, StorePte;
  }

  /** Storing an entry through the slot that walk returned. */
  lemma StoreEntry(s: State, s': State, pid: Pid, vpn: nat, e: Pte)
    requires TreesInv(s) && pid in s.roots && vpn < MAX_VPN && PathAt(0, vpn) in s.trees[pid]
    requires var q := s.trees[pid][PathAt(0, vpn)];
             && q in s.pages && IsTable(s.pages[q])
             && s' == s.(pages := StorePte(s.pages, q, Px(0, vpn), e), maps := StoredAt(s.maps, Key(pid, vpn), e))
    ensures TreesInv(s') && OnlyTablesGrew(s, s')
  {
    hide ProcInv, PathAt;
    forall x | x in s'.roots ensures ProcInv(s'.pages, s'.trees[x], s'.roots[x], s'.maps, x) {
      if x == pid {
        StoreOwn(s.pages, s.trees[pid], s.roots[pid], s.maps, pid, vpn, e);
      } else {
        ProcFrame(s.pages, s'.pages, s.trees[x], s.roots[x], s.maps, s'.maps, x);
      }
    }
  }

  ghost function PathTo(t: Tree, q: Ppn): Path
    requires q in t.Values
  {
    var p :| p in t && t[p] == q;
    p
  }

  /** The pages that the tree of `pid` took from the allocator are now table nodes. */
  ghost function Reown(owner: map<Ppn, Owner>, pid: Pid, t: Tree, t': Tree): map<Ppn, Owner> {
    map q | q in owner :: if q in t'.Values && q !in t.Values then Node(pid, PathTo(t', q)) else owner[q]
  }

  /** Pages that are not tables afterwards are untouched; new tables come from pages with count 0. */
  ghost predicate OnlyTablesGrew(s: State, s': State) {
    && s'.owner.Keys == s.owner.Keys && s'.managed == s.managed && s'.roots == s.roots
    && forall q :: q in s.owner ==>
         && (!s'.owner[q].Node? ==>
               && s'.owner[q] == s.owner[q]
               && q in s.pages && q in s'.pages && s'.pages[q] == s.pages[q]
               && q in s.refs && q in s'.refs && s'.refs[q] == s.refs[q])
         && (s'.owner[q].Node? && !s.owner[q].Node? ==> q in s.refs && s.refs[q] == 0)
         && (s.owner[q].Node? ==> s'.owner[q] == s.owner[q])
  }

  /** The new tables all belong to `pid`. */
  ghost predicate GrewFor(s: State, s': State, pid: Pid) {
    forall q :: q in s.owner && q in s'.owner && s'.owner[q].Node? && !s.owner[q].Node? ==> s'.owner[q].pid == pid
  }

  /** What mappages of one page (or a failed one) does to the trees. */
  lemma MapGrows(s: State, s': State, pid: Pid, t': Tree, vpn: nat, done: nat, ppn: Ppn, perm: Pte)
    requires TreesInv(s) && pid in s.roots && done <= 1 && (done == 1 ==> vpn < MAX_VPN)
    requires Tables(s.pages, s.trees[pid]) && TreeInv(s'.pages, t', s.roots[pid]) && t'.Values <= s.managed
    requires MapKeeps(s.pages, s.refs, s.trees[pid], s'.pages, s'.refs, t', vpn, done, ppn, perm)
    requires s'.managed == s.managed && s'.roots == s.roots && s'.trees == s.trees[pid := t']
    requires s'.maps == if done == 1 then s.maps[Key(pid, vpn) := perm.(ppn := ppn, v := true)] else s.maps
    requires s'.owner == Reown(s.owner, pid, s.trees[pid], t')
    ensures TreesInv(s') && OnlyTablesGrew(s, s') && GrewFor(s, s', pid)
  {
    hide TreesParts, ProcInv, NodesInv, OnlyTablesGrew, GrewFor, Grew, SameOutside, Mapped, Reown, NodeInv, PathInv,
         Injective, IsTable;
    TreesFacts(s, pid);
    ReownNodes(s, s', pid, t');
    ReownRest(s, s', pid, t');
    MapOwn(s, s', pid, t', vpn, done, ppn, perm);
    forall x | x in s'.roots && x != pid ensures ProcInv(s'.pages, s'.trees[x], s'.roots[x], s'.maps, x) {
      OtherTree(s, s', pid, x, t');
    }
    AssembleTrees(s');
  }

  lemma TreesFacts(s: State, pid: Pid)
    requires TreesInv(s) && pid in s.roots
    ensures s.roots.Keys == s.trees.Keys && s.owner.Keys == s.managed && NodesInv(s)
    ensures forall q :: q in s.managed ==> q in s.pages && q in s.refs
    ensures forall k :: k in s.maps ==> k.pid in s.roots && k.vpn < MAX_VPN
    ensures ProcInv(s.pages, s.trees[pid], s.roots[pid], s.maps, pid)
  {
    hide ProcInv, NodesInv;
  }

  lemma AssembleTrees(s: State)
    requires s.roots.Keys == s.trees.Keys && s.owner.Keys == s.managed && NodesInv(s)
    requires forall q :: q in s.managed ==> q in s.pages && q in s.refs
    requires forall k :: k in s.maps ==> k.pid in s.roots && k.vpn < MAX_VPN
    requires forall pid :: pid in s.roots ==> ProcInv(s.pages, s.trees[pid], s.roots[pid], s.maps, pid)
    ensures TreesInv(s)
  {
    hide ProcInv, NodesInv;
  }

  lemma OtherTree(s: State, s': State, pid: Pid, x: Pid, t': Tree)
    requires TreesInv(s) && pid in s.roots && x in s.roots && x != pid
    requires NodesInv(s') && s'.trees == s.trees[pid := t'] && AgreeOn(s.maps, s'.maps, x)
    requires SameOutside(s.pages, s'.pages, t')
    ensures ProcInv(s'.pages, s.trees[x], s.roots[x], s'.maps, x)
  {
    hide ProcInv;
    var t := s.trees[x];
    assert ProcInv(s.pages, t, s.roots[x], s.maps, x);
    forall p | p in t ensures t[p] in s.pages && t[p] !in t'.Values {
      assert s'.owner[s'.trees[x][p]] == Node(x, p);
      assert s.owner[s.trees[x][p]] == Node(x, p);
      assert s'.trees[pid] == t';
    }
    ProcFrame(s.pages, s'.pages, t, s.roots[x], s.maps, s'.maps, x);
  }

  lemma MapOwn(s: State, s': State, pid: Pid, t': Tree, vpn: nat, done: nat, ppn: Ppn, perm: Pte)
    requires pid in s.roots && pid in s.trees && done <= 1 && (done == 1 ==> vpn < MAX_VPN)
    requires ProcInv(s.pages, s.trees[pid], s.roots[pid], s.maps, pid)
    requires TreeInv(s'.pages, t', s.roots[pid])
    requires MapKeeps(s.pages, s.refs, s.trees[pid], s'.pages, s'.refs, t', vpn, done, ppn, perm)
    requires s'.maps == if done == 1 then s.maps[Key(pid, vpn) := perm.(ppn := ppn, v := true)] else s.maps
    ensures ProcInv(s'.pages, t', s.roots[pid], s'.maps, pid)
  {
    hide NodeInv, PathInv, Injective, Leaf, Grew, SameOutside;
  }

  /** What became of the pages when the tree of `pid` grew to `t'`. */
  ghost predicate Regrown(s: State, s': State, pid: Pid, t': Tree) {
    && NodesInv(s) && pid in s.trees && s.owner.Keys == s.managed
    && (forall q :: q in s.managed ==> q in s.pages && q in s.refs)
    && Injective(t') && t'.Values <= s.managed
    && Grew(s.refs, s'.refs, s.trees[pid], t') && SameOutside(s.pages, s'.pages, t')
    && s'.managed == s.managed && s'.roots == s.roots && s'.trees == s.trees[pid := t']
    && s'.owner == Reown(s.owner, pid, s.trees[pid], t')
  }

  lemma ReownNodes(s: State, s': State, pid: Pid, t': Tree)
    requires Regrown(s, s', pid, t')
    ensures NodesInv(s')
  {
    var t := s.trees[pid];
    forall p | p in t' ensures t'[p] in s'.owner && s'.owner[t'[p]] == Node(pid, p) {
      assert t'[p] in t'.Values;
      if t'[p] in t.Values {
        var p0 :| p0 in t && t[p0] == t'[p];
        assert t'[p0] == t'[p];
      }
    }
    forall x, p | x in s'.trees && p in s'.trees[x] && x != pid
      ensures s'.trees[x][p] in s'.owner && s'.owner[s'.trees[x][p]] == Node(x, p)
    {
      assert s.owner[s.trees[x][p]] == Node(x, p);
    }
  }

  lemma ReownRest(s: State, s': State, pid: Pid, t': Tree)
    requires Regrown(s, s', pid, t')
    ensures OnlyTablesGrew(s, s') && GrewFor(s, s', pid) && s'.owner.Keys == s.managed
    ensures forall q :: q in s.managed ==> q in s'.pages && q in s'.refs
  {
    var t := s.trees[pid];
    forall q | q in t.Values ensures q in s.owner && s.owner[q].Node? && q in t'.Values {
      var p :| p in t && t[p] == q;
      assert t'[p] == q;
    }
  }

  /** Growing trees does not touch user memory. */
  lemma GrowKeepsUsers(s: State, s': State)
    requires CowInv(s.maps, s.pages, s.refs) && OwnersInv(s) && OnlyTablesGrew(s, s') && NodesInv(s')
    ensures CowInv(s.maps, s'.pages, s'.refs) && OwnersInv(s'.(maps := s.maps))
    ensures ViewOf(s.maps, s'.pages) == ViewOf(s.maps, s.pages)
  {
    hide ViewOf, CowInv, Users, Backed;
    UsersUntouched(s, s');
  }

  lemma UsersUntouched(s: State, s': State)
    requires CowInv(s.maps, s.pages, s.refs) && OwnersInv(s) && OnlyTablesGrew(s, s')
    ensures CowInv(s.maps, s'.pages, s'.refs)
    ensures ViewOf(s.maps, s'.pages) == ViewOf(s.maps, s.pages)
  {
    forall k | k in s.maps
      ensures s.maps[k].ppn in s'.pages && s'.pages[s.maps[k].ppn] == s.pages[s.maps[k].ppn]
      ensures s.maps[k].ppn in s'.refs && s'.refs[s.maps[k].ppn] == s.refs[s.maps[k].ppn]
    {
      CountPositive(s.maps, k);
      hide Users;
    }
    CowFrame(s.maps, s.pages, s.refs, s'.pages, s'.refs);
    hide *;
  }
}
