/** The user-memory functions of kernel/vm.c over one physical memory and all page tables. */
module Vm {
  import opened Kalloc
  import opened PageTable
  import opened Cow
  import opened VmState
  import opened VmSteps

  /** cow_fault_handler returns 0 or -1, or the kernel dies on the way: walk panics, or it
      dereferences a null entry, or it copies to the null page that kalloc returned. */
  datatype Fault = Handled | Refused | Crash

  /** What copyout and copyin return, or the death of the kernel. */
  datatype CopyResult = Copied | Failed | Died

  const LOAD_PAGE_FAULT := 13
  const STORE_PAGE_FAULT := 15

  /** walk finds no slot for the page: it lies beyond MAXVA, or a table on the way is missing. */
  ghost predicate NoSlot(s: State, pid: Pid, vpn: nat) {
    vpn >= MAX_VPN || pid !in s.trees || PathAt(0, vpn) !in s.trees[pid]
  }

  /** A user page that has to be made private before it is written. */
  ghost predicate CowUser(s: State, k: Key) {
    k in s.maps && s.maps[k].cow && s.maps[k].u
  }

  /** The page has other users and there is no page for a copy. */
  ghost predicate Starved(s: State, k: Key) {
    && k in s.maps && s.maps[k].ppn in s.refs && s.refs[s.maps[k].ppn] != 1
    && forall q :: q in s.managed ==> q in s.refs && s.refs[q] != 0
  }

  /** What a copy to the page of `va` comes to: it works on a page that is writable, or copy-on-write and not starved;
      it dies without a slot or a page for the copy; it fails otherwise. */
  ghost function Fate(s: State, pid: Pid, va: nat, scause: nat): CopyResult {
    var k := Key(pid, va / PAGE_SIZE);
    if k.vpn >= MAX_VPN then Failed
    else if NoSlot(s, pid, k.vpn) then Died
    else if CowUser(s, k) && scause != LOAD_PAGE_FAULT then (if Starved(s, k) then Died else Copied)
    else if k in s.maps && s.maps[k].u && s.maps[k].w then Copied
    else Failed
  }

  lemma SameOwners(s: State, s1: State, s2: State, pid: Pid)
    requires Kept(s, s1, pid) && s2.owner == s1.owner
    ensures Kept(s, s2, pid)
  {}

  lemma SameKeys(m: Maps, m': Maps)
    requires SamePages(m, m')
    ensures m'.Keys == m.Keys
  {}

  lemma CopyingEnd(s0: State, s: State, v: View, v1: View, parent: Pid, child: Pid, n: nat)
    requires Copying(s0, s, v, v1, parent, child, n, n)
    ensures Kept(s0, s, child) && Range(parent, 0, n) <= v.Keys && v1 == v + CopyOf(v, parent, child, n)
    ensures Shares(s.maps, parent, child, n) && Dense(s.maps, child, n)
  {}

  lemma HasTree(s: State, pid: Pid)
    requires Inv(s) && pid in s.roots
    ensures pid in s.trees
  {
    Basics(s);
  }

  lemma InRange(s: State, pid: Pid, n: nat)
    requires Inv(s) && Dense(s.maps, pid, n)
    ensures n <= MAX_VPN
  {
    Basics(s);
    var top := Key(pid, MAX_VPN);
    assert top !in s.maps;
  }

  /** uvmunmap's kfree of the page, then the cleared entry. */
  method FreeThenClear(m: PhysicalMemory, p: Ppn, table: Ppn, i: nat)
    requires m.Valid() && p in m.managed && m.refs[p] > 0 && table in m.managed && m.refs[table] > 0 && table != p
    requires IsTable(m.pages[table]) && i < NPTE
    modifies m
    ensures m.Valid() && m.managed == old(m.managed)
    ensures m.refs == old(m.refs)[p := old(m.refs[p]) - 1]
    ensures m.pages.Keys == old(m.pages).Keys
    ensures var cleared := StorePte(old(m.pages), table, i, ZERO_PTE);
            forall q :: q in cleared && (q != p || old(m.refs[p]) > 1) ==> m.pages[q] == cleared[q]
  {
    hide IsChain, NoDup;
    var _ := m.KFree(p);
    m.SetPage(table, Table(m.pages[table].entries[i := ZERO_PTE]));
  }

  lemma ReadsNothing(v: View, pid: Pid, va: nat)
    ensures Reads(v, pid, va, [])
  {}

  /** The inner loop of copyinstr: the bytes before the first NUL. */
  method UpToNull(s: seq<Byte>) returns (found: bool, part: seq<Byte>)
    ensures |part| <= |s| && part == s[..|part|] && 0 !in part
    ensures if found then |part| < |s| && s[|part|] == 0 else part == s
  {
    part := [];
    while |part| < |s|
      invariant |part| <= |s| && part == s[..|part|] && 0 !in part
      decreases |s| - |part|
    {
      if s[|part|] == 0 {
        return true, part;
      }
      part := part + [s[|part|]];
    }
    found := false;
  }

  lemma PartOf(s: seq<Byte>, off: nat, n: nat, k: nat)
    requires k <= n && off + n <= |s|
    ensures s[off..off + n][..k] == s[off..off + k]
    ensures k < n ==> s[off..off + k + 1] == s[off..off + k] + [s[off..off + n][k]]
  {}

  lemma WholeTree(t: Tree)
    ensures Subtree(t, Top) == t.Values
  {}

  class AddressSpaces {
    const mem: PhysicalMemory
    var roots: map<Pid, Ppn>
    ghost var trees: map<Pid, Tree>
    ghost var maps: Maps
    ghost var owner: map<Ppn, Owner>

    ghost function S(): State
      reads this, mem
    {
      State(mem.pages, mem.refs, mem.managed, roots, trees, maps, owner)
    }

    ghost predicate Valid()
      reads this, mem
    {
      mem.Valid() && Inv(S())
    }

    /** What every process sees. */
    ghost function View(): (v: View)
      reads this, mem
      requires Valid()
      ensures v.Keys == maps.Keys && Paged(v)
    {
      ViewOf(maps, mem.pages)
    }

    /** After kinit: no process, every page free. */
    constructor (m: PhysicalMemory)
      requires m.Valid() && forall q :: q in m.managed ==> m.refs[q] == 0
      ensures Valid() && mem == m && roots == map[] && View() == map[] && forall q :: q in owner ==> owner[q].Free?
    {
      mem := m;
      roots, trees, maps := map[], map[], map[];
      owner := map q | q in m.managed :: Free;
    }

    ghost predicate NoFreePage()
      reads mem
    {
      forall q :: q in mem.managed ==> q in mem.refs && mem.refs[q] != 0
    }

    /** kalloc for the kernel's own use. */
    method TakePage() returns (q: Ppn)
      requires Valid()
      modifies this`owner, mem
      ensures Valid() && mem.managed == old(mem.managed) && View() == old(View())
      ensures q == NULL <==> old(NoFreePage())
      ensures q == NULL ==> S() == old(S())
      ensures q != NULL ==>
                && q in mem.managed && old(owner[q]).Free?
                && S() == old(S()).(pages := old(mem.pages)[q := Fill(5)], refs := old(mem.refs)[q := 1],
                                    owner := old(owner)[q := Kernel])
      ensures |old(mem.FreePages())| == if q == NULL then 0 else |mem.FreePages()| + 1
      ensures q == NULL ==> |mem.FreePages()| == 0
    {
      hide IsChain, NoDup, ProcInv, NodesInv, Users, ViewOf, EntryOk, Backed, Fill;
      q := mem.KAlloc();
      if q != NULL {
        owner := owner[q := Kernel];
        KernelStep(old(S()), S(), q);
      }
    }

    /** kfree of a page the kernel holds. */
    method ReturnPage(q: Ppn)
      requires Valid() && q in owner && owner[q].Kernel?
      modifies this`owner, mem
      ensures Valid() && mem.managed == old(mem.managed) && View() == old(View())
      ensures owner == old(owner)[q := Free] && mem.refs == old(mem.refs)[q := 0]
      ensures forall p :: p in old(mem.pages) && p != q ==> p in mem.pages && mem.pages[p] == old(mem.pages)[p]
    {
      hide IsChain, NoDup, ProcInv, NodesInv, Users, ViewOf, EntryOk, Backed;
      var ok := mem.KFree(q);
      owner := owner[q := Free];
      KernelStep(old(S()), S(), q);
    }

    /** memset or memmove into a page the kernel holds. */
    method FillPage(q: Ppn, page: Page)
      requires Valid() && q in owner && owner[q].Kernel?
      modifies mem`pages
      ensures Valid() && View() == old(View()) && S() == old(S()).(pages := old(mem.pages)[q := page])
      ensures mem.FreePages() == old(mem.FreePages())
    {
      hide IsChain, NoDup, ProcInv, NodesInv, Users, ViewOf, EntryOk, Backed;
      mem.SetPage(q, page);
      KernelStep(old(S()), S(), q);
    }

    /** walk without alloc, and the entry it finds. */
    method Lookup(pid: Pid, vpn: nat) returns (slot: Slot, pte: Pte)
      requires Valid() && pid in roots
      modifies mem
      ensures Valid() && S() == old(S())
      ensures slot.Panic? <==> vpn >= MAX_VPN
      ensures slot.At? <==> !NoSlot(S(), pid, vpn)
      ensures slot.Missing? ==> Key(pid, vpn) !in maps
      ensures slot.At? ==>
                && PathAt(0, vpn) in trees[pid] && slot == At(trees[pid][PathAt(0, vpn)], Px(0, vpn))
                && slot.table in mem.managed && mem.refs[slot.table] > 0
                && slot.table in mem.pages && IsTable(mem.pages[slot.table]) && slot.index < NPTE
                && pte == mem.pages[slot.table].entries[slot.index]
                && LinkedAt(pte, maps, Key(pid, vpn))
      ensures mem.FreePages() == old(mem.FreePages())
    {
      hide IsChain, NoDup, NodeInv, PathInv, Injective, Users, EntryOk, Backed, CowInv, OwnersInv, WalkKeeps;
      ProcPart(S(), pid);
      ghost var t';
      slot, t' := Walk(mem, roots[pid], vpn, false, trees[pid]);
      pte := ZERO_PTE;
      if slot.At? {
        pte := mem.pages[slot.table].entries[slot.index];
      }
      LeafLinked(mem.pages, trees[pid], roots[pid], maps, pid, vpn);
    }

    /** mappages of one page of user memory. The user entries and the table pages change; the
        counts of user pages are the caller's business. */
    method MapUser(pid: Pid, vpn: nat, ppn: Ppn, perm: Pte) returns (r: Outcome)
      requires Valid() && pid in roots
      modifies this`trees, this`owner, this`maps, mem
      ensures mem.Valid() && TreesInv(S()) && OnlyTablesGrew(old(S()), S()) && GrewFor(old(S()), S(), pid)
      ensures maps == if r.Done? then old(maps)[Key(pid, vpn) := perm.(ppn := ppn, v := true)] else old(maps)
      ensures !r.Done? ==> Valid() && View() == old(View())
      ensures if vpn < MAX_VPN then !r.Panicked? && (PathAt(0, vpn) in old(trees[pid]) ==> r.Done?) else r.Panicked?
      ensures r.OutOfMemory? ==> NoFreePage()
      ensures r.OutOfMemory? ==> |old(mem.FreePages())| < 2
      ensures |old(mem.FreePages())| <= |mem.FreePages()| + 2
      ensures pid in trees && Spent(|old(mem.FreePages())|, old(trees[pid]).Keys, |mem.FreePages()|, trees[pid].Keys,
                                    vpn, if r.Done? then 1 else 0, r.OutOfMemory?)
    {
      hide PhysicalMemory.Valid, PhysicalMemory.FreePages, NodeInv, PathInv, Injective, Users, EntryOk, Backed, ViewOf,
           Linked, NodesInv,
           ProcInv, MapKeeps, OnlyTablesGrew, GrewFor, Reown, PathAt, IsTable, Spent;
      ProcPart(S(), pid);
      ghost var t';
      r, t' := MapPage(mem, roots[pid], vpn, ppn, perm, trees[pid]);
      owner := Reown(owner, pid, trees[pid], t');
      trees := trees[pid := t'];
      if r.Done? {
        maps := maps[Key(pid, vpn) := perm.(ppn := ppn, v := true)];
      }
      MapStep(old(S()), S(), pid, t', vpn, if r.Done? then 1 else 0, ppn, perm);
    }

    /** uvmunmap with do_free: `ok` is false exactly where the source panics. */
    method UvmUnmap(pid: Pid, start: nat, npages: nat) returns (ok: bool)
      requires Valid() && pid in roots
      modifies this`owner, this`maps, mem
      ensures Valid() && mem.managed == old(mem.managed)
      ensures ok <==> forall v: nat :: start <= v < start + npages ==> Key(pid, v) in old(maps)
      ensures ok ==> maps == old(maps) - Range(pid, start, start + npages)
      ensures ok ==> View() == old(View()) - Range(pid, start, start + npages)
      ensures Kept(old(S()), S(), pid)
    {
      hide PhysicalMemory.Valid, Parts, ViewOf;
      var a := start;
      while a < start + npages
        invariant start <= a <= start + npages
        invariant Valid() && mem.managed == old(mem.managed)
        invariant forall v: nat :: start <= v < a ==> Key(pid, v) in old(maps)
        invariant maps == old(maps) - Range(pid, start, a)
        invariant View() == old(View()) - Range(pid, start, a)
        invariant Kept(old(S()), S(), pid)
      {
        var done := UnmapOne(pid, a);
        NextInRange(old(maps), pid, start, a);
        NextInRange(old(View()), pid, start, a);
        if !done {
          return false;
        }
        a := a + 1;
      }
      ok := true;
    }

    /** One round of uvmunmap: release the page, then clear the entry. */
    method UnmapOne(pid: Pid, vpn: nat) returns (ok: bool)
      requires Valid() && pid in roots
      modifies this`owner, this`maps, mem
      ensures Valid() && mem.managed == old(mem.managed)
      ensures ok <==> Key(pid, vpn) in old(maps)
      ensures !ok ==> S() == old(S())
      ensures ok ==> maps == old(maps) - {Key(pid, vpn)} && View() == old(View()) - {Key(pid, vpn)}
      ensures ok ==> var p := old(maps)[Key(pid, vpn)].ppn; mem.refs == old(mem.refs)[p := old(mem.refs[p]) - 1]
      ensures ok ==> Kept(old(S()), S(), pid)
    {
      hide PhysicalMemory.Valid, Parts, ViewOf, PathAt, Px, Kept;
      Basics(S());
      var slot, pte := Lookup(pid, vpn);
      if !slot.At? || !pte.v {
        return false;
      }
      ghost var k := Key(pid, vpn);
      if !pte.r && !pte.w && !pte.x && !pte.u && !pte.cow {
        return false;
      }
      FreeThenClear(mem, pte.ppn, slot.table, slot.index);
      if mem.refs[pte.ppn] == 0 {
        owner := owner[pte.ppn := Free];
      }
      maps := maps - {k};
      ghost var s2 := old(S()).(pages := StorePte(old(mem.pages), slot.table, slot.index, ZERO_PTE), maps := maps);
      UnmapStep(old(S()), s2, S(), pid, vpn);
      ok := true;
    }

    /** PGROUNDUP(sz) / PGSIZE */
    static function PagesUp(sz: nat): nat {
      (sz + PAGE_SIZE - 1) / PAGE_SIZE
    }

    static lemma PagesUpExact(n: nat)
      ensures PagesUp(n * PAGE_SIZE) == n
    {}

    /** kalloc followed by memset or memmove. */
    method TakeFilled(page: Page) returns (q: Ppn)
      requires Valid()
      modifies this`owner, mem
      ensures Valid() && mem.managed == old(mem.managed) && View() == old(View())
      ensures q == NULL <==> old(NoFreePage())
      ensures q == NULL ==> S() == old(S())
      ensures q != NULL ==>
                && q in old(owner) && old(owner[q]).Free?
                && S() == old(S()).(pages := old(mem.pages)[q := page], refs := old(mem.refs)[q := 1],
                                    owner := old(owner)[q := Kernel])
      ensures |old(mem.FreePages())| == if q == NULL then 0 else |mem.FreePages()| + 1
    {
      hide PhysicalMemory.Valid, Parts, TreesParts, ViewOf, Fill;
      Basics(S());
      q := TakePage();
      if q != NULL {
        FillPage(q, page);
      }
    }

    /** Map a page the kernel holds into a process, or give it back. */
    method MapTaken(pid: Pid, vpn: nat, q: Ppn, perm: Pte) returns (r: Outcome)
      requires Valid() && pid in roots && Key(pid, vpn) !in maps && perm.r && !perm.cow
      requires q in owner && owner[q].Kernel? && IsData(mem.pages[q])
      modifies this`trees, this`owner, this`maps, mem
      ensures Valid() && mem.managed == old(mem.managed)
      ensures r.Panicked? ==> vpn >= MAX_VPN
      ensures r.Done? ==> maps == old(maps)[Key(pid, vpn) := perm.(ppn := q, v := true)]
      ensures r.Done? ==> View() == old(View())[Key(pid, vpn) := Seen(perm, old(mem.pages[q]))]
      ensures !r.Done? ==> maps == old(maps) && View() == old(View())
      ensures Kept(old(S()).(owner := old(owner)[q := Free]), S(), pid)
      ensures r.OutOfMemory? ==> |old(mem.FreePages())| < 2
      ensures r.Done? ==> |old(mem.FreePages())| <= |mem.FreePages()| + 2
      ensures r.Panicked? <==> vpn >= MAX_VPN
      ensures r.OutOfMemory? ==> !Suffices(|old(mem.FreePages())|, old(trees[pid]).Keys, vpn, 1)
      ensures pid in trees && (r.Done? ==> Spent(|old(mem.FreePages())|, old(trees[pid]).Keys, |mem.FreePages()|,
                                                 trees[pid].Keys, vpn, 1, false))
    {
      hide PhysicalMemory.Valid, PhysicalMemory.FreePages, Parts, TreesParts, ViewOf, PathAt, Spent, Suffices, Kept,
           OnlyTablesGrew, GrewFor;
      Basics(S());
      r := MapUser(pid, vpn, q, perm);
      if r.Done? {
        ghost var s1 := S();
        owner := owner[q := User];
        KeptMapped(old(S()), s1, S(), pid, q, User);
        FreshStep(old(S()), s1, S(), Key(pid, vpn), perm.(ppn := q, v := true));
      } else {
        if r.OutOfMemory? {
          SpentShort(|old(mem.FreePages())|, old(trees[pid]).Keys, |mem.FreePages()|, trees[pid].Keys, vpn, 0, 1);
        }
        ghost var s1 := S();
        KeptMapped(old(S()), s1, s1.(owner := s1.owner[q := Free]), pid, q, Free);
        ReturnPage(q);
        SameOwners(old(S()).(owner := old(owner)[q := Free]), s1.(owner := s1.owner[q := Free]), S(), pid);
      }
    }

    /** The loop body of uvmalloc: a zeroed page under a fresh entry. */
    method AllocOne(pid: Pid, vpn: nat, perm: Pte) returns (r: Outcome)
      requires Valid() && pid in roots && Key(pid, vpn) !in maps && perm.r && !perm.cow
      modifies this`trees, this`owner, this`maps, mem
      ensures Valid() && mem.managed == old(mem.managed)
      ensures r.Panicked? ==> vpn >= MAX_VPN
      ensures r.Done? ==> Key(pid, vpn) in maps && maps - {Key(pid, vpn)} == old(maps)
      ensures r.Done? ==> View() == old(View())[Key(pid, vpn) := Seen(perm, Fill(0))]
      ensures !r.Done? ==> maps == old(maps) && View() == old(View())
      ensures Kept(old(S()), S(), pid)
      ensures r.OutOfMemory? ==> |old(mem.FreePages())| < 3
      ensures r.Done? ==> |old(mem.FreePages())| <= |mem.FreePages()| + 3
      ensures r.Panicked? <==> vpn >= MAX_VPN && |old(mem.FreePages())| > 0
      ensures r.OutOfMemory? && |old(mem.FreePages())| > 0 ==>
                !Suffices(|old(mem.FreePages())| - 1, old(trees[pid]).Keys, vpn, 1)
      ensures r.Done? ==> |old(mem.FreePages())| > 0
      ensures pid in trees && (r.Done? ==> Spent(|old(mem.FreePages())| - 1, old(trees[pid]).Keys, |mem.FreePages()|,
                                                 trees[pid].Keys, vpn, 1, false))
    {
      hide PhysicalMemory.FreePages, PhysicalMemory.Valid, Parts, TreesParts, ViewOf, PathAt, Fill, Spent, Suffices;
      Basics(S());
      var q := TakeFilled(Fill(0));
      if q == NULL {
        return OutOfMemory;
      }
      r := MapTaken(pid, vpn, q, perm);
    }

    /** uvmalloc: grows by zeroed pages, or fails and leaves every view and every count as it was. */
    method UvmAlloc(pid: Pid, oldsz: nat, newsz: nat, perm: Pte) returns (r: Outcome, sz: nat)
      requires Valid() && pid in roots && perm.r && !perm.cow && Dense(maps, pid, PagesUp(oldsz))
      modifies this`trees, this`owner, this`maps, mem
      ensures Valid() && mem.managed == old(mem.managed) && Kept(old(S()), S(), pid)
      ensures r.Done? ==> sz == (if newsz < oldsz then oldsz else newsz) && Dense(maps, pid, PagesUp(sz))
      ensures r.Done? ==> View() == old(View()) + Filled(pid, PagesUp(oldsz), PagesUp(sz), Seen(perm, Fill(0)))
      ensures r.OutOfMemory? ==> sz == 0 && maps == old(maps) && View() == old(View()) && CountsKept(old(S()), S())
      ensures r.Done? ==> |old(mem.FreePages())| <= |mem.FreePages()| + 3 * (PagesUp(sz) - PagesUp(oldsz))
      ensures r.Panicked? ==> newsz >= oldsz && PagesUp(newsz) > MAX_VPN && OnlyGrew(old(View()), View(), pid)
      ensures r.OutOfMemory? ==> |old(mem.FreePages())| < 3 * (PagesUp(newsz) - PagesUp(oldsz))
      ensures r.OutOfMemory? <==> newsz >= oldsz && !Affords(|old(mem.FreePages())|, old(trees[pid]).Keys,
                                                             PagesUp(oldsz), PagesUp(newsz))
    {
      hide PhysicalMemory.FreePages, PhysicalMemory.Valid, Parts, ViewOf, Fill, Kept, CountsKept, Range, Filled,
           OnlyGrew, Paid, Affords, Spent, Suffices, AddressSpaces.NoFreePage;
      HasTree(S(), pid);
      ghost var free0, k0 := |mem.FreePages()|, trees[pid].Keys;
      ghost var page := Seen(perm, Fill(0));
      KeptRefl(S(), pid);
      EmptyRange(maps, pid, PagesUp(oldsz));
      EmptyFilled(View(), pid, PagesUp(oldsz), page);
      if newsz < oldsz {
        return Done, oldsz;
      }
      var lo, hi := PagesUp(oldsz), PagesUp(newsz);
      var a := lo;
      PaidNone(free0, k0, lo);
      InRange(S(), pid, lo);
      while a < hi
        invariant lo <= a <= hi && a <= MAX_VPN && pid in trees
        invariant Paid(free0, k0, |mem.FreePages()|, trees[pid].Keys, lo, a - lo)
        invariant Valid() && mem.managed == old(mem.managed) && Kept(old(S()), S(), pid)
        invariant Dense(maps, pid, a) && maps - Range(pid, lo, a) == old(maps)
        invariant View() == old(View()) + Filled(pid, lo, a, page)
        invariant |old(mem.FreePages())| <= |mem.FreePages()| + 3 * (a - lo)
      {
        ghost var s0, free1 := S(), |mem.FreePages()|;
        var s := AllocOne(pid, a, perm);
        KeptTrans(old(S()), s0, S(), pid);
        if s.OutOfMemory? {
          PaidShort(free0, k0, free1, s0.trees[pid].Keys, lo, a, hi);
          UndoGrow(old(S()), old(View()), page, pid, lo, a);
          return OutOfMemory, 0;
        } else if s.Panicked? {
          PaidAll(free0, k0, free1, s0.trees[pid].Keys, lo, a, hi);
          FilledGrew(old(View()), pid, lo, a, page);
          return Panicked, 0;
        }
        NextAdded(s0.maps, maps, pid, lo, a);
        NextFilled(old(View()), pid, lo, a, page);
        PaidMore(free0, k0, free1, s0.trees[pid].Keys, |mem.FreePages()|, trees[pid].Keys, lo, a);
        a := a + 1;
      }
      PaidAll(free0, k0, |mem.FreePages()|, trees[pid].Keys, lo, hi, hi);
      return Done, newsz;
    }

    /** The error exit of uvmalloc. */
    method UndoGrow(ghost s0: State, ghost v: View, ghost page: APage, pid: Pid, lo: nat, a: nat)
      requires Valid() && pid in roots && lo <= a && Inv(s0) && Kept(s0, S(), pid) && v.Keys == s0.maps.Keys
      requires Dense(s0.maps, pid, lo) && Dense(maps, pid, a) && maps - Range(pid, lo, a) == s0.maps
      requires View() == v + Filled(pid, lo, a, page)
      modifies this`owner, this`maps, mem
      ensures Valid() && mem.managed == old(mem.managed) && Kept(s0, S(), pid)
      ensures maps == s0.maps && View() == v && CountsKept(s0, S())
    {
      hide PhysicalMemory.Valid, Parts, ViewOf, Kept, CountsKept, Range, Filled, Dense;
      ghost var s1 := S();
      PagesUpExact(a);
      PagesUpExact(lo);
      var _ := UvmDealloc(pid, a * PAGE_SIZE, lo * PAGE_SIZE);
      KeptTrans(s0, s1, S(), pid);
      DenseDisjoint(s0.maps, pid, lo, a);
      RemoveFilled(v, pid, lo, a, page);
      CountsFromMaps(s0, S(), pid);
    }

    /** uvmdealloc: the pages from PGROUNDUP(newsz) on go away. */
    method UvmDealloc(pid: Pid, oldsz: nat, newsz: nat) returns (sz: nat)
      requires Valid() && pid in roots && Dense(maps, pid, PagesUp(oldsz))
      modifies this`owner, this`maps, mem
      ensures Valid() && mem.managed == old(mem.managed) && Kept(old(S()), S(), pid)
      ensures sz == if newsz >= oldsz then oldsz else newsz
      ensures Dense(maps, pid, PagesUp(sz))
      ensures maps == old(maps) - Range(pid, PagesUp(sz), PagesUp(oldsz))
      ensures View() == old(View()) - Range(pid, PagesUp(sz), PagesUp(oldsz))
    {
      hide PhysicalMemory.Valid, Parts, ViewOf;
      if newsz >= oldsz {
        return oldsz;
      }
      if PagesUp(newsz) < PagesUp(oldsz) {
        var npages := PagesUp(oldsz) - PagesUp(newsz);
        var _ := UvmUnmap(pid, PagesUp(newsz), npages);
      }
      return newsz;
    }

    /** uvmcreate: an empty page table, or no change at all. */
    method UvmCreate(pid: Pid) returns (ok: bool)
      requires Valid() && pid !in roots
      modifies this, mem
      ensures Valid() && mem.managed == old(mem.managed) && maps == old(maps) && View() == old(View())
      ensures ok <==> !old(NoFreePage())
      ensures !ok ==> S() == old(S())
      ensures ok ==> roots.Keys == old(roots).Keys + {pid} && Dense(maps, pid, 0)
      ensures ok ==> trees.Keys == old(trees).Keys + {pid} && trees[pid].Keys == {Top}
      ensures owner.Keys == old(owner).Keys
      ensures forall q :: q in owner ==>
                owner[q] == old(owner)[q] || (old(owner)[q].Free? && owner[q].Node? && owner[q].pid == pid)
      ensures |old(mem.FreePages())| == if ok then |mem.FreePages()| + 1 else 0
    {
      hide PhysicalMemory.FreePages, PhysicalMemory.Valid, Parts, TreesParts, ViewOf, ZeroTable, Fill, Paged;
      Basics(S());
      var q := TakeFilled(ZeroTable());
      if q == NULL {
        return false;
      }
      ghost var s := S();
      roots := roots[pid := q];
      trees := trees[pid := map[Top := q]];
      owner := owner[q := Node(pid, Top)];
      CreateStep(s, S(), pid, q);
      ok := true;
    }

    /** uvmfree: the pages, then the tables, all go back to the allocator. */
    method UvmFree(pid: Pid, sz: nat) returns (ok: bool)
      requires Valid() && pid in roots && Dense(maps, pid, PagesUp(sz))
      modifies this, mem
      ensures Valid() && mem.managed == old(mem.managed) && ok
      ensures roots == old(roots) - {pid}
      ensures maps == old(maps) - Range(pid, 0, PagesUp(sz))
      ensures View() == old(View()) - Range(pid, 0, PagesUp(sz))
      ensures Released(old(S()), S(), pid) && FreedCounts(old(S()), S(), pid)
    {
      hide PhysicalMemory.Valid, Parts, ViewOf, TablesFreed, Kept, Released, FreedCounts;
      KeptRefl(S(), pid);
      if sz > 0 {
        var _ := UvmUnmap(pid, 0, PagesUp(sz));
      }
      ghost var s := S();
      ok := FreeTables(pid);
      ReleasedBy(old(S()), s, S(), pid);
      RestOf(old(maps), pid, PagesUp(sz));
      CountsOf(old(S()), S(), pid);
    }

    /** freewalk from the root of a process without user pages. */
    method FreeTables(pid: Pid) returns (ok: bool)
      requires Valid() && pid in roots && forall k :: k in maps ==> k.pid != pid
      modifies this, mem
      ensures Valid() && mem.managed == old(mem.managed) && ok
      ensures roots == old(roots) - {pid} && maps == old(maps) && View() == old(View())
      ensures TablesFreed(old(S()), S(), pid)
    {
      hide PhysicalMemory.Valid, TreesParts, CowInv, OwnersInv, ViewOf, Freed, Untouched, Unmapped, Shape, Subtree,
           TablesFreed;
      Basics(S());
      NothingMapped(S(), pid);
      ok := FreeWalk(mem, roots[pid], Top, trees[pid]);
      WholeTree(trees[pid]);
      ghost var freed := trees[pid].Values;
      owner := map q | q in owner :: if q in freed then Free else owner[q];
      roots, trees := roots - {pid}, trees - {pid};
      FreeTreeStep(old(S()), S(), pid);
    }

    /** `*pte = ...` through a slot that walk returned, keeping the physical page. */
    method SetEntry(pid: Pid, vpn: nat, slot: Slot, e: Pte)
      requires Valid() && pid in roots && Key(pid, vpn) in maps
      requires pid in trees && vpn < MAX_VPN && PathAt(0, vpn) in trees[pid]
      requires slot == At(trees[pid][PathAt(0, vpn)], Px(0, vpn))
      requires slot.table in mem.managed && mem.refs[slot.table] > 0
      requires slot.table in mem.pages && IsTable(mem.pages[slot.table])
      requires e.v && e.ppn == maps[Key(pid, vpn)].ppn && CowInv(maps[Key(pid, vpn) := e], mem.pages, mem.refs)
      modifies this`maps, mem`pages
      ensures Valid() && maps == old(maps)[Key(pid, vpn) := e]
      ensures View() == ViewOf(old(maps)[Key(pid, vpn) := e], old(mem.pages))
      ensures mem.FreePages() == old(mem.FreePages())
    {
      hide PhysicalMemory.FreePages, PhysicalMemory.Valid, Parts, EntryOk, Backed, Users, ViewOf, PathAt;
      mem.SetPage(slot.table, Table(mem.pages[slot.table].entries[slot.index := e]));
      maps := maps[Key(pid, vpn) := e];
      ReplaceEntry(old(S()), S(), pid, vpn, e);
    }

    /** The loop body of uvmcopy: write-protect the parent's page and share it with the child. */
    method CopyOne(parent: Pid, child: Pid, vpn: nat) returns (r: Outcome)
      requires Valid() && parent in roots && child in roots && parent != child
      requires Key(parent, vpn) in maps && Key(child, vpn) !in maps
      modifies this`trees, this`owner, this`maps, mem
      ensures Valid() && mem.managed == old(mem.managed) && Kept(old(S()), S(), child) && !r.Panicked?
      ensures r.Done? ==> View() == old(View())[Key(child, vpn) := old(View())[Key(parent, vpn)]]
      ensures r.Done? ==> Key(child, vpn) in maps && SamePages(old(maps), maps - {Key(child, vpn)})
      ensures r.Done? ==> SharesOne(old(maps), maps, parent, child, vpn)
      ensures r.OutOfMemory? ==> View() == old(View()) && SamePages(old(maps), maps)
      ensures r.OutOfMemory? ==> |old(mem.FreePages())| < 2
      ensures |old(mem.FreePages())| <= |mem.FreePages()| + 2
      ensures child in trees
      ensures Spent(|old(mem.FreePages())|, old(trees[child]).Keys, |mem.FreePages()|, trees[child].Keys, vpn,
                    if r.Done? then 1 else 0, r.OutOfMemory?)
    {
      hide PhysicalMemory.FreePages, PhysicalMemory.Valid, Parts, ViewOf, Kept, SharesOne, Spent;
      KeptRefl(S(), child);
      HasTree(S(), child);
      var pte := ProtectPage(parent, vpn);
      ghost var s := S();
      KeptOwner(old(S()), old(S()), old(S()), s, child);
      r := ShareWith(parent, child, vpn, pte);
      KeptTrans(old(S()), s, S(), child);
      SharesBy(old(maps), s.maps, parent, child, vpn, pte);
    }

    /** uvmcopy clears PTE_W and sets PTE_COW in the parent; nobody's view changes. */
    method ProtectPage(pid: Pid, vpn: nat) returns (pte: Pte)
      requires Valid() && pid in roots && Key(pid, vpn) in maps
      modifies this`maps, mem
      ensures Valid() && mem.managed == old(mem.managed) && View() == old(View()) && owner == old(owner)
      ensures SamePages(old(maps), maps) && pte == maps[Key(pid, vpn)] == SharedPte(old(maps)[Key(pid, vpn)])
      ensures maps == if old(maps)[Key(pid, vpn)].w then old(maps)[Key(pid, vpn) := pte] else old(maps)
      ensures mem.FreePages() == old(mem.FreePages())
    {
      hide PhysicalMemory.FreePages, PhysicalMemory.Valid, Parts, ViewOf, EntryOk, PathAt, Users, Backed, Px, IsTable;
      Basics(S());
      UsersPart(S());
      var slot;
      slot, pte := Lookup(pid, vpn);
      if pte.w {
        Protect(maps, mem.pages, mem.refs, Key(pid, vpn));
        pte := SharedPte(pte);
        SetEntry(pid, vpn, slot, pte);
      }
    }

    /** mappages into the child, then the reference. */
    method ShareWith(ghost parent: Pid, child: Pid, vpn: nat, pte: Pte) returns (r: Outcome)
      requires Valid() && child in roots && parent != child
      requires Key(parent, vpn) in maps && Key(child, vpn) !in maps && pte == maps[Key(parent, vpn)] && !pte.w
      modifies this`trees, this`owner, this`maps, mem
      ensures Valid() && mem.managed == old(mem.managed) && Kept(old(S()), S(), child) && !r.Panicked?
      ensures r.Done? ==> View() == old(View())[Key(child, vpn) := old(View())[Key(parent, vpn)]]
      ensures maps == if r.Done? then old(maps)[Key(child, vpn) := pte] else old(maps)
      ensures r.OutOfMemory? ==> View() == old(View())
      ensures r.OutOfMemory? ==> |old(mem.FreePages())| < 2
      ensures |old(mem.FreePages())| <= |mem.FreePages()| + 2
      ensures child in trees
      ensures Spent(|old(mem.FreePages())|, old(trees[child]).Keys, |mem.FreePages()|, trees[child].Keys, vpn,
                    if r.Done? then 1 else 0, r.OutOfMemory?)
    {
      hide PhysicalMemory.FreePages, PhysicalMemory.Valid, Parts, TreesParts, ViewOf, PathAt, Px, Spent;
      Basics(S());
      r := MapUser(child, vpn, pte.ppn, pte);
      ghost var s1 := S();
      if r.Done? {
        mem.Retain(pte.ppn);
        ShareStep(old(S()), s1, S(), Key(parent, vpn), Key(child, vpn));
      }
    }

    /** uvmcopy: the child sees what an eager copy would give it; a failure changes no view and
        gives back every count it took. */
    method UvmCopy(parent: Pid, child: Pid, sz: nat) returns (r: Outcome)
      requires Valid() && parent in roots && child in roots && parent != child
      requires Dense(maps, parent, PagesUp(sz)) && Dense(maps, child, 0)
      modifies this`trees, this`owner, this`maps, mem
      ensures Valid() && mem.managed == old(mem.managed) && Kept(old(S()), S(), child) && !r.Panicked?
      ensures Range(parent, 0, PagesUp(sz)) <= old(View()).Keys
      ensures r.Done? ==> View() == old(View()) + CopyOf(old(View()), parent, child, PagesUp(sz))
      ensures r.Done? ==> Shares(maps, parent, child, PagesUp(sz)) && Dense(maps, child, PagesUp(sz))
      ensures r.OutOfMemory? ==> View() == old(View()) && SamePages(old(maps), maps) && CountsKept(old(S()), S())
      ensures r.OutOfMemory? ==> |old(mem.FreePages())| < 2 * PagesUp(sz)
      ensures r.Done? <==> Suffices(|old(mem.FreePages())|, old(trees[child]).Keys, 0, PagesUp(sz))
    {
      hide PhysicalMemory.FreePages, PhysicalMemory.Valid, Parts, ViewOf, Copying, Spent, Suffices, Kept, CountsKept,
           SamePages, SharesOne, Dense, Shares, CopyOf, Range;
      HasTree(S(), child);
      ghost var s0, free0, k0 := S(), |mem.FreePages()|, trees[child].Keys;
      SpentNone(free0, k0, 0);
      var n := PagesUp(sz);
      ghost var v := View();
      CopyingStart(s0, v, parent, child, n);
      var i := 0;
      while i < n
        invariant 0 <= i <= n && Valid() && mem.managed == old(mem.managed) && roots == old(roots)
        invariant Copying(s0, S(), v, View(), parent, child, n, i)
        invariant |old(mem.FreePages())| <= |mem.FreePages()| + 2 * i
        invariant child in trees && Spent(free0, k0, |mem.FreePages()|, trees[child].Keys, 0, i, false)
      {
        ghost var s, v1, free1 := S(), View(), |mem.FreePages()|;
        CopyingAt(s0, s, v, v1, parent, child, n, i);
        r := CopyOne(parent, child, i);
        if !r.Done? {
          SpentOut(free0, k0, free1, s.trees[child].Keys, |mem.FreePages()|, trees[child].Keys, 0, i);
          SpentShort(free0, k0, |mem.FreePages()|, trees[child].Keys, 0, i, n);
          UndoCopy(s0, s, v, parent, child, n, i);
          return;
        }
        CopyingNext(s0, s, S(), v, v1, View(), parent, child, n, i);
        SpentMore(free0, k0, free1, s.trees[child].Keys, |mem.FreePages()|, trees[child].Keys, 0, i);
        i := i + 1;
      }
      SpentDone(free0, k0, |mem.FreePages()|, trees[child].Keys, 0, n);
      CopyingEnd(s0, S(), v, View(), parent, child, n);
      r := Done;
    }

    /** The error exit of uvmcopy: the `i` pages that the child has got so far go away again. */
    method UndoCopy(ghost s0: State, ghost s: State, ghost v: View, ghost parent: Pid, child: Pid, ghost n: nat, i: nat)
      requires Valid() && child in roots && parent != child && Inv(s0) && v.Keys == s0.maps.Keys
      requires Dense(s0.maps, child, 0) && Copying(s0, s, v, View(), parent, child, n, i)
      requires Kept(s, S(), child) && SamePages(s.maps, maps)
      modifies this`owner, this`maps, mem
      ensures Valid() && mem.managed == old(mem.managed) && Kept(s0, S(), child)
      ensures View() == v && SamePages(s0.maps, maps) && CountsKept(s0, S()) && Range(parent, 0, n) <= v.Keys
    {
      hide PhysicalMemory.Valid, Parts, ViewOf, Kept, CountsKept, Range, CopyOf, Dense, Shares, SamePages;
      ghost var s1 := S();
      SameKeys(s.maps, maps);
      DenseSame(s.maps, maps, child, i);
      var _ := UvmUnmap(child, 0, i);
      KeptTrans(s0, s, s1, child);
      KeptTrans(s0, s1, S(), child);
      DenseDisjoint(s0.maps, child, 0, i);
      CopiedFacts(v, parent, child, i);
      RestSame(s0.maps, s.maps, s1.maps, child, i);
      CountsFromMaps(s0, S(), child);
    }

    /** update: makes a copy-on-write page private; fails exactly when a copy is needed and no page is free. */
    method Update(pid: Pid, vpn: nat, pte: Pte) returns (ok: bool)
      requires Valid() && pid in roots && Key(pid, vpn) in maps && pte == maps[Key(pid, vpn)] && pte.cow
      requires PathAt(0, vpn) in trees[pid]
      modifies this`trees, this`owner, this`maps, mem
      ensures ok <==> old(mem.refs[pte.ppn]) == 1 || !old(NoFreePage())
      ensures Valid() && mem.managed == old(mem.managed) && View() == old(View()) && Kept(old(S()), S(), pid)
      ensures if ok then MadePrivate(old(maps), maps, Key(pid, vpn)) else S() == old(S()) && NoFreePage()
    {
      hide PhysicalMemory.Valid, Parts, ViewOf, Kept, PathAt, IsData;
      Basics(S());
      if mem.refs[pte.ppn] > 1 {
        ok := CopyShared(pid, vpn, pte);
      } else {
        ClaimPage(pid, vpn, pte);
        ok := true;
      }
    }

    /** The branch of update for a page with several users. */
    method CopyShared(pid: Pid, vpn: nat, pte: Pte) returns (ok: bool)
      requires Valid() && pid in roots && Key(pid, vpn) in maps && pte == maps[Key(pid, vpn)] && pte.cow
      requires PathAt(0, vpn) in trees[pid] && mem.refs[pte.ppn] > 1
      modifies this`trees, this`owner, this`maps, mem
      ensures ok <==> !old(NoFreePage())
      ensures Valid() && mem.managed == old(mem.managed) && View() == old(View()) && Kept(old(S()), S(), pid)
      ensures if ok then MadePrivate(old(maps), maps, Key(pid, vpn)) else S() == old(S()) && NoFreePage()
    {
      hide PhysicalMemory.Valid, Parts, ViewOf, Kept, PathAt, IsData;
      Basics(S());
      KeptRefl(S(), pid);
      var q := TakeFilled(mem.pages[pte.ppn]);
      if q == NULL {
        return false;
      }
      ghost var s := S();
      MoveTo(pid, vpn, q, pte);
      KeptOwner(s.(owner := s.owner[q := Free]), old(S()), S(), S(), pid);
      ok := true;
    }

    /** mappages of the private copy, then kfree_no_lock of the shared page. */
    method MoveTo(pid: Pid, vpn: nat, q: Ppn, pte: Pte)
      requires Valid() && pid in roots && Key(pid, vpn) in maps && pte == maps[Key(pid, vpn)] && pte.cow
      requires PathAt(0, vpn) in trees[pid] && mem.refs[pte.ppn] > 1
      requires q in owner && owner[q].Kernel? && mem.pages[q] == mem.pages[pte.ppn]
      modifies this`trees, this`owner, this`maps, mem
      ensures Valid() && mem.managed == old(mem.managed) && View() == old(View())
      ensures Kept(old(S()).(owner := old(owner)[q := Free]), S(), pid)
      ensures maps == old(maps)[Key(pid, vpn) := PrivatePte(pte, q)]
    {
      hide PhysicalMemory.FreePages, PhysicalMemory.Valid, Parts, TreesParts, ViewOf, PathAt, Spent;
      Basics(S());
      var r := MapUser(pid, vpn, q, PrivatePte(pte, q));
      ghost var s1 := S();
      var _ := mem.KFreeNoLock(pte.ppn);
      owner := owner[q := User];
      SplitStep(old(S()), s1, S(), Key(pid, vpn), q);
    }

    method ClaimPage(pid: Pid, vpn: nat, pte: Pte)
      requires Valid() && pid in roots && Key(pid, vpn) in maps && pte == maps[Key(pid, vpn)] && pte.cow
      requires PathAt(0, vpn) in trees[pid] && mem.refs[pte.ppn] == 1
      modifies this`trees, this`owner, this`maps, mem
      ensures Valid() && mem.managed == old(mem.managed) && View() == old(View()) && Kept(old(S()), S(), pid)
      ensures maps == old(maps)[Key(pid, vpn) := PrivatePte(pte, pte.ppn)]
    {
      hide PhysicalMemory.FreePages, PhysicalMemory.Valid, Parts, TreesParts, ViewOf, PathAt;
      Basics(S());
      var r := MapUser(pid, vpn, pte.ppn, PrivatePte(pte, pte.ppn));
      ClaimStep(old(S()), S(), Key(pid, vpn));
    }

    /** cow_fault_handler: succeeds exactly on a user copy-on-write page for which a private page can be had, and kills
        the kernel exactly when there is no slot to look at or no page for the copy. */
    method CowFault(pid: Pid, va: nat, scause: nat) returns (r: Fault)
      requires Valid() && pid in roots
      modifies this`trees, this`owner, this`maps, mem
      ensures Valid() && mem.managed == old(mem.managed) && View() == old(View()) && Kept(old(S()), S(), pid)
      ensures var k := Key(pid, va / PAGE_SIZE);
              && (r.Handled? <==> CowUser(old(S()), k) && scause != LOAD_PAGE_FAULT && !Starved(old(S()), k))
              && (r.Crash? <==> NoSlot(old(S()), pid, k.vpn) ||
                                (CowUser(old(S()), k) && scause != LOAD_PAGE_FAULT && Starved(old(S()), k)))
      ensures if r.Handled? then MadePrivate(old(maps), maps, Key(pid, va / PAGE_SIZE)) else S() == old(S())
    {
      hide PhysicalMemory.Valid, Parts, ViewOf, PathAt, Px;
      Basics(S());
      var vpn := va / PAGE_SIZE;
      var slot, pte := Lookup(pid, vpn);
      if !slot.At? {
        return Crash;
      }
      if pte == ZERO_PTE || scause == LOAD_PAGE_FAULT {
        return Refused;
      }
      if pte.cow && pte.v && pte.u {
        var ok := Update(pid, vpn, pte);
        return if ok then Handled else Crash;
      }
      return Refused;
    }

    /** memmove into a page that the process may write. */
    method WriteInto(pid: Pid, vpn: nat, pte: Pte, off: nat, bs: seq<Byte>)
      requires Valid() && Key(pid, vpn) in maps && pte == maps[Key(pid, vpn)] && pte.w && off + |bs| <= PAGE_SIZE
      modifies mem`pages
      ensures Valid()
      ensures var v, k := old(View()), Key(pid, vpn); View() == v[k := v[k].(bytes := Splice(v[k].bytes, off, bs))]
    {
      hide PhysicalMemory.Valid, Parts, Paged;
      Basics(S());
      var bytes := Splice(mem.pages[pte.ppn].bytes, off, bs);
      mem.SetPage(pte.ppn, Data(bytes));
      WriteStep(old(S()), S(), Key(pid, vpn), bytes);
    }

    /** The store of a user byte: hardware writes it, or faults and retries after cow_fault_handler.
        `ok` is false where the kernel panics. */
    method StoreByte(pid: Pid, va: nat, b: Byte) returns (ok: bool)
      requires Valid() && pid in roots
      modifies this`trees, this`owner, this`maps, mem
      ensures Valid() && mem.managed == old(mem.managed) && maps.Keys == old(maps).Keys && Kept(old(S()), S(), pid)
      ensures var k := Key(pid, va / PAGE_SIZE);
              ok <==>
              && k in old(View()) && old(View())[k].user && old(View())[k].writable
              && (old(maps)[k].w || old(mem.refs)[old(maps)[k].ppn] == 1 || !old(NoFreePage()))
      ensures if ok then Wrote(old(View()), View(), pid, va, [b]) else S() == old(S())
    {
      hide PhysicalMemory.Valid, Parts, PathAt, Px, Wrote, Kept, Paged, IsData;
      Basics(S());
      KeptRefl(S(), pid);
      var vpn := va / PAGE_SIZE;
      var slot, pte := Lookup(pid, vpn);
      if !(slot.At? && pte.v && pte.u && pte.w) {
        var f := CowFault(pid, va, STORE_PAGE_FAULT);
        if !f.Handled? {
          return false;
        }
        slot, pte := Lookup(pid, vpn);
      }
      PutInPage(pid, va, [b], pte);
      ok := true;
    }

    /** The loop body of copyout: one page. */
    method CopyOutPage(pid: Pid, va: nat, bs: seq<Byte>, scause: nat) returns (r: CopyResult)
      requires Valid() && pid in roots && va % PAGE_SIZE + |bs| <= PAGE_SIZE
      modifies this`trees, this`owner, this`maps, mem
      ensures Valid() && mem.managed == old(mem.managed) && maps.Keys == old(maps).Keys && Kept(old(S()), S(), pid)
      ensures r == Fate(old(S()), pid, va, scause)
      ensures if r.Copied? then Wrote(old(View()), View(), pid, va, bs) else S() == old(S())
    {
      hide PhysicalMemory.Valid, Parts, PathAt, Px, Wrote, Kept, Paged, IsData;
      Basics(S());
      KeptRefl(S(), pid);
      var vpn := va / PAGE_SIZE;
      if vpn >= MAX_VPN {
        return Failed;
      }
      var slot, pte := Lookup(pid, vpn);
      if !slot.At? {
        return Died;
      }
      if pte.cow {
        var f := CowFault(pid, vpn * PAGE_SIZE, scause);
        if !f.Handled? {
          return if f.Crash? then Died else Failed;
        }
        slot, pte := Lookup(pid, vpn);
      }
      if !pte.v || !pte.u || !pte.w {
        return Failed;
      }
      PutInPage(pid, va, bs, pte);
      r := Copied;
    }

    /** memmove to a user address within one page. */
    method PutInPage(pid: Pid, va: nat, bs: seq<Byte>, pte: Pte)
      requires Valid() && va % PAGE_SIZE + |bs| <= PAGE_SIZE
      requires Key(pid, va / PAGE_SIZE) in maps && pte == maps[Key(pid, va / PAGE_SIZE)] && pte.w
      modifies mem`pages
      ensures Valid() && Wrote(old(View()), View(), pid, va, bs)
      ensures forall s: State :: Kept(s, old(S()), pid) ==> Kept(s, S(), pid)
    {
      hide PhysicalMemory.Valid, Parts, Wrote, Paged;
      WroteInPage(View(), pid, va, bs);
      WriteInto(pid, va / PAGE_SIZE, pte, va % PAGE_SIZE, bs);
    }

    /** copyout: writes `src[..n]` at `dstva`, all of it exactly when it returns 0. Otherwise it stopped at the start of
        a page, or at once, and the outcome is the fate of that page; what it does not write it does not change. */
    method CopyOut(pid: Pid, dstva: nat, src: seq<Byte>, scause: nat) returns (r: CopyResult, n: nat)
      requires Valid() && pid in roots
      modifies this`trees, this`owner, this`maps, mem
      ensures Valid() && mem.managed == old(mem.managed) && maps.Keys == old(maps).Keys && Kept(old(S()), S(), pid)
      ensures n <= |src| && Wrote(old(View()), View(), pid, dstva, src[..n])
      ensures r.Copied? <==> n == |src|
      ensures n < |src| ==> r == Fate(S(), pid, dstva + n, scause) && (n == 0 || (dstva + n) % PAGE_SIZE == 0)
      ensures n == 0 ==> S() == old(S())
      ensures 0 < |src| ==> (r != Copied && n == 0 <==> Fate(old(S()), pid, dstva, scause) != Copied)
    {
      hide PhysicalMemory.Valid, Parts, ViewOf, Wrote, Kept, Paged, Fate, NoFreePage;
      n := 0;
      KeptRefl(S(), pid);
      WroteNothing(View(), pid, dstva);
      while n < |src|
        invariant n <= |src| && Valid() && mem.managed == old(mem.managed)
        invariant maps.Keys == old(maps).Keys && Kept(old(S()), S(), pid)
        invariant Wrote(old(View()), View(), pid, dstva, src[..n])
        invariant n == 0 ==> S() == old(S())
        invariant n == 0 || n == |src| || (dstva + n) % PAGE_SIZE == 0
        invariant n > 0 ==> Fate(old(S()), pid, dstva, scause) == Copied
      {
        var va := dstva + n;
        var m := PAGE_SIZE - va % PAGE_SIZE;
        if m > |src| - n {
          m := |src| - n;
        }
        ghost var s, v := S(), View();
        r := CopyOutPage(pid, va, src[n..n + m], scause);
        KeptTrans(old(S()), s, S(), pid);
        if !r.Copied? {
          return;
        }
        WroteTrans(old(View()), v, View(), pid, dstva, src[..n], src[n..n + m]);
        assert src[..n] + src[n..n + m] == src[..n + m];
        n := n + m;
      }
      r := Copied;
    }

    /** walkaddr, and the bytes of the page it finds. */
    method UserPage(pid: Pid, vpn: nat) returns (ok: bool, bytes: seq<Byte>)
      requires Valid() && pid in roots
      modifies mem
      ensures Valid() && S() == old(S())
      ensures ok <==> Key(pid, vpn) in View() && View()[Key(pid, vpn)].user
      ensures ok ==> bytes == View()[Key(pid, vpn)].bytes && |bytes| == PAGE_SIZE
    {
      hide PhysicalMemory.Valid, Parts, PathAt, Px;
      Basics(S());
      if vpn >= MAX_VPN {
        return false, [];
      }
      var slot, pte := Lookup(pid, vpn);
      if !slot.At? || !pte.v || !pte.u {
        return false, [];
      }
      return true, mem.pages[pte.ppn].bytes;
    }

    /** copyin: returns what the process sees, or fails at the first unreadable byte. */
    method CopyIn(pid: Pid, srcva: nat, len: nat) returns (ok: bool, dst: seq<Byte>)
      requires Valid() && pid in roots
      modifies mem
      ensures Valid() && S() == old(S()) && |dst| <= len && Reads(View(), pid, srcva, dst)
      ensures if ok then |dst| == len else |dst| < len && !Readable(View(), pid, srcva + |dst|)
    {
      hide PhysicalMemory.Valid, Parts, ViewOf, Reads;
      dst := [];
      ghost var v := View();
      ReadsNothing(v, pid, srcva);
      while |dst| < len
        invariant |dst| <= len && Valid() && S() == old(S()) && v == View() && Reads(v, pid, srcva, dst)
        decreases len - |dst|
      {
        var va := srcva + |dst|;
        var found, bytes := UserPage(pid, va / PAGE_SIZE);
        if !found {
          return false, dst;
        }
        var off := va % PAGE_SIZE;
        var m := PAGE_SIZE - off;
        if m > len - |dst| {
          m := len - |dst|;
        }
        ReadsMore(v, pid, srcva, dst, m);
        dst := dst + bytes[off..off + m];
      }
      ok := true;
    }

    /** copyinstr: copies up to the first NUL, or fails at the first unreadable byte or after `max` bytes. */
    method CopyInStr(pid: Pid, srcva: nat, max: nat) returns (ok: bool, dst: seq<Byte>)
      requires Valid() && pid in roots
      modifies mem
      ensures Valid() && S() == old(S()) && |dst| <= max && Reads(View(), pid, srcva, dst) && 0 !in dst
      ensures ok ==> |dst| < max && Reads(View(), pid, srcva, dst + [0])
      ensures !ok ==> |dst| == max || !Readable(View(), pid, srcva + |dst|)
    {
      hide PhysicalMemory.Valid, Parts, ViewOf, Reads;
      dst := [];
      ghost var v := View();
      ReadsNothing(v, pid, srcva);
      while |dst| < max
        invariant |dst| <= max && Valid() && S() == old(S()) && v == View() && Reads(v, pid, srcva, dst) && 0 !in dst
        decreases max - |dst|
      {
        var va := srcva + |dst|;
        var found, bytes := UserPage(pid, va / PAGE_SIZE);
        if !found {
          return false, dst;
        }
        var off := va % PAGE_SIZE;
        var n := PAGE_SIZE - off;
        if n > max - |dst| {
          n := max - |dst|;
        }
        var nul, part := UpToNull(bytes[off..off + n]);
        ReadsMore(v, pid, srcva, dst, |part|);
        ReadsMore(v, pid, srcva, dst, if nul then |part| + 1 else |part|);
        PartOf(bytes, off, n, |part|);
        if nul {
          assert dst + (part + [0]) == dst + part + [0];
          return true, dst + part;
        }
        dst := dst + part;
      }
      ok := false;
    }
  }
}
