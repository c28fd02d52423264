/** Concrete states in which kernel/vm.c and kernel/kalloc.c use what is not there. */
module VmWitness {
  import opened Kalloc
  import opened PageTable
  import opened Cow
  import opened VmState
  import opened VmSteps
  import opened Vm
  import opened CowRun

  /** A machine with `n` pages after boot. */
  method Boot(n: nat) returns (vm: AddressSpaces)
    ensures fresh(vm) && fresh(vm.mem) && vm.Valid() && vm.roots == map[] && vm.maps == map[]
    ensures |vm.mem.FreePages()| == n && NoneHeld(vm.owner)
  {
    var m := new PhysicalMemory(1, 1, 1 + n);
    m.FreeRange();
    vm := new AddressSpaces(m);
    PagesAre(n);
    assert m.FreePages() == Pages(n);
  }

  /** Pages 1 to n. */
  ghost function Pages(n: nat): set<Ppn> {
    if n == 0 then {} else Pages(n - 1) + {n}
  }

  lemma {:induction false} PagesAre(n: nat)
    ensures |Pages(n)| == n && forall p: Ppn :: p in Pages(n) <==> 1 <= p <= n
  {
    if n > 0 {
      PagesAre(n - 1);
    }
  }

  /** A new process has no tables below its root: a fault on page 0, or a copy to it, dereferences a null entry. */
  method MissingTable() returns (vm: AddressSpaces, f: Fault, r: CopyResult)
    ensures vm.Valid() && 1 in vm.roots && NoSlot(vm.S(), 1, 0)
    ensures f.Crash? && r.Died?
  {
    hide Parts, PhysicalMemory.Valid;
    vm := Boot(8);
    var _ := vm.UvmCreate(1);
    f := vm.CowFault(1, 0, STORE_PAGE_FAULT);
    var n;
    r, n := vm.CopyOut(1, 0, [7], ECALL);
  }

  /** The kernel uses up all free pages. */
  method Exhaust(vm: AddressSpaces)
    requires vm.Valid()
    modifies vm`owner, vm.mem
    ensures vm.Valid() && vm.NoFreePage() && vm.View() == old(vm.View())
  {
    hide Parts, PhysicalMemory.Valid, PhysicalMemory.FreePages, ViewOf, Fill;
    var q := vm.TakePage();
    while q != NULL
      invariant vm.Valid() && vm.View() == old(vm.View()) && (q == NULL ==> vm.NoFreePage())
      decreases |vm.mem.FreePages()|, q
    {
      q := vm.TakePage();
    }
  }

  /** A process with one page. */
  method Grown() returns (vm: AddressSpaces)
    ensures fresh(vm) && fresh(vm.mem) && vm.Valid() && vm.roots.Keys == {1} && |vm.mem.FreePages()| >= 16
    ensures Dense(vm.maps, 1, 1) && Key(1, 0) in vm.View() && vm.View()[Key(1, 0)] == FreshPage(Perm(true, false))
  {
    hide Parts, PhysicalMemory.Valid, PhysicalMemory.FreePages, ViewOf, Fill, Kept, CountsKept, OnlyGrew,
         AddressSpaces.NoFreePage;
    vm := Boot(20);
    var ok := vm.UvmCreate(1);
    FreshIsFilled(Perm(true, false));
    ghost var page := FreshPage(Perm(true, false));
    var r, sz := vm.UvmAlloc(1, 0, PAGE_SIZE, UserPte(Perm(true, false)));
    assert Key(1, 0) in Range(1, 0, 1) && Filled(1, 0, 1, page)[Key(1, 0)] == page;
  }

  /** Two processes share a page that both may write. */
  method Forked() returns (vm: AddressSpaces)
    ensures fresh(vm) && fresh(vm.mem) && vm.Valid() && 1 in vm.roots
    ensures SharedEntry(vm.maps, 1, 2, 0) && vm.View()[Key(1, 0)] == FreshPage(Perm(true, false))
  {
    hide Parts, PhysicalMemory.Valid, PhysicalMemory.FreePages, ViewOf, Fill, Kept, CountsKept,
         AddressSpaces.NoFreePage,
         Paged, Dense;
    vm := Grown();
    var ok := vm.UvmCreate(2);
    var r := vm.UvmCopy(1, 2, PAGE_SIZE);
    assert SharedEntry(vm.maps, 1, 2, 0);
  }

  /** A page that may be written but has no PTE_W is copy-on-write. */
  lemma CowBy(vm: AddressSpaces, k: Key)
    requires vm.Valid() && k in vm.maps && !vm.maps[k].w && vm.View()[k].writable && vm.View()[k].user
    ensures CowUser(vm.S(), k)
  {}

  /** A shared page has a count above 1. */
  lemma SharedCount(s: State)
    requires Inv(s) && SharedEntry(s.maps, 1, 2, 0)
    ensures s.maps[Key(1, 0)].ppn in s.refs && s.refs[s.maps[Key(1, 0)].ppn] > 1
  {
    hide Parts;
    Basics(s);
    var q := s.maps[Key(1, 0)].ppn;
    Partition(s, q);
    assert {Key(1, 0), Key(2, 0)} <= Users(s.maps, q);
    if |Users(s.maps, q)| <= 1 {
      Single(Users(s.maps, q), Key(1, 0), Key(2, 0));
    }
  }

  lemma Single(a: set<Key>, k: Key, l: Key)
    requires k in a && l in a && k != l
    ensures |a| > 1
  {
    assert |a - {k}| >= 1 by { assert l in a - {k}; }
  }

  /** Nothing that would write to a starved page succeeds. */
  method WriteStarved(vm: AddressSpaces) returns (stored: bool, f: Fault, r: CopyResult, private: bool)
    requires vm.Valid() && 1 in vm.roots && CowUser(vm.S(), Key(1, 0)) && Starved(vm.S(), Key(1, 0))
    modifies vm`trees, vm`owner, vm`maps, vm.mem
    ensures vm.Valid() && vm.S() == old(vm.S()) && !stored && f.Crash? && r.Died? && !private
  {
    hide Parts, PhysicalMemory.Valid, PhysicalMemory.FreePages, ViewOf, Fill, Kept, PathAt, Paged;
    Basics(vm.S());
    var slot, pte := vm.Lookup(1, 0);
    f := vm.CowFault(1, 0, STORE_PAGE_FAULT);
    var n;
    r, n := vm.CopyOut(1, 0, [7], ECALL);
    private := vm.Update(1, 0, pte);
    stored := vm.StoreByte(1, 0, 7);
  }

  /** No page is left when one of them writes: the store, the fault and the copy all end in a copy to page 0. */
  method StarvedSplit() returns (vm: AddressSpaces, stored: bool, f: Fault, r: CopyResult, private: bool)
    ensures vm.Valid() && 1 in vm.roots && Key(1, 0) in vm.View()
    ensures vm.View()[Key(1, 0)] == FreshPage(Perm(true, false)) && Starved(vm.S(), Key(1, 0))
    ensures !stored && f.Crash? && r.Died? && !private
  {
    hide Parts, PhysicalMemory.Valid, PhysicalMemory.FreePages, ViewOf, Fill, Kept, PathAt, Paged;
    vm := Forked();
    Exhaust(vm);
    SharedCount(vm.S());
    CowBy(vm, Key(1, 0));
    stored, f, r, private := WriteStarved(vm);
  }
}
