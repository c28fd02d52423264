/** Whole runs: fork, grow, shrink, user stores, copyout and exit in any order, on the
    copy-on-write kernel, refine a machine in which fork copies every page. */
module CowRun {
  import opened Kalloc
  import opened PageTable
  import opened Cow
  import opened VmState
  import opened VmSteps
  import opened Vm

  datatype Op =
    | Create(pid: Pid)
    | Fork(parent: Pid, child: Pid)
    | Grow(pid: Pid, newsz: nat, perm: Perm)
    | Shrink(pid: Pid, newsz: nat)
    | Store(pid: Pid, va: nat, b: Byte)
    | CopyTo(pid: Pid, va: nat, bytes: seq<Byte>)
    | Exit(pid: Pid)

  /** PTE_W and PTE_X of new pages: growproc asks for the former, exec for what the segment needs. */
  datatype Perm = Perm(w: bool, x: bool)

  /** What the kernel answered: it went through, it failed cleanly, `n` bytes of a copy were written, or the kernel died
      when `n` bytes of a copy were written. */
  datatype Answer = Ok | Refuse | Partial(n: nat) | Dead(n: nat)

  /** The reference machine: one independent byte map per process. */
  datatype Eager = Eager(view: View, sizes: map<Pid, nat>)

  function PagesUp(sz: nat): nat {
    AddressSpaces.PagesUp(sz)
  }

  /** What a user page looks like right after uvmalloc. */
  ghost function FreshPage(perm: Perm): APage {
    APage(Fill(0).bytes, perm.w, perm.x, true)
  }

  /** Writing bytes at a virtual address of one process. */
  ghost function Put(v: View, pid: Pid, va: nat, bs: seq<Byte>): View {
    map k | k in v :: v[k].(bytes := PutPage(v[k].bytes, k, pid, va, bs))
  }

  ghost function PutPage(bytes: seq<Byte>, k: Key, pid: Pid, va: nat, bs: seq<Byte>): seq<Byte> {
    seq(|bytes|, o requires 0 <= o < |bytes| =>
      if k.pid == pid && va <= k.vpn * PAGE_SIZE + o < va + |bs| then bs[k.vpn * PAGE_SIZE + o - va] else bytes[o])
  }

  lemma PutIsWrote(v: View, v': View, pid: Pid, va: nat, bs: seq<Byte>)
    requires Wrote(v, v', pid, va, bs)
    ensures v' == Put(v, pid, va, bs)
  {
    forall k | k in v ensures v'[k] == Put(v, pid, va, bs)[k] {
      assert PageWrote(v[k], v'[k], k, pid, va, bs);
      assert v'[k].bytes == PutPage(v[k].bytes, k, pid, va, bs);
    }
  }

  predicate Legal(sizes: map<Pid, nat>, op: Op) {
    match op
    case Create(pid) => pid !in sizes
    case Fork(parent, child) => parent in sizes && child !in sizes
    case _ => op.pid in sizes
  }

  /** Free pages that always suffice for an operation: at most two tables per mapped page. */
  function PagesNeeded(sizes: map<Pid, nat>, op: Op): int {
    if !Legal(sizes, op) then 0
    else
      match op
      case Create(_) => 1
      case Fork(parent, _) => 1 + TablesFor(PagesUp(sizes[parent]))
      case Grow(pid, newsz, _) => 3 * (PagesUp(newsz) - PagesUp(sizes[pid]))
      case _ => 0
  }

  /** Growth from `sz` to `newsz` needs more than the free pages: one for each new page and for each table that is
      missing on the way to it. */
  ghost predicate TooLarge(s: State, free: nat, pid: Pid, sz: nat, newsz: nat) {
    && newsz >= sz
    && !Affords(free, if pid in s.trees then s.trees[pid].Keys else {}, PagesUp(sz), PagesUp(newsz))
  }

  /** One operation of the reference machine; `a` only tells whether memory sufficed. */
  ghost function EagerStep(e: Eager, op: Op, a: Answer): Eager
    requires EagerInv(e)
  {
    if !Legal(e.sizes, op) || a.Refuse? || a.Dead? then e
    else
      match op
      case Create(pid) => e.(sizes := e.sizes[pid := 0])
      case Fork(parent, child) =>
        e.(view := e.view + CopyOf(e.view, parent, child, PagesUp(e.sizes[parent])),
           sizes := e.sizes[child := e.sizes[parent]])
      case Grow(pid, newsz, perm) =>
        if newsz < e.sizes[pid] then e
        else e.(view := e.view + Filled(pid, PagesUp(e.sizes[pid]), PagesUp(newsz), FreshPage(perm)),
                sizes := e.sizes[pid := newsz])
      case Shrink(pid, newsz) =>
        if newsz >= e.sizes[pid] then e
        else e.(view := e.view - Range(pid, PagesUp(newsz), PagesUp(e.sizes[pid])),
                sizes := e.sizes[pid := newsz])
      case Store(pid, va, b) => e.(view := Put(e.view, pid, va, [b]))
      case CopyTo(pid, va, bytes) =>
        e.(view := Put(e.view, pid, va, if a.Partial? && a.n <= |bytes| then bytes[..a.n] else bytes))
      case Exit(pid) =>
        e.(view := e.view - Range(pid, 0, PagesUp(e.sizes[pid])), sizes := e.sizes - {pid})
  }

  /** Every process has exactly the pages its size says. */
  ghost predicate EagerInv(e: Eager) {
    EagerParts(e)
  }

  ghost predicate EagerParts(e: Eager) {
    && (forall k :: k in e.view ==> k.pid in e.sizes)
    && (forall pid :: pid in e.sizes ==> DenseView(e.view, pid, PagesUp(e.sizes[pid])))
  }

  ghost predicate DenseView(v: View, pid: Pid, n: nat) {
    && Range(pid, 0, n) <= v.Keys
    && forall k :: k in v && k.pid == pid ==> k.vpn < n
  }

  lemma EagerKeepsInv(e: Eager, op: Op, a: Answer)
    requires EagerInv(e)
    ensures EagerInv(EagerStep(e, op, a))
  {
    var e' := EagerStep(e, op, a);
    forall pid | pid in e'.sizes ensures DenseView(e'.view, pid, PagesUp(e'.sizes[pid])) {
      assert pid in e.sizes ==> DenseView(e.view, pid, PagesUp(e.sizes[pid]));
      if op.Fork? && pid == op.child {
        assert op.parent in e.sizes ==> DenseView(e.view, op.parent, PagesUp(e.sizes[op.parent]));
        assert forall i :: i in Range(op.child, 0, PagesUp(e'.sizes[pid])) ==>
                             Key(op.parent, i.vpn) in Range(op.parent, 0, PagesUp(e'.sizes[pid]));
      }
    }
  }

  /** The process whose memory an operation may change. */
  function Target(op: Op): Pid {
    if op.Fork? then op.child else op.pid
  }

  /** A run of the reference machine. */
  ghost function EagerRun(e: Eager, ops: seq<Op>, answers: seq<Answer>): (e': Eager)
    requires EagerInv(e) && |answers| == |ops|
    ensures EagerInv(e')
    decreases |ops|
  {
    if ops == [] then e
    else
      EagerKeepsInv(e, ops[0], answers[0]);
      EagerRun(EagerStep(e, ops[0], answers[0]), ops[1..], answers[1..])
  }

  lemma {:induction false} EagerRunSnoc(e: Eager, ops: seq<Op>, answers: seq<Answer>, op: Op, a: Answer)
    requires EagerInv(e) && |answers| == |ops|
    ensures EagerRun(e, ops + [op], answers + [a]) == EagerStep(EagerRun(e, ops, answers), op, a)
    decreases |ops|
  {
    if ops == [] {
      EagerKeepsInv(e, op, a);
      assert EagerRun(EagerStep(e, op, a), [], []) == EagerStep(e, op, a);
      assert (ops + [op])[1..] == [] && (answers + [a])[1..] == [];
    } else {
      EagerKeepsInv(e, ops[0], answers[0]);
      EagerRunSnoc(EagerStep(e, ops[0], answers[0]), ops[1..], answers[1..], op, a);
      assert (ops + [op])[1..] == ops[1..] + [op] && (answers + [a])[1..] == answers[1..] + [a];
    }
  }

  /** Whatever the other processes do, a process's memory is its own. */
  lemma {:induction false} Isolation(e: Eager, ops: seq<Op>, answers: seq<Answer>, k: Key)
    requires EagerInv(e) && |answers| == |ops|
    requires forall i :: 0 <= i < |ops| ==> Target(ops[i]) != k.pid
    ensures var e' := EagerRun(e, ops, answers);
            (k in e'.view <==> k in e.view) && (k in e.view ==> e'.view[k] == e.view[k])
    decreases |ops|
  {
    if ops != [] {
      var e1 := EagerStep(e, ops[0], answers[0]);
      EagerKeepsInv(e, ops[0], answers[0]);
      assert (k in e1.view <==> k in e.view) && (k in e.view ==> e1.view[k] == e.view[k]) by {
        assert Target(ops[0]) != k.pid;
        OtherUntouched(e, ops[0], answers[0], k);
      }
      Isolation(e1, ops[1..], answers[1..], k);
    }
  }

  lemma OtherUntouched(e: Eager, op: Op, a: Answer, k: Key)
    requires EagerInv(e) && Target(op) != k.pid
    ensures var e' := EagerStep(e, op, a);
            (k in e'.view <==> k in e.view) && (k in e.view ==> e'.view[k] == e.view[k])
  {
    if k in e.view && (op.Store? || op.CopyTo?) {
      var bs := if op.Store? then [op.b] else if a.Partial? && a.n <= |op.bytes| then op.bytes[..a.n] else op.bytes;
      assert PutPage(e.view[k].bytes, k, op.pid, op.va, bs) == e.view[k].bytes;
    }
  }

  /** PTE_R | PTE_U | xperm */
  function UserPte(perm: Perm): Pte {
    Pte(0, true, true, perm.w, perm.x, true, false)
  }

  lemma FreshIsFilled(perm: Perm)
    ensures Seen(UserPte(perm), Fill(0)) == FreshPage(perm)
  {}

  lemma GrowStep(e: Eager, pid: Pid, newsz: nat, perm: Perm, sz: nat, v: View)
    requires EagerInv(e) && pid in e.sizes && sz == (if newsz < e.sizes[pid] then e.sizes[pid] else newsz)
    requires v == e.view + Filled(pid, PagesUp(e.sizes[pid]), PagesUp(sz), FreshPage(perm))
    ensures Eager(v, e.sizes[pid := sz]) == EagerStep(e, Grow(pid, newsz, perm), Ok)
            && EagerInv(Eager(v, e.sizes[pid := sz]))
  {
    hide EagerParts, Filled, Fill, AddressSpaces.PagesUp;
    assert e.sizes[pid := e.sizes[pid]] == e.sizes;
    NoGrowth(e.view, pid, e.sizes[pid], FreshPage(perm));
    EagerKeepsInv(e, Grow(pid, newsz, perm), Ok);
  }

  lemma RefuseStep(e: Eager, op: Op)
    requires EagerInv(e)
    ensures EagerStep(e, op, Refuse) == e
  {}

  lemma DeadGrow(e: Eager, pid: Pid, newsz: nat, perm: Perm, v: View)
    requires OnlyGrew(e.view, v, pid)
    ensures LastView(e, Grow(pid, newsz, perm), 0, v)
  {}

  lemma NoGrowth(v: View, pid: Pid, sz: nat, page: APage)
    ensures v + Filled(pid, PagesUp(sz), PagesUp(sz), page) == v
  {}

  /** The counts depend on the user entries and on who owns the other pages, and on nothing else. */
  lemma SameCounts(s: State, s': State)
    requires Inv(s) && Inv(s') && s'.owner.Keys == s.owner.Keys && SamePages(s.maps, s'.maps)
    requires forall q :: q in s.owner ==>
               (s'.owner[q].Kernel? <==> s.owner[q].Kernel?) && (s'.owner[q].Node? <==> s.owner[q].Node?)
    ensures forall q :: q in s.owner ==> q in s'.owner && q in s.refs && q in s'.refs && s'.refs[q] == s.refs[q]
  {
    hide Parts, Users;
    assert forall q :: Users(s'.maps, q) == Users(s.maps, q) by { SameUsers(s.maps, s'.maps); }
    Basics(s);
    Basics(s');
    forall q | q in s.owner ensures q in s'.owner && q in s.refs && q in s'.refs && s'.refs[q] == s.refs[q] {
      Partition(s, q);
      Partition(s', q);
    }
  }

  /** A process was created from `s0`, what followed failed, and the process was freed again. */
  ghost predicate CameAndWent(s0: State, s1: State, s2: State, s3: State, pid: Pid) {
    && s1.owner.Keys == s0.owner.Keys
    && (forall q :: q in s0.owner ==>
          s1.owner[q] == s0.owner[q] || (s0.owner[q].Free? && s1.owner[q].Node? && s1.owner[q].pid == pid))
    && Kept(s1, s2, pid) && Released(s2, s3, pid)
  }

  /** Then every count is what it was before. */
  lemma Undone(s0: State, s1: State, s2: State, s3: State, pid: Pid)
    requires Inv(s0) && Inv(s3) && pid !in s0.roots && CameAndWent(s0, s1, s2, s3, pid) && SamePages(s0.maps, s3.maps)
    ensures forall q :: q in s0.owner ==> q in s3.owner && q in s0.refs && q in s3.refs && s3.refs[q] == s0.refs[q]
  {
    hide Parts, Users;
    forall q | q in s0.owner
      ensures (s3.owner[q].Kernel? <==> s0.owner[q].Kernel?) && (s3.owner[q].Node? <==> s0.owner[q].Node?)
    {
      if s0.owner[q].Node? {
        NodesOf(s0, q);
      }
    }
    SameCounts(s0, s3);
  }

  lemma SameUsers(m: Maps, m': Maps)
    requires SamePages(m, m')
    ensures forall q :: Users(m', q) == Users(m, q)
  {}

  lemma NodesOf(s: State, q: Ppn)
    requires Inv(s) && q in s.owner && s.owner[q].Node?
    ensures s.owner[q].pid in s.roots
  {}

  /** The memory side of fork: a table for the child, uvmcopy, and on failure the table freed again. */
  method ForkMemory(vm: AddressSpaces, parent: Pid, child: Pid, sz: nat) returns (ok: bool)
    requires vm.Valid() && parent in vm.roots && child !in vm.roots && Dense(vm.maps, parent, PagesUp(sz))
    modifies vm, vm.mem
    ensures vm.Valid() && vm.mem.managed == old(vm.mem.managed)
    ensures Range(parent, 0, PagesUp(sz)) <= old(vm.View()).Keys
    ensures ok ==> vm.roots.Keys == old(vm.roots).Keys + {child}
    ensures ok ==> vm.View() == old(vm.View()) + CopyOf(old(vm.View()), parent, child, PagesUp(sz))
    ensures !ok ==> vm.roots.Keys == old(vm.roots).Keys && vm.View() == old(vm.View())
    ensures !ok ==> forall q :: q in old(vm.mem.managed) ==>
              q in vm.mem.refs && q in old(vm.mem.refs) && vm.mem.refs[q] == old(vm.mem.refs)[q]
    ensures ok <==> |old(vm.mem.FreePages())| >= 1 + TablesFor(PagesUp(sz))
    ensures NoneHeld(old(vm.owner)) ==> NoneHeld(vm.owner)
  {
    hide PhysicalMemory.FreePages, PhysicalMemory.Valid, Parts, ViewOf, Kept, CopyOf, CountsKept, Released, FreedCounts,
         CameAndWent, Paged, Range, Shares, Suffices, TablesFor;
    Basics(vm.S());
    InRange(vm.S(), parent, PagesUp(sz));
    DenseRange(vm.maps, parent, PagesUp(sz), PagesUp(sz));
    ok := vm.UvmCreate(child);
    if !ok {
      return;
    }
    ghost var s1 := vm.S();
    SufficesFresh(|vm.mem.FreePages()|, PagesUp(sz));
    var r := vm.UvmCopy(parent, child, sz);
    if NoneHeld(s1.owner) {
      KeptNone(s1, vm.S(), child);
    }
    if r.Done? {
      return;
    }
    ghost var s2 := vm.S();
    DenseSame(s1.maps, vm.maps, child, 0);
    ok := vm.UvmFree(child, 0);
    EmptyRange(s2.maps, child, 0);
    EmptyRange(old(vm.View()), child, 0);
    if NoneHeld(s2.owner) {
      ReleasedNone(s2, vm.S(), child);
    }
    CameBy(old(vm.S()), s1, s2, vm.S(), child);
    Undone(old(vm.S()), s1, s2, vm.S(), child);
    ok := false;
  }

  lemma CameBy(s0: State, s1: State, s2: State, s3: State, pid: Pid)
    requires s1.owner.Keys == s0.owner.Keys && Kept(s1, s2, pid) && Released(s2, s3, pid)
    requires forall q :: q in s1.owner ==>
               s1.owner[q] == s0.owner[q] || (s0.owner[q].Free? && s1.owner[q].Node? && s1.owner[q].pid == pid)
    ensures CameAndWent(s0, s1, s2, s3, pid)
  {}

  /** The memory side of exec: a table, uvmalloc, and on failure the table freed again, which gives back every page. */
  method ExecMemory(vm: AddressSpaces, pid: Pid, sz: nat, perm: Perm) returns (r: Outcome)
    requires vm.Valid() && pid !in vm.roots
    modifies vm, vm.mem
    ensures vm.Valid() && vm.mem.managed == old(vm.mem.managed)
    ensures r.Done? ==> vm.roots.Keys == old(vm.roots).Keys + {pid}
    ensures r.Done? ==> vm.View() == old(vm.View()) + Filled(pid, 0, PagesUp(sz), FreshPage(perm))
    ensures r.Panicked? ==> PagesUp(sz) > MAX_VPN
    ensures r.OutOfMemory? <==> var free := |old(vm.mem.FreePages())|;
                                free == 0 || !Affords(free - 1, {Top}, 0, PagesUp(sz))
    ensures r.OutOfMemory? ==> vm.roots.Keys == old(vm.roots).Keys && vm.View() == old(vm.View())
    ensures r.OutOfMemory? ==> forall q :: q in old(vm.mem.managed) ==>
              q in vm.mem.refs && q in old(vm.mem.refs) && vm.mem.refs[q] == old(vm.mem.refs)[q]
  {
    hide PhysicalMemory.FreePages, PhysicalMemory.Valid, Parts, ViewOf, Kept, CountsKept, Released, FreedCounts,
         CameAndWent, Paged, Range, Filled, Fill, OnlyGrew, Affords, AddressSpaces.NoFreePage;
    Basics(vm.S());
    FreshIsFilled(perm);
    var ok := vm.UvmCreate(pid);
    if !ok {
      return OutOfMemory;
    }
    ghost var s1 := vm.S();
    var size;
    r, size := vm.UvmAlloc(pid, 0, sz, UserPte(perm));
    if r.OutOfMemory? {
      ghost var s2 := vm.S();
      ok := vm.UvmFree(pid, 0);
      EmptyRange(s2.maps, pid, 0);
      EmptyRange(old(vm.View()), pid, 0);
      CameBy(old(vm.S()), s1, s2, vm.S(), pid);
      Undone(old(vm.S()), s1, s2, vm.S(), pid);
    }
  }

  /** A process that could not grow and then exits leaves the counts that it would have left without trying. */
  method FailedGrowth(vm: AddressSpaces, pid: Pid, oldsz: nat, newsz: nat, perm: Perm) returns (r: Outcome)
    requires vm.Valid() && pid in vm.roots && Dense(vm.maps, pid, PagesUp(oldsz))
    modifies vm, vm.mem
    ensures vm.Valid() && vm.mem.managed == old(vm.mem.managed)
    ensures r.OutOfMemory? ==> vm.roots == old(vm.roots) - {pid} && FreedCounts(old(vm.S()), vm.S(), pid)
    ensures r.OutOfMemory? ==> vm.View() == old(vm.View()) - Range(pid, 0, PagesUp(oldsz))
  {
    hide PhysicalMemory.FreePages, PhysicalMemory.Valid, Parts, ViewOf, Kept, CountsKept, Released, CountWithout,
         Paged, Range, Filled, Fill, OnlyGrew;
    var size;
    r, size := vm.UvmAlloc(pid, oldsz, newsz, UserPte(perm));
    if r.OutOfMemory? {
      AllocUndone(old(vm.S()), vm.S(), pid);
      var _ := vm.UvmFree(pid, oldsz);
    }
  }

  /** Operations during which the kernel can panic. */
  predicate MayKill(op: Op) {
    op.Store? || op.CopyTo? || (op.Grow? && PagesUp(op.newsz) > MAX_VPN)
  }

  /** A user store goes through: the page is writable, or copy-on-write and not starved. */
  ghost predicate Storable(s: State, k: Key) {
    k in s.maps && s.maps[k].u && (s.maps[k].w || (s.maps[k].cow && !Starved(s, k)))
  }

  /** A copy wrote `a.n` bytes, and stopped there because of the fate of the next page. */
  ghost predicate CopyStopped(a: Answer, s: State, pid: Pid, va: nat, len: nat) {
    && (a.Partial? || a.Dead?) && a.n <= len && (a.n == len ==> a.Partial?)
    && (a.n < len ==>
          Fate(s, pid, va + a.n, ECALL) == (if a.Dead? then Died else Failed)
          && (a.n == 0 || (va + a.n) % PAGE_SIZE == 0))
  }

  const ECALL := 8     // scause of a system call

  /** What the processes would still see when operation `op` has killed the kernel. */
  ghost predicate LastView(e: Eager, op: Op, n: nat, v: View) {
    match op
    case Store(_, _, _) => v == e.view
    case CopyTo(pid, va, bytes) => n < |bytes| && v == Put(e.view, pid, va, bytes[..n])
    case Grow(pid, _, _) => OnlyGrew(e.view, v, pid)
    case _ => false
  }

  /** No page is in the hands of the kernel itself. */
  ghost predicate NoneHeld(owner: map<Ppn, Owner>) {
    forall q :: q in owner ==> !owner[q].Kernel?
  }

  lemma KeptNone(s: State, s': State, pid: Pid)
    requires NoneHeld(s.owner) && Kept(s, s', pid)
    ensures NoneHeld(s'.owner)
  {}

  lemma ReleasedNone(s: State, s': State, pid: Pid)
    requires NoneHeld(s.owner) && Released(s, s', pid)
    ensures NoneHeld(s'.owner)
  {}

  /** Without processes every page is free. */
  lemma AllFree(s: State)
    requires Inv(s) && NoneHeld(s.owner) && s.roots == map[]
    ensures forall q :: q in s.managed ==> q in s.refs && s.refs[q] == 0
  {
    hide Parts;
    Basics(s);
    assert forall k :: k !in s.maps;
    forall q | q in s.managed ensures q in s.refs && s.refs[q] == 0 {
      Partition(s, q);
      assert Users(s.maps, q) == {};
      if s.owner[q].Node? {
        NodesOf(s, q);
      }
    }
  }

  /** The machine that the kernel implements. */
  class Machine {
    const vm: AddressSpaces
    var sizes: map<Pid, nat>

    ghost predicate Valid()
      reads this, vm, vm.mem
    {
      vm.Valid() && EagerInv(E()) && sizes.Keys == vm.roots.Keys && NoneHeld(vm.owner)
    }

    /** What the processes see. */
    ghost function E(): Eager
      reads this, vm, vm.mem
      requires vm.Valid()
    {
      Eager(vm.View(), sizes)
    }

    constructor (vm: AddressSpaces)
      requires vm.Valid() && vm.roots == map[] && NoneHeld(vm.owner)
      ensures this.vm == vm && Valid() && sizes == map[]
    {
      this.vm := vm;
      sizes := map[];
      new;
      Basics(vm.S());
    }

    /** The dense part of the invariant, as the functions of kernel/vm.c want it. */
    lemma DenseOf(pid: Pid)
      requires Valid() && pid in sizes
      ensures pid in vm.roots && Dense(vm.maps, pid, PagesUp(sizes[pid]))
    {
      hide AddressSpaces.Valid;
      assert DenseView(vm.View(), pid, PagesUp(sizes[pid]));
      forall vpn: nat ensures Key(pid, vpn) in vm.maps <==> vpn < PagesUp(sizes[pid]) {
        assert vpn < PagesUp(sizes[pid]) ==> Key(pid, vpn) in Range(pid, 0, PagesUp(sizes[pid]));
      }
    }

    method DoFork(parent: Pid, child: Pid) returns (a: Answer)
      requires Valid() && parent in sizes && child !in sizes
      modifies this, vm, vm.mem
      ensures Valid() && E() == EagerStep(old(E()), Fork(parent, child), a)
      ensures a.Ok? || a.Refuse?
      ensures a.Refuse? ==> forall q :: q in old(vm.mem.managed) ==>
                q in vm.mem.refs && q in old(vm.mem.refs) && vm.mem.refs[q] == old(vm.mem.refs)[q]
      ensures a.Refuse? <==> |old(vm.mem.FreePages())| < PagesNeeded(old(sizes), Fork(parent, child))
    {
      hide PhysicalMemory.FreePages, AddressSpaces.Valid, EagerParts, Paged, CopyOf, Range, NoneHeld, TablesFor;
      DenseOf(parent);
      var sz := sizes[parent];
      var ok := ForkMemory(vm, parent, child, sz);
      EagerKeepsInv(old(E()), Fork(parent, child), if ok then Ok else Refuse);
      if ok {
        sizes := sizes[child := sz];
      }
      a := if ok then Ok else Refuse;
    }

    method DoGrow(pid: Pid, newsz: nat, perm: Perm) returns (a: Answer)
      requires Valid() && pid in sizes
      modifies this, vm, vm.mem
      ensures a.Ok? || a.Refuse? || a == Dead(0)
      ensures !a.Dead? ==> Valid() && E() == EagerStep(old(E()), Grow(pid, newsz, perm), a)
      ensures a.Dead? <==> !a.Refuse? && newsz >= old(sizes)[pid] && PagesUp(newsz) > MAX_VPN
      ensures a.Dead? ==> vm.Valid() && LastView(old(E()), Grow(pid, newsz, perm), 0, vm.View())
      ensures a.Refuse? ==> |old(vm.mem.FreePages())| < PagesNeeded(old(sizes), Grow(pid, newsz, perm))
      ensures a.Refuse? <==> TooLarge(old(vm.S()), |old(vm.mem.FreePages())|, pid, old(sizes)[pid], newsz)
    {
      hide PhysicalMemory.FreePages, AddressSpaces.Valid, EagerParts, Paged, Range, Filled, Kept, CountsKept, Fill,
           NoneHeld,
           OnlyGrew, AddressSpaces.PagesUp, Dense, AddressSpaces.NoFreePage, EagerStep, LastView, Affords;
      DenseOf(pid);
      TreeOf(pid);
      FreshIsFilled(perm);
      ghost var op := Grow(pid, newsz, perm);
      var r, sz := vm.UvmAlloc(pid, sizes[pid], newsz, UserPte(perm));
      KeptNone(old(vm.S()), vm.S(), pid);
      match r
      case Done =>
        GrowStep(old(E()), pid, newsz, perm, sz, vm.View());
        sizes := sizes[pid := sz];
        BelowMax(pid, PagesUp(sz));
        a := Ok;
      case OutOfMemory =>
        RefuseStep(old(E()), op);
        a := Refuse;
      case Panicked =>
        DeadGrow(old(E()), pid, newsz, perm, vm.View());
        a := Dead(0);
    }

    lemma TreeOf(pid: Pid)
      requires Valid() && pid in sizes
      ensures pid in vm.trees
    {
      hide EagerParts, NoneHeld;
      HasTree(vm.S(), pid);
    }

    /** Without processes nothing is in use. */
    lemma Conserved()
      requires Valid() && sizes == map[]
      ensures forall q :: q in vm.mem.managed ==> q in vm.mem.refs && vm.mem.refs[q] == 0
    {
      hide EagerParts, NoneHeld;
      assert vm.roots == map[];
      AllFree(vm.S());
    }

    lemma BelowMax(pid: Pid, n: nat)
      requires vm.Valid() && Dense(vm.maps, pid, n)
      ensures n <= MAX_VPN
    {
      Basics(vm.S());
      var top := Key(pid, MAX_VPN);
      assert top !in vm.maps;
    }

    method DoShrink(pid: Pid, newsz: nat) returns (a: Answer)
      requires Valid() && pid in sizes
      modifies this, vm, vm.mem
      ensures Valid() && a.Ok? && E() == EagerStep(old(E()), Shrink(pid, newsz), a)
    {
      hide AddressSpaces.Valid, EagerParts, Paged, Range, Kept, NoneHeld;
      DenseOf(pid);
      var sz := vm.UvmDealloc(pid, sizes[pid], newsz);
      KeptNone(old(vm.S()), vm.S(), pid);
      assert sizes[pid := sizes[pid]] == sizes;
      sizes := sizes[pid := sz];
      EmptyRange(old(vm.View()), pid, PagesUp(old(sizes[pid])));
      EagerKeepsInv(old(E()), Shrink(pid, newsz), Ok);
      a := Ok;
    }

    method DoStore(pid: Pid, va: nat, b: Byte) returns (a: Answer)
      requires Valid() && pid in sizes
      modifies this, vm, vm.mem
      ensures Valid() && E() == EagerStep(old(E()), Store(pid, va, b), a)
      ensures if Storable(old(vm.S()), Key(pid, va / PAGE_SIZE)) then a == Ok else a == Dead(0)
    {
      hide AddressSpaces.Valid, EagerParts, Paged, Wrote, Kept, Put, Range, AddressSpaces.NoFreePage, NoneHeld,
           Storable;
      StorableBy(Key(pid, va / PAGE_SIZE));
      var ok := vm.StoreByte(pid, va, b);
      KeptNone(old(vm.S()), vm.S(), pid);
      if ok {
        PutIsWrote(old(vm.View()), vm.View(), pid, va, [b]);
        EagerKeepsInv(old(E()), Store(pid, va, b), Ok);
      }
      a := if ok then Ok else Dead(0);
    }

    lemma StorableBy(k: Key)
      requires vm.Valid()
      ensures k in vm.maps ==> vm.maps[k].ppn in vm.mem.refs
      ensures Storable(vm.S(), k) <==>
              && k in vm.View() && vm.View()[k].user && vm.View()[k].writable
              && (vm.maps[k].w || vm.mem.refs[vm.maps[k].ppn] == 1 || !vm.NoFreePage())
    {
      Basics(vm.S());
    }

    method DoCopyTo(pid: Pid, va: nat, bytes: seq<Byte>) returns (a: Answer)
      requires Valid() && pid in sizes
      modifies this, vm, vm.mem
      ensures !a.Dead? ==> Valid() && E() == EagerStep(old(E()), CopyTo(pid, va, bytes), a)
      ensures vm.Valid() && CopyStopped(a, vm.S(), pid, va, |bytes|) && !a.Refuse?
      ensures a.Dead? ==> LastView(old(E()), CopyTo(pid, va, bytes), a.n, vm.View())
    {
      hide PhysicalMemory.FreePages, AddressSpaces.Valid, EagerParts, Paged, Wrote, Kept, Put, Range, NoneHeld, Fate;
      var r, n := vm.CopyOut(pid, va, bytes, ECALL);
      KeptNone(old(vm.S()), vm.S(), pid);
      PutIsWrote(old(vm.View()), vm.View(), pid, va, bytes[..n]);
      EagerKeepsInv(old(E()), CopyTo(pid, va, bytes), Partial(n));
      a := if r.Died? then Dead(n) else Partial(n);
    }

    method DoExit(pid: Pid) returns (a: Answer)
      requires Valid() && pid in sizes
      modifies this, vm, vm.mem
      ensures Valid() && a.Ok? && E() == EagerStep(old(E()), Exit(pid), a)
    {
      hide AddressSpaces.Valid, EagerParts, Paged, Range, Released, FreedCounts, NoneHeld;
      DenseOf(pid);
      var ok := vm.UvmFree(pid, sizes[pid]);
      ReleasedNone(old(vm.S()), vm.S(), pid);
      sizes := sizes - {pid};
      EagerKeepsInv(old(E()), Exit(pid), Ok);
      a := Ok;
    }

    method DoCreate(pid: Pid) returns (a: Answer)
      requires Valid() && pid !in sizes
      modifies this, vm, vm.mem
      ensures Valid() && E() == EagerStep(old(E()), Create(pid), a)
      ensures a == if old(vm.NoFreePage()) then Refuse else Ok
      ensures a.Refuse? <==> |old(vm.mem.FreePages())| < PagesNeeded(old(sizes), Create(pid))
    {
      hide PhysicalMemory.FreePages, AddressSpaces.Valid, EagerParts, Paged, Range;
      var ok := vm.UvmCreate(pid);
      EagerKeepsInv(old(E()), Create(pid), if ok then Ok else Refuse);
      if ok {
        sizes := sizes[pid := 0];
      }
      a := if ok then Ok else Refuse;
    }

    /** One operation. It is refused only when it makes no sense or memory is short. The kernel dies exactly on a store
        that is not possible, on a copy that comes to a page whose fate is death, or on a growth beyond MAXVA for which
        memory suffices. */
    method Do(op: Op) returns (a: Answer)
      requires Valid()
      modifies this, vm, vm.mem
      ensures vm.Valid()
      ensures if a.Dead? then LastView(old(E()), op, a.n, vm.View()) else Valid() && E() == EagerStep(old(E()), op, a)
      ensures a.Refuse? ==> !Legal(old(sizes), op) || |old(vm.mem.FreePages())| < PagesNeeded(old(sizes), op)
      ensures !Legal(old(sizes), op) ==> a.Refuse?
      ensures (op.Fork? || op.Create?) && Legal(old(sizes), op) ==>
                (a.Refuse? <==> |old(vm.mem.FreePages())| < PagesNeeded(old(sizes), op))
      ensures op.Grow? && Legal(old(sizes), op) ==>
                (a.Refuse? <==> TooLarge(old(vm.S()), |old(vm.mem.FreePages())|, op.pid, old(sizes)[op.pid], op.newsz))
      ensures a.Dead? ==> MayKill(op)
      ensures op.Store? && Legal(old(sizes), op) ==>
                (a.Dead? <==> !Storable(old(vm.S()), Key(op.pid, op.va / PAGE_SIZE)))
      ensures op.CopyTo? && Legal(old(sizes), op) ==> CopyStopped(a, vm.S(), op.pid, op.va, |op.bytes|)
      ensures op.Grow? && Legal(old(sizes), op) ==>
                (a.Dead? <==> !a.Refuse? && op.newsz >= old(sizes)[op.pid] && PagesUp(op.newsz) > MAX_VPN)
    {
      hide PhysicalMemory.FreePages, AddressSpaces.Valid, EagerParts, AddressSpaces.NoFreePage, NoneHeld, Storable,
           CopyStopped, OnlyGrew, Put, TooLarge, TablesFor;
      if !Legal(sizes, op) {
        return Refuse;
      }
      match op
      case Create(pid) => a := DoCreate(pid);
      case Fork(parent, child) => a := DoFork(parent, child);
      case Grow(pid, newsz, perm) => a := DoGrow(pid, newsz, perm);
      case Shrink(pid, newsz) => a := DoShrink(pid, newsz);
      case Store(pid, va, b) => a := DoStore(pid, va, b);
      case CopyTo(pid, va, bytes) => a := DoCopyTo(pid, va, bytes);
      case Exit(pid) => a := DoExit(pid);
    }

    /** Any run of the copy-on-write kernel is a run of the reference machine, up to and including its death; no fork,
        shrink or exit is ever what kills it. An operation is refused only for lack of pages, of which there were
        `free[i]` before operation `i`, and a legal fork or create exactly then. Pages are conserved: when the last
        process is gone every page is free again. */
    method Execute(ops: seq<Op>) returns (answers: seq<Answer>, dead: bool, ghost free: seq<nat>)
      requires Valid()
      modifies this, vm, vm.mem
      ensures vm.Valid() && |answers| <= |ops| && (dead <==> |answers| < |ops|)
      ensures !dead ==> Valid() && E() == EagerRun(old(E()), ops, answers)
      ensures dead ==> MayKill(ops[|answers|])
      ensures dead ==> exists n: nat ::
                         LastView(EagerRun(old(E()), ops[..|answers|], answers), ops[|answers|], n, vm.View())
      ensures |free| == |answers| + 1 && free[0] == |old(vm.mem.FreePages())|
      ensures !dead ==> free[|ops|] == |vm.mem.FreePages()|
      ensures forall i :: 0 <= i < |answers| ==>
                            RefusedFor(EagerRun(old(E()), ops[..i], answers[..i]).sizes, ops[i], answers[i], free[i])
      ensures !dead && sizes == map[] ==> forall q :: q in vm.mem.managed ==> q in vm.mem.refs && vm.mem.refs[q] == 0
    {
      hide AddressSpaces.Valid, EagerParts, EagerStep, NoneHeld, LastView, PhysicalMemory.FreePages, TooLarge,
           TablesFor;
      answers, free := [], [|vm.mem.FreePages()|];
      ghost var e := E();
      while |answers| < |ops|
        invariant |answers| <= |ops| && Valid()
        invariant EagerInv(e) && E() == EagerRun(e, ops[..|answers|], answers)
        invariant |free| == |answers| + 1 && free[0] == |old(vm.mem.FreePages())|
        invariant free[|answers|] == |vm.mem.FreePages()|
        invariant forall i :: 0 <= i < |answers| ==>
                                RefusedFor(EagerRun(e, ops[..i], answers[..i]).sizes, ops[i], answers[i], free[i])
        decreases |ops| - |answers|
      {
        var i := |answers|;
        ghost var before := answers;
        var a := Do(ops[i]);
        if a.Dead? {
          return answers, true, free;
        }
        EagerRunSnoc(e, ops[..i], answers, ops[i], a);
        assert ops[..i] + [ops[i]] == ops[..i + 1];
        answers, free := answers + [a], free + [|vm.mem.FreePages()|];
        assert answers[..i] == before;
        assert forall j :: 0 <= j < i ==> answers[..j] == before[..j] && answers[j] == before[j];
      }
      assert ops[..|answers|] == ops;
      dead := false;
      if sizes == map[] {
        Conserved();
      }
    }

    /** A process that no operation of a run is about sees the same memory before and after, whoever wrote, forked from
        it or died, and even if the kernel did. */
    method ExecuteApart(ops: seq<Op>, pid: Pid) returns (answers: seq<Answer>, dead: bool)
      requires Valid() && forall i :: 0 <= i < |ops| ==> Target(ops[i]) != pid
      modifies this, vm, vm.mem
      ensures vm.Valid()
      ensures forall k: Key :: k.pid == pid ==> SameAt(old(vm.View()), vm.View(), k)
    {
      hide AddressSpaces.Valid, EagerParts, EagerStep, NoneHeld, LastView;
      ghost var e := E();
      ghost var free;
      answers, dead, free := Execute(ops);
      ghost var n := |answers|;
      forall k: Key | k.pid == pid ensures SameAt(e.view, vm.View(), k) {
        Isolation(e, ops[..n], answers, k);
        if dead {
          var m: nat :| LastView(EagerRun(e, ops[..n], answers), ops[n], m, vm.View());
          LastApart(EagerRun(e, ops[..n], answers), ops[n], m, vm.View(), k);
        } else {
          assert ops[..n] == ops;
        }
      }
    }
  }

  /** Page `k` looks the same, if it is there at all. */
  ghost predicate SameAt(v: View, v': View, k: Key) {
    (k in v' <==> k in v) && (k in v ==> v'[k] == v[k])
  }

  predicate RefusedFor(sizes: map<Pid, nat>, op: Op, a: Answer, free: nat) {
    && (a.Refuse? ==> !Legal(sizes, op) || free < PagesNeeded(sizes, op))
    && (op.Fork? || op.Create? ==> (a.Refuse? <==> !Legal(sizes, op) || free < PagesNeeded(sizes, op)))
  }

  lemma LastApart(e: Eager, op: Op, n: nat, v: View, k: Key)
    requires LastView(e, op, n, v) && Target(op) != k.pid
    ensures SameAt(e.view, v, k)
  {
    if op.CopyTo? && k in e.view {
      assert PutPage(e.view[k].bytes, k, op.pid, op.va, op.bytes[..n]) == e.view[k].bytes;
    }
  }
}
