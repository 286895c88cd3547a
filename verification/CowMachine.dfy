/** The kernel's mutable state for user memory, and the operations on it. */
module CowMachine {
  import opened Common
  import opened Cow

  /** One page-table operation as the user sees it. */
  datatype Event =
    | Forked(parent: nat, child: nat)
    | Stored(pid: nat, va: nat, value: int)
    | Loaded(pid: nat, va: nat, value: int)
    | Resized(pid: nat, size: nat)
    | Exited(pid: nat)

  datatype Outcome = Done | Killed | Failed | Panic

  /** PGROUNDUP(sz) / PGSIZE */
  function Pages(sz: nat): nat {
    (sz + PGSIZE - 1) / PGSIZE
  }

  function Range(pid: nat, a: nat, b: nat): (r: set<Key>)
    ensures forall k :: k in r <==> k.pid == pid && a <= k.vpn < b
  {
    if a >= b then {} else Range(pid, a, b - 1) + {Key(pid, b - 1)}
  }

  function PageOf(pid: nat, va: nat): Key {
    Key(pid, va / PGSIZE)
  }

  function PutByte(view: Cow.View, k: Key, off: nat, value: int): Cow.View
    requires k in view && off < |view[k]|
  {
    view[k := view[k][off := value]]
  }

  /** A page is mapped exactly if its first byte is below the size of its process. */
  ghost predicate InRange(pt: Table, procs: map<nat, nat>, k: Key) {
    k in pt <==> k.pid in procs && k.vpn * PGSIZE < procs[k.pid]
  }

  /** A size needs the pages that have a byte below it. */
  lemma PagesExact(sz: nat, vpn: nat)
    ensures vpn < Pages(sz) <==> vpn * PGSIZE < sz
  {
  }

  function Splice(page: Page, off: nat, data: seq<int>): (r: Page)
    requires off + |data| <= |page|
    ensures |r| == |page|
    ensures forall i | 0 <= i < |page| :: r[i] == if off <= i < off + |data| then data[i - off] else page[i]
  {
    page[..off] + data + page[off + |data|..]
  }

  ghost predicate Owned(pt: Table, pids: set<nat>) {
    forall l | l in pt :: l.pid in pids
  }

  class Machine {
    var mem: Memory
    var freelist: seq<nat>
    var refcounts: map<nat, nat>
    var freePages: nat
    var pt: Table
    /** The size in bytes of each live process. */
    var procs: map<nat, nat>
    /** The pages the kernel holds for itself. */
    var kernel: set<nat>

    ghost function State(): Vm
      reads this
    {
      Vm(mem, freelist, refcounts, pt, kernel)
    }

    ghost function Now(): Snap
      reads this
    {
      Snap(State(), procs)
    }

    /** What also holds between two pages of an operation. */
    ghost predicate Core()
      reads this
    {
      && Good(State())
      && freePages == |freelist|
      && |procs| <= NPROC
      && Owned(pt, procs.Keys)
    }

    ghost predicate Valid()
      reads this
    {
      Core() && Consistent(pt, procs)
    }

    ghost function View(): Cow.View
      reads this
      requires Valid()
    {
      ViewOf(State())
    }

    /** kinit, freeing physical pages lo .. hi; then the first process, still without memory. */
    constructor (lo: nat, hi: nat, init: nat)
      requires lo <= hi
      ensures Valid() && Seen() == Eager(map[], map[init := 0])
      ensures forall p: nat :: p in mem <==> lo <= p < hi
      ensures |freelist| == hi - lo && pt == map[] && kernel == {}
    {
      mem, freelist, refcounts, freePages := map[], [], map[], 0;
      pt, procs, kernel := map[], map[init := 0], {};
      new;
      FreeRange(lo, hi);
      forall q: nat ensures GoodPage(State(), q) {
      }
    }

    /** freerange, on an empty free list. */
    method FreeRange(lo: nat, hi: nat)
      requires lo <= hi && mem == map[] && freelist == [] && refcounts == map[] && freePages == 0
      modifies this`mem, this`freelist, this`refcounts, this`freePages
      ensures freePages == |freelist| && refcounts.Keys == mem.Keys && Distinct(freelist)
      ensures forall q :: q in mem <==> lo <= q < hi
      ensures forall q :: q in freelist <==> lo <= q < hi
      ensures forall q | q in mem :: |mem[q]| == PGSIZE
      ensures |freelist| == hi - lo
    {
      var p := lo;
      while p < hi
        invariant lo <= p <= hi && freePages == |freelist| == p - lo && refcounts.Keys == mem.Keys && Distinct(freelist)
        invariant forall q :: q in mem <==> lo <= q < p
        invariant forall q :: q in freelist <==> lo <= q < p
        invariant forall q | q in mem :: |mem[q]| == PGSIZE
      {
        refcounts := refcounts[p := 0];
        assert p !in freelist;
        Kfree(p);
        p := p + 1;
      }
    }

    /** kalloc panics instead of returning a null page: FREE_PAGES is the length of the list. */
    method Kalloc() returns (r: Outcome, p: nat)
      requires freePages == |freelist|
      modifies this`mem, this`freelist, this`refcounts, this`freePages
      ensures r == if old(freelist) == [] then Panic else Done
      ensures r == Panic ==> State() == old(State())
      ensures r == Done ==> p == old(freelist)[0] && State() == Allocated(old(State()))
      ensures freePages == |freelist|
    {
      if freePages == 0 {
        return Panic, 0;
      }
      p := freelist[0];
      freelist := freelist[1..];
      mem := mem[p := Fill(5)];
      refcounts := refcounts[p := 1];
      freePages := freePages - 1;
      r := Done;
    }

    method Kfree(p: nat)
      requires freePages == |freelist|
      modifies this`mem, this`freelist, this`freePages
      ensures State() == Freed(old(State()), p) && freePages == |freelist|
    {
      mem := mem[p := Fill(1)];
      freelist := [p] + freelist;
      freePages := freePages + 1;
    }

    /** kalloc for the kernel's own use. */
    method Take() returns (r: Outcome)
      requires Valid()
      modifies this`mem, this`freelist, this`refcounts, this`freePages, this`kernel
      ensures Valid() && Seen() == old(Seen())
      ensures r == if old(freelist) == [] then Panic else Done
      ensures State() == if r == Done then Kept(old(State())) else old(State())
    {
      if freelist != [] {
        KeptGood(State());
      }
      var p;
      r, p := Kalloc();
      if r == Done {
        kernel := kernel + {p};
      }
    }

    /** kfree of a page in the kernel's own use. */
    method Give(p: nat)
      requires Valid() && p in kernel
      modifies this`mem, this`freelist, this`freePages, this`kernel
      ensures Valid() && Seen() == old(Seen()) && State() == Returned(old(State()), p)
    {
      ReturnedGood(State(), p);
      Kfree(p);
      kernel := kernel - {p};
    }

    /** The count is a uint8. */
    method KrefInc(p: nat)
      requires p in refcounts
      modifies this`refcounts
      ensures refcounts == old(refcounts)[p := (old(refcounts)[p] + 1) % 256]
    {
      refcounts := refcounts[p := (refcounts[p] + 1) % 256];
    }

    method KrefDec(p: nat)
      requires p in refcounts && 1 <= refcounts[p] < 256 && freePages == |freelist|
      modifies this`mem, this`freelist, this`freePages, this`refcounts
      ensures State() == Dropped(old(State()), p) && freePages == |freelist|
    {
      refcounts := refcounts[p := (refcounts[p] + 255) % 256];
      if refcounts[p] == 0 {
        Kfree(p);
      }
    }

    /** Reference counts never come near the uint8 limit. */
    lemma CountBounded(k: Key)
      requires Core() && k in pt
      ensures pt[k].ppn in refcounts && 1 <= refcounts[pt[k].ppn] == |Refs(pt, pt[k].ppn)| <= NPROC
    {
      Mapped(State(), k);
      RefsBounded(pt, pt[k].ppn, procs.Keys, Refs(pt, pt[k].ppn));
    }

    /** usertrap, store page fault at virtual address va. */
    method StoreFault(pid: nat, va: nat) returns (r: Outcome)
      requires Valid()
      modifies this
      ensures Valid() && View() == old(View()) && procs == old(procs)
      ensures var k := PageOf(pid, va);
              r == if k !in old(pt) || !old(pt)[k].u || !old(pt)[k].cow then Killed
                   else if old(freelist) == [] then Panic else Done
      ensures r != Done ==> State() == old(State())
      ensures r == Done ==> var k := PageOf(pid, va); k in pt && pt == old(pt)[k := pt[k]] && pt[k].w && pt[k].u
      ensures AllUsable(old(pt)) ==> AllUsable(pt)
    {
      var k := PageOf(pid, va);
      assert InRange(pt, procs, k);
      if k !in pt || !pt[k].u || !pt[k].cow {
        return Killed;
      }
      var p := pt[k].ppn;
      if freelist != [] {
        UnshareGood(State(), k);
      }
      Mapped(State(), k);
      CountBounded(k);
      var q;
      r, q := Kalloc();
      if r == Done {
        mem := mem[q := mem[p]];
        pt := pt[k := pt[k].(ppn := q, w := true, cow := false)];
        KrefDec(p);
        assert forall l :: InRange(old(pt), procs, l) ==> InRange(pt, procs, l);
        assert forall l :: Usable(old(pt), l) ==> Usable(pt, l);
      }
    }

    /** A store instruction: the fault is taken and the instruction retried. */
    method Store(pid: nat, va: nat, value: int) returns (r: Outcome)
      requires Valid()
      modifies this
      ensures Valid() && procs == old(procs)
      ensures var k := PageOf(pid, va);
              r == if k !in old(pt) || !old(pt)[k].u || (!old(pt)[k].w && !old(pt)[k].cow) then Killed
                   else if !old(pt)[k].w && old(freelist) == [] then Panic else Done
      ensures r == Done ==> PageOf(pid, va) in old(View()) && |old(View())[PageOf(pid, va)]| == PGSIZE
      ensures View() == if r == Done then PutByte(old(View()), PageOf(pid, va), va % PGSIZE, value) else old(View())
      ensures AllUsable(old(pt)) ==> AllUsable(pt)
    {
      var k := PageOf(pid, va);
      r := Done;
      if k !in pt || !pt[k].u || !pt[k].w {
        r := StoreFault(pid, va);
      }
      if r == Done {
        Mapped(State(), k);
        var page := mem[pt[k].ppn][va % PGSIZE := value];
        StoreIsolated(State(), k, page);
        mem := mem[pt[k].ppn := page];
      }
    }

    method Load(pid: nat, va: nat) returns (r: Outcome, value: int)
      requires Valid()
      ensures r == if PageOf(pid, va) in pt && pt[PageOf(pid, va)].u && pt[PageOf(pid, va)].r then Done else Killed
      ensures r == Done ==> PageOf(pid, va) in View() && |View()[PageOf(pid, va)]| == PGSIZE
      ensures r == Done ==> value == View()[PageOf(pid, va)][va % PGSIZE]
    {
      var k := PageOf(pid, va);
      if k !in pt || !pt[k].u || !pt[k].r {
        return Killed, 0;
      }
      Mapped(State(), k);
      return Done, mem[pt[k].ppn][va % PGSIZE];
    }

    /** One page of uvmunmap with do_free.  The page goes back to the free list exactly when
        this was the last entry naming it. */
    method UnmapPage(k: Key)
      requires Core() && k in pt
      modifies this`pt, this`mem, this`freelist, this`freePages, this`refcounts
      ensures Core() && pt == old(pt) - {k}
      ensures ViewOf(State()) == ViewOf(old(State())) - {k}
      ensures freelist == if Refs(old(pt), old(pt)[k].ppn) == {k} then [old(pt)[k].ppn] + old(freelist)
        else old(freelist)
    {
      UnmapGood(State(), k);
      UnmapView(State(), k);
      CountBounded(k);
      Mapped(State(), k);
      assert |Refs(pt, pt[k].ppn)| == 1 <==> Refs(pt, pt[k].ppn) == {k} by {
        assert |Refs(pt, pt[k].ppn) - {k}| == |Refs(pt, pt[k].ppn)| - 1;
      }
      KrefDec(pt[k].ppn);
      pt := pt - {k};
    }

    /** One page of copyout: the kernel writes through the entry whatever its PTE_W and PTE_COW. */
    method CopyoutPage(pid: nat, va: nat, data: seq<int>) returns (r: Outcome)
      requires Valid() && va % PGSIZE + |data| <= PGSIZE
      modifies this`mem
      ensures Valid()
      ensures r == if PageOf(pid, va) in pt && pt[PageOf(pid, va)].u then Done else Failed
      ensures r == Failed ==> State() == old(State())
      ensures r == Done ==> var k := PageOf(pid, va);
                k in old(View()) && |old(View())[k]| == PGSIZE &&
                State() == Written(old(State()), k, Splice(old(View())[k], va % PGSIZE, data))
    {
      var k := PageOf(pid, va);
      if k !in pt || !pt[k].u {
        return Failed;
      }
      Mapped(State(), k);
      var page := Splice(mem[pt[k].ppn], va % PGSIZE, data);
      WriteView(State(), k, page);
      mem := mem[pt[k].ppn := page];
      return Done;
    }

    /** Remove pages a .. b of process pid and drop their counts. */
    method UvmUnmap(pid: nat, a: nat, b: nat)
      requires Core() && a <= b && Range(pid, a, b) <= pt.Keys
      modifies this`pt, this`mem, this`freelist, this`freePages, this`refcounts
      ensures Core() && pt == old(pt) - Range(pid, a, b)
      ensures ViewOf(State()) == ViewOf(old(State())) - Range(pid, a, b)
    {
      ghost var table, view := pt, ViewOf(State());
      assert table - Range(pid, a, a) == table && view - Range(pid, a, a) == view;
      var i := a;
      while i < b
        invariant a <= i <= b && Core()
        invariant pt == table - Range(pid, a, i) && ViewOf(State()) == view - Range(pid, a, i)
      {
        UnmapNext(pid, a, i, b, table, view);
        i := i + 1;
      }
    }

    /** Page i, after pages a .. i. */
    method UnmapNext(pid: nat, a: nat, i: nat, b: nat, ghost table: Table, ghost view: Cow.View)
      requires Core() && a <= i < b && Range(pid, a, b) <= table.Keys
      requires pt == table - Range(pid, a, i) && ViewOf(State()) == view - Range(pid, a, i)
      modifies this`pt, this`mem, this`freelist, this`freePages, this`refcounts
      ensures Core() && pt == table - Range(pid, a, i + 1) && ViewOf(State()) == view - Range(pid, a, i + 1)
    {
      RangeStep(pid, a, i, b);
      MinusStep(table, pid, a, i);
      MinusStep(view, pid, a, i);
      UnmapPage(Key(pid, i));
    }

    /** One page of uvmalloc. */
    method AllocPage(k: Key, w: bool, x: bool) returns (r: Outcome)
      requires Core() && k.pid in procs && k !in pt
      modifies this`pt, this`mem, this`freelist, this`freePages, this`refcounts
      ensures r == if old(freelist) == [] then Panic else Done
      ensures r == Done ==> Core() && pt.Keys == old(pt).Keys + {k} && freelist == old(freelist)[1..]
      ensures r == Done ==> ViewOf(State()) == ViewOf(old(State()))[k := Fill(0)]
      ensures AllUsable(old(pt)) && w ==> AllUsable(pt)
    {
      var e := Pte(0, true, w, x, true, false);
      if freelist != [] {
        InstallGood(State(), k, e, Fill(0));
      }
      var p;
      r, p := Kalloc();
      if r == Done {
        mem := mem[p := Fill(0)];
        pt := pt[k := e.(ppn := p)];
        assert forall l :: Usable(old(pt), l) && w ==> Usable(pt, l);
      }
    }

    /** Map zeroed pages a .. b of process pid. */
    method UvmAlloc(pid: nat, a: nat, b: nat, w: bool, x: bool) returns (r: Outcome)
      requires Core() && pid in procs && a <= b && Range(pid, a, b) !! pt.Keys
      modifies this`pt, this`mem, this`freelist, this`freePages, this`refcounts
      ensures r == if |old(freelist)| < b - a then Panic else Done
      ensures r == Done ==> Core() && Filled(ViewOf(old(State())), old(pt).Keys, ViewOf(State()), pt.Keys, pid, a, b)
      ensures AllUsable(old(pt)) && w ==> AllUsable(pt)
    {
      ghost var view, keys := ViewOf(State()), pt.Keys;
      NoneYet(ViewOf(State()), pt.Keys, pid, a);
      var i := a;
      while i < b
        invariant a <= i <= b && Core() && Filled(view, keys, ViewOf(State()), pt.Keys, pid, a, i)
        invariant |freelist| == |old(freelist)| - (i - a)
        invariant AllUsable(old(pt)) && w ==> AllUsable(pt)
      {
        r := AllocNext(pid, a, i, b, w, x, view, keys);
        if r == Panic {
          return;
        }
        i := i + 1;
      }
      r := Done;
    }

    /** Page i, after pages a .. i. */
    method AllocNext(pid: nat, a: nat, i: nat, b: nat, w: bool, x: bool, ghost view: Cow.View,
        ghost keys: set<Key>) returns (r: Outcome)
      requires Core() && pid in procs && a <= i < b && Range(pid, a, b) !! keys
      requires Filled(view, keys, ViewOf(State()), pt.Keys, pid, a, i)
      modifies this`pt, this`mem, this`freelist, this`freePages, this`refcounts
      ensures r == if old(freelist) == [] then Panic else Done
      ensures r == Done ==> Core() && |freelist| == |old(freelist)| - 1
      ensures r == Done ==> Filled(view, keys, ViewOf(State()), pt.Keys, pid, a, i + 1)
      ensures AllUsable(old(pt)) && w ==> AllUsable(pt)
    {
      RangeStep(pid, a, i, b);
      ZerosStep(view, pid, a, i);
      r := AllocPage(Key(pid, i), w, x);
    }

    /** One page of uvmcopy. */
    method SharePage(k: Key, c: Key)
      requires Core() && CanShare(pt, k, c) && c.pid in procs
      modifies this`pt, this`refcounts
      ensures Core() && old(pt)[k].ppn in old(refcounts) && State() == Shared(old(State()), k, c)
      ensures forall l :: SameUser(old(pt), pt, l)
      ensures AllUsable(old(pt)) ==> AllUsable(pt)
    {
      ghost var v := State();
      CountBounded(k);
      Mapped(v, k);
      SharedOwned(v, procs.Keys, k, c);
      ShareGood(v, k, c);
      if AllUsable(v.pt) {
        SharedUsable(v, k, c);
      }
      var e := ReadOnly(pt[k]);
      pt := pt[k := e];
      pt := pt[c := e];
      KrefInc(e.ppn);
      assert State() == Shared(v, k, c);
    }

    /** Share every page of parent with child, copy-on-write. */
    method UvmCopy(parent: nat, child: nat, n: nat)
      requires Core() && parent != child && child in procs
      requires CanCopy(pt, parent, child, n)
      modifies this`pt, this`refcounts
      ensures Core() && Copying(old(State()), State(), parent, child, n)
      ensures AllUsable(old(pt)) ==> AllUsable(pt)
      ensures forall l :: SameUser(old(pt), pt, l)
    {
      ghost var v := State();
      CopyNone(v, parent, child);
      var i := 0;
      while i < n
        invariant 0 <= i <= n && Core() && Copying(v, State(), parent, child, i)
        invariant AllUsable(old(pt)) ==> AllUsable(pt)
        invariant forall l :: SameUser(v.pt, pt, l)
      {
        ghost var table := pt;
        CopyStep(v, State(), parent, child, i, n);
        SharePage(Key(parent, i), Key(child, i));
        forall l ensures SameUser(v.pt, pt, l) {
          assert SameUser(v.pt, table, l) && SameUser(table, pt, l);
        }
        i := i + 1;
      }
    }

    /** The user-visible state. */
    ghost function Seen(): Eager
      reads this
      requires Valid()
    {
      Eager(View(), procs)
    }

    /** fork: child is an unused process slot. */
    method Fork(parent: nat, child: nat) returns (r: Outcome)
      requires Valid() && parent in procs && child !in procs
      modifies this`pt, this`refcounts, this`procs
      ensures Valid()
      ensures r == if |old(procs)| == NPROC then Failed else Done
      ensures r == Failed ==> Seen() == old(Seen())
      ensures r == Done ==> Stepped(old(Seen()), Forked(parent, child), Seen())
      ensures r == Done ==> forall j | 0 <= j < Pages(old(procs)[parent]) :: Twins(pt, parent, child, j)
      ensures r == Done ==> forall k :: SameUser(old(pt), pt, k)
      ensures AllUsable(old(pt)) ==> AllUsable(pt)
    {
      if |procs| == NPROC {
        return Failed;
      }
      var n := Pages(procs[parent]);
      forall k | k in pt ensures k.pid != child {
        assert InRange(pt, procs, k);
      }
      forall k | k in Range(parent, 0, n) ensures k in pt {
        assert InRange(pt, procs, k);
      }
      procs := procs[child := procs[parent]];
      UvmCopy(parent, child, n);
      forall k ensures InRange(pt, procs, k) {
        assert InRange(old(pt), old(procs), k);
        assert k in Range(child, 0, n) <==> k.pid == child && k.vpn < n by {
          if k.pid == child && k.vpn < n {
            assert k == Key(child, k.vpn);
          }
        }
      }
      return Done;
    }

    /** freeproc's part in user memory. */
    method Exit(pid: nat)
      requires Valid() && pid in procs
      modifies this`pt, this`mem, this`freelist, this`freePages, this`refcounts, this`procs
      ensures Valid() && Stepped(old(Seen()), Exited(pid), Seen())
      ensures AllUsable(old(pt)) ==> AllUsable(pt)
    {
      var n := Pages(procs[pid]);
      InRangeRange(pt, procs, pid, 0, n);
      UvmUnmap(pid, 0, n);
      if AllUsable(old(pt)) {
        MinusUsable(old(pt), Range(pid, 0, n));
      }
      procs := procs - {pid};
      ExitRange(old(pt), old(procs), pid, pt, procs);
    }

    method Grow(pid: nat, sz: nat) returns (r: Outcome)
      requires Valid() && pid in procs && procs[pid] <= sz
      modifies this`pt, this`mem, this`freelist, this`freePages, this`refcounts, this`procs
      ensures r == if Pages(sz) - Pages(old(procs)[pid]) > |old(freelist)| then Panic else Done
      ensures r == Done ==> Valid() && Stepped(old(Seen()), Resized(pid, sz), Seen())
      ensures AllUsable(old(pt)) ==> AllUsable(pt)
    {
      var a, b := Pages(procs[pid]), Pages(sz);
      PagesMonotone(procs[pid], sz);
      GrowRange(pt, procs, pid, a, b);
      r := UvmAlloc(pid, a, b, true, false);
      if r == Done {
        procs := procs[pid := sz];
        GrownRange(old(pt), old(procs), pid, sz, pt, procs);
      }
    }

    method Shrink(pid: nat, sz: nat)
      requires Valid() && pid in procs && sz < procs[pid]
      modifies this`pt, this`mem, this`freelist, this`freePages, this`refcounts, this`procs
      ensures Valid() && Stepped(old(Seen()), Resized(pid, sz), Seen())
      ensures AllUsable(old(pt)) ==> AllUsable(pt)
    {
      var a, b := Pages(sz), Pages(procs[pid]);
      PagesMonotone(sz, procs[pid]);
      InRangeRange(pt, procs, pid, a, b);
      UvmUnmap(pid, a, b);
      if AllUsable(old(pt)) {
        MinusUsable(old(pt), Range(pid, a, b));
      }
      procs := procs[pid := sz];
      ShrunkRange(old(pt), old(procs), pid, sz, pt, procs);
      EmptyRange(old(View()), pid, a);
    }

    /** growproc: sizes are uint64, so shrinking below zero wraps and changes nothing. */
    method Growproc(pid: nat, n: int) returns (r: Outcome, sz: int)
      requires Valid() && pid in procs
      modifies this`pt, this`mem, this`freelist, this`freePages, this`refcounts, this`procs
      ensures sz == old(procs)[pid] + n
      ensures r == if n > 0 && Pages(sz) - Pages(old(procs)[pid]) > |old(freelist)| then Panic else Done
      ensures r == Done ==> Valid()
      ensures n == 0 || sz < 0 ==> Seen() == old(Seen())
      ensures r == Done && n != 0 && sz >= 0 ==> Stepped(old(Seen()), Resized(pid, sz), Seen())
      ensures r == Done && n != 0 && sz >= 0 ==> ByteStep(old(Seen()), Resized(pid, sz), Seen())
      ensures r == Done ==> Addressed(Seen())
      ensures AllUsable(old(pt)) ==> AllUsable(pt)
    {
      ghost var e := Seen();
      SeenPaged();
      sz := procs[pid] + n;
      r := Done;
      if n > 0 {
        r := Grow(pid, sz);
      } else if n < 0 && sz >= 0 {
        Shrink(pid, sz);
      }
      if r == Done {
        SeenPaged();
        if n != 0 && sz >= 0 {
          StepBytes(e, Resized(pid, sz), Seen());
        }
      }
    }

    /** Any interleaving of operations by any processes, until done or until the kernel panics for want
        of memory.  `events` has one entry per operation carried out, and `states` the states between
        them.  Each entry is what its operation makes of the state before it, and the copying machine
        accepts them all and ends with the same views.  If every page may be read and written, what
        happens is exactly what the copying machine does with the same operations. */
    method Run(ops: seq<Op>) returns (r: Outcome, events: seq<Option<Event>>, ghost states: seq<Snap>)
      requires Valid()
      modifies this
      ensures |states| == |events| + 1 && states[0] == old(Now()) && Chain(ops, states, events)
      ensures Replay(old(Seen()), events) == Some(Look(states[|events|]))
      ensures r == Done || r == Panic
      ensures r == Done ==> |events| == |ops| && Valid() && Now() == states[|events|] && Addressed(Seen())
      ensures r == Panic ==> |events| < |ops| && Exhausted(ops[|events|], states[|events|])
      ensures AllUsable(old(pt)) ==> (events, Look(states[|events|])) == EagerRun(old(Seen()), ops[..|events|])
    {
      events, states := [], [Now()];
      for i := 0 to |ops|
        invariant Valid() && |events| == i && |states| == i + 1 && states[0] == old(Now()) && states[i] == Now()
        invariant Chain(ops, states, events) && Replay(old(Seen()), events) == Some(Seen())
        invariant AllUsable(old(pt)) ==> AllUsable(pt) && (events, Seen()) == EagerRun(old(Seen()), ops[..i])
      {
        var ev;
        r, ev := Do(ops[i]);
        if r == Panic {
          return;
        }
        ChainMore(ops, states, events, ev, Now());
        ReplayMore(old(Seen()), events, ev);
        EagerMore(old(Seen()), ops, i);
        events, states := events + [ev], states + [Now()];
      }
      SeenPaged();
      r := Done;
    }

    /** One operation of one process or of the kernel, and the event it makes.  It panics exactly when
        memory is short. */
    method Do(op: Op) returns (r: Outcome, ev: Option<Event>)
      requires Valid()
      modifies this
      ensures r == Panic <==> Exhausted(op, old(Now()))
      ensures r != Panic ==> Valid() && Did(op, old(Now()), ev, Now()) && OnBytes(old(Now()), ev, Now())
      ensures AllUsable(old(pt)) && r != Panic ==> AllUsable(pt) && (ev, Seen()) == EagerOp(old(Seen()), op)
    {
      ghost var s := Now();
      SeenPaged();
      r, ev := Serve(op);
      if r != Panic {
        SeenPaged();
        DidBytes(op, s, ev, Now());
      }
    }

    /** What processes see is addressed by their sizes. */
    lemma SeenPaged()
      requires Valid()
      ensures Paged(Seen()) && Addressed(Seen())
    {
      var e := Seen();
      forall k ensures PagedAt(e, k) {
        assert InRange(pt, procs, k);
        if k in pt {
          Mapped(State(), k);
        }
      }
      PagedAddressed(e);
    }

    /** One operation, by its kind. */
    method Serve(op: Op) returns (r: Outcome, ev: Option<Event>)
      requires Valid()
      modifies this
      ensures r == Panic <==> Exhausted(op, old(Now()))
      ensures r != Panic ==> Valid() && Did(op, old(Now()), ev, Now())
      ensures AllUsable(old(pt)) && r != Panic ==> AllUsable(pt) && (ev, Seen()) == EagerOp(old(Seen()), op)
    {
      match op
      case DoFork(_, _) => r, ev := ForkOp(op);
      case DoStore(_, _, _) => r, ev := StoreOp(op);
      case DoLoad(_, _) => r, ev := LoadOp(op);
      case DoSbrk(_, _) => r, ev := SbrkOp(op);
      case DoExit(_) => r, ev := ExitOp(op);
      case DoTake =>
        r := Take();
        ev := None;
      case DoGive(p) =>
        r, ev := Failed, None;
        if p in kernel {
          Give(p);
        }
    }

    /** fork, unless there is no such process, no such slot, or no slot left. */
    method ForkOp(op: Op) returns (r: Outcome, ev: Option<Event>)
      requires Valid() && op.DoFork?
      modifies this
      ensures r == Panic <==> Exhausted(op, old(Now()))
      ensures r != Panic ==> Valid() && Did(op, old(Now()), ev, Now())
      ensures AllUsable(old(pt)) && r != Panic ==> AllUsable(pt) && (ev, Seen()) == EagerOp(old(Seen()), op)
    {
      r, ev := Failed, None;
      if op.parent in procs && op.child !in procs {
        r := Fork(op.parent, op.child);
        ev := if r == Done then Some(Forked(op.parent, op.child)) else None;
      }
    }

    /** A store instruction. */
    method StoreOp(op: Op) returns (r: Outcome, ev: Option<Event>)
      requires Valid() && op.DoStore?
      modifies this
      ensures r == Panic <==> Exhausted(op, old(Now()))
      ensures r != Panic ==> Valid() && Did(op, old(Now()), ev, Now())
      ensures AllUsable(old(pt)) && r != Panic ==> AllUsable(pt) && (ev, Seen()) == EagerOp(old(Seen()), op)
    {
      assert AllUsable(pt) ==> Usable(pt, PageOf(op.pid, op.va));
      r := Store(op.pid, op.va, op.value);
      ev := if r == Done then Some(Stored(op.pid, op.va, op.value)) else None;
    }

    /** A load instruction. */
    method LoadOp(op: Op) returns (r: Outcome, ev: Option<Event>)
      requires Valid() && op.DoLoad?
      modifies this
      ensures r == Panic <==> Exhausted(op, old(Now()))
      ensures r != Panic ==> Valid() && Did(op, old(Now()), ev, Now())
      ensures AllUsable(old(pt)) && r != Panic ==> AllUsable(pt) && (ev, Seen()) == EagerOp(old(Seen()), op)
    {
      assert AllUsable(pt) ==> Usable(pt, PageOf(op.pid, op.va));
      var value;
      r, value := Load(op.pid, op.va);
      ev := if r == Done then Some(Loaded(op.pid, op.va, value)) else None;
    }

    /** sbrk. */
    method SbrkOp(op: Op) returns (r: Outcome, ev: Option<Event>)
      requires Valid() && op.DoSbrk?
      modifies this
      ensures r == Panic <==> Exhausted(op, old(Now()))
      ensures r != Panic ==> Valid() && Did(op, old(Now()), ev, Now())
      ensures AllUsable(old(pt)) && r != Panic ==> AllUsable(pt) && (ev, Seen()) == EagerOp(old(Seen()), op)
    {
      r, ev := Failed, None;
      if op.pid in procs {
        r, ev := SbrkLive(op.pid, op.n);
      }
    }

    /** sbrk by a process that exists. */
    method SbrkLive(pid: nat, n: int) returns (r: Outcome, ev: Option<Event>)
      requires Valid() && pid in procs
      modifies this
      ensures r == Panic <==> Exhausted(DoSbrk(pid, n), old(Now()))
      ensures r != Panic ==> Valid() && Did(DoSbrk(pid, n), old(Now()), ev, Now())
      ensures r != Panic ==> (ev, Seen()) == EagerOp(old(Seen()), DoSbrk(pid, n))
      ensures AllUsable(old(pt)) ==> AllUsable(pt)
    {
      ghost var before := Now();
      var sz;
      r, sz := Growproc(pid, n);
      ev := if r == Done && n != 0 && sz >= 0 then Some(Resized(pid, sz)) else None;
      if r == Done {
        SbrkDid(pid, n, before, ev, Now());
      }
    }

    /** exit, as far as user memory goes. */
    method ExitOp(op: Op) returns (r: Outcome, ev: Option<Event>)
      requires Valid() && op.DoExit?
      modifies this
      ensures r == Panic <==> Exhausted(op, old(Now()))
      ensures r != Panic ==> Valid() && Did(op, old(Now()), ev, Now())
      ensures AllUsable(old(pt)) && r != Panic ==> AllUsable(pt) && (ev, Seen()) == EagerOp(old(Seen()), op)
    {
      r, ev := Failed, None;
      if op.pid in procs {
        Exit(op.pid);
        r, ev := Done, Some(Exited(op.pid));
      }
    }

    /** After fork, copyout into a page of the parent shows up in the child, whatever the page and the
        data. */
    method CopyoutLeaks(parent: nat, child: nat, va: nat, data: seq<int>) returns (r: Outcome)
      requires Valid() && parent in procs && child !in procs && |procs| < NPROC
      requires PageOf(parent, va) in pt && pt[PageOf(parent, va)].u && va % PGSIZE + |data| <= PGSIZE
      modifies this
      ensures r == Done && Valid() && PageOf(child, va) in View()
      ensures AllUsable(old(pt)) ==> AllUsable(pt)
      ensures var k := PageOf(parent, va);
        && k in old(View()) && |old(View())[k]| == PGSIZE
        && View()[PageOf(child, va)] == Splice(old(View())[k], va % PGSIZE, data)
    {
      var k, c := PageOf(parent, va), PageOf(child, va);
      assert InRange(pt, procs, k);
      r := Fork(parent, child);
      assert View()[c] == View()[k] == old(View())[k];
      ghost var v := State();
      assert Twins(pt, parent, child, va / PGSIZE) && SameUser(old(pt), pt, k);
      r := CopyoutPage(parent, va, data);
    }
  }

  /** A first page, of zeros. */
  lemma FirstPage(e: Eager)
    requires Stepped(Eager(map[], map[1 := 0]), Resized(1, PGSIZE), e)
    ensures e.sizes == map[1 := PGSIZE] && Key(1, 0) in e.view && e.view[Key(1, 0)] == Fill(0)
  {
    assert Pages(PGSIZE) == 1 && Pages(0) == 0;
    assert Key(1, 0) in Range(1, 0, 1);
  }

  /** From boot: process 1 with one page, of zeros. */
  method OnePage() returns (m: Machine)
    ensures fresh(m) && m.Valid() && AllUsable(m.pt)
    ensures m.procs == map[1 := PGSIZE] && Key(1, 0) in m.View() && m.View()[Key(1, 0)] == Fill(0)
  {
    m := new Machine(0, 4, 1);
    assert Pages(PGSIZE) == 1 && Pages(0) == 0;
    var r, _ := m.Growproc(1, PGSIZE);
    FirstPage(m.Seen());
  }

  /** From boot, one fork and one copyout into the parent: what the parent read before, and what its
      child reads after. */
  method ReachLeak() returns (before: int, after: int)
    ensures before == 0 && after == 7
  {
    var m := OnePage();
    assert Usable(m.pt, Key(1, 0));
    var r;
    r, before := m.Load(1, 0);
    r := m.CopyoutLeaks(1, 2, 0, [7]);
    assert Usable(m.pt, Key(2, 0));
    r, after := m.Load(2, 0);
  }

  lemma PagesMonotone(a: nat, b: nat)
    requires a <= b
    ensures Pages(a) <= Pages(b)
  {
  }

  ghost predicate Consistent(pt: Table, procs: map<nat, nat>) {
    (forall k :: InRange(pt, procs, k)) && Owned(pt, procs.Keys)
  }

  lemma ExitRange(pt: Table, procs: map<nat, nat>, pid: nat, pt': Table, procs': map<nat, nat>)
    requires Consistent(pt, procs) && pid in procs && procs' == procs - {pid}
    requires pt'.Keys == pt.Keys - Range(pid, 0, Pages(procs[pid]))
    ensures Consistent(pt', procs')
  {
    forall k ensures InRange(pt', procs', k) {
      assert InRange(pt, procs, k);
      RangeIff(pid, 0, Pages(procs[pid]), k);
    }
    forall k | k in pt' ensures k.pid in procs' {
      assert InRange(pt', procs', k);
    }
  }

  lemma ShrunkRange(pt: Table, procs: map<nat, nat>, pid: nat, sz: nat, pt': Table, procs': map<nat, nat>)
    requires Consistent(pt, procs) && pid in procs && procs' == procs[pid := sz] && sz <= procs[pid]
    requires pt'.Keys == pt.Keys - Range(pid, Pages(sz), Pages(procs[pid]))
    ensures Consistent(pt', procs')
  {
    PagesMonotone(sz, procs[pid]);
    forall k ensures InRange(pt', procs', k) {
      assert InRange(pt, procs, k);
      RangeIff(pid, Pages(sz), Pages(procs[pid]), k);
    }
  }

  lemma GrownRange(pt: Table, procs: map<nat, nat>, pid: nat, sz: nat, pt': Table, procs': map<nat, nat>)
    requires Consistent(pt, procs) && pid in procs && procs' == procs[pid := sz] && sz >= procs[pid]
    requires pt'.Keys == pt.Keys + Range(pid, Pages(procs[pid]), Pages(sz))
    ensures Consistent(pt', procs')
  {
    PagesMonotone(procs[pid], sz);
    forall k ensures InRange(pt', procs', k) {
      assert InRange(pt, procs, k);
      RangeIff(pid, Pages(procs[pid]), Pages(sz), k);
    }
    forall k | k in pt' ensures k.pid in procs' {
      assert InRange(pt', procs', k);
    }
  }

  lemma GrowRange(pt: Table, procs: map<nat, nat>, pid: nat, a: nat, b: nat)
    requires Consistent(pt, procs) && pid in procs && a == Pages(procs[pid])
    ensures Range(pid, a, b) !! pt.Keys
  {
    forall k | k in Range(pid, a, b) ensures k !in pt {
      assert InRange(pt, procs, k);
    }
  }

  lemma RangeIff(pid: nat, a: nat, b: nat, k: Key)
    ensures k in Range(pid, a, b) <==> k.pid == pid && a <= k.vpn < b
  {
    if k.pid == pid && a <= k.vpn < b {
      assert k == Key(pid, k.vpn);
    }
  }

  lemma InRangeRange(pt: Table, procs: map<nat, nat>, pid: nat, a: nat, b: nat)
    requires Consistent(pt, procs) && pid in procs && b <= Pages(procs[pid])
    ensures Range(pid, a, b) <= pt.Keys
  {
    forall k | k in Range(pid, a, b) ensures k in pt {
      assert InRange(pt, procs, k);
    }
  }

  lemma RangeStep(pid: nat, a: nat, i: nat, b: nat)
    requires a <= i < b
    ensures Key(pid, i) in Range(pid, a, b) && Key(pid, i) !in Range(pid, a, i)
    ensures Range(pid, a, i + 1) == Range(pid, a, i) + {Key(pid, i)}
  {
  }

  lemma MinusStep<T>(m: map<Key, T>, pid: nat, a: nat, i: nat)
    requires a <= i
    ensures (m - Range(pid, a, i)) - {Key(pid, i)} == m - Range(pid, a, i + 1)
  {
  }

  lemma EmptyRange(view: Cow.View, pid: nat, a: nat)
    ensures view - Range(pid, a, a) == view && view + Zeros(pid, a, a) == view
  {
  }

  lemma NoneYet(view: Cow.View, keys: set<Key>, pid: nat, a: nat)
    ensures Filled(view, keys, view, keys, pid, a, a)
  {
  }

  /** Zeroed pages a .. b of process pid were added to view and keys. */
  ghost predicate Filled(view: Cow.View, keys: set<Key>, view': Cow.View, keys': set<Key>, pid: nat, a: nat, b: nat) {
    keys' == keys + Range(pid, a, b) && view' == view + Zeros(pid, a, b)
  }

  lemma ZerosStep(view: Cow.View, pid: nat, a: nat, i: nat)
    requires a <= i
    ensures (view + Zeros(pid, a, i))[Key(pid, i) := Fill(0)] == view + Zeros(pid, a, i + 1)
  {
  }

  lemma ForkStep(view: Cow.View, parent: nat, child: nat, i: nat)
    requires Key(parent, i) in view && parent != child
    ensures var f := ForkedView(view, parent, child, i);
            Key(parent, i) in f && f[Key(child, i) := f[Key(parent, i)]] == ForkedView(view, parent, child, i + 1)
  {
  }

  /** The child's entries so far name other pages than the parent's next one. */
  lemma NoDouble(pt: Table, parent: nat, child: nat, i: nat)
    requires GoodPairs(pt) && Key(parent, i) in pt
    requires forall k | k in pt && k.pid == child :: k.vpn < i
    requires forall j | 0 <= j < i :: Twins(pt, parent, child, j)
    ensures forall l | l in pt && l.pid == child :: pt[l].ppn != pt[Key(parent, i)].ppn
  {
    forall l | l in pt && l.pid == child ensures pt[l].ppn != pt[Key(parent, i)].ppn {
      assert Twins(pt, parent, child, l.vpn);
      assert l == Key(child, l.vpn);
      assert GoodPair(pt, Key(parent, l.vpn), Key(parent, i));
    }
  }

  lemma TwinsStep(v: Vm, parent: nat, child: nat, i: nat)
    requires forall j | 0 <= j < i :: Twins(v.pt, parent, child, j)
    requires Key(parent, i) in v.pt && v.pt[Key(parent, i)].ppn in v.rc && parent != child
    ensures var pt := Shared(v, Key(parent, i), Key(child, i)).pt;
      && (forall j | 0 <= j <= i :: Twins(pt, parent, child, j))
      && pt.Keys == v.pt.Keys + {Key(child, i)}
  {
    var pt := Shared(v, Key(parent, i), Key(child, i)).pt;
    forall j | 0 <= j <= i ensures Twins(pt, parent, child, j) {
      assert j < i ==> Twins(v.pt, parent, child, j);
    }
  }

  /** Entry j of parent and child name the same page. */
  ghost predicate Twins(pt: Table, parent: nat, child: nat, j: nat) {
    Key(parent, j) in pt && Key(child, j) in pt && pt[Key(parent, j)].ppn == pt[Key(child, j)].ppn
  }

  /** Entry k can be shared with the new entry c of a process that does not map its page. */
  ghost predicate CanShare(pt: Table, k: Key, c: Key) {
    && k in pt && c !in pt
    && forall l | l in pt && l.pid == c.pid :: pt[l].ppn != pt[k].ppn
  }

  ghost predicate CanCopy(pt: Table, parent: nat, child: nat, n: nat) {
    Range(parent, 0, n) <= pt.Keys && forall k | k in pt :: k.pid != child
  }

  /** The first i pages have been shared. */
  ghost predicate Copying(v0: Vm, v: Vm, parent: nat, child: nat, i: nat)
    requires Good(v0) && Good(v)
  {
    && v.pt.Keys == v0.pt.Keys + Range(child, 0, i)
    && (forall j | 0 <= j < i :: Twins(v.pt, parent, child, j))
    && ViewOf(v) == ForkedView(ViewOf(v0), parent, child, i)
  }

  predicate SameUser(pt: Table, pt': Table, k: Key) {
    k in pt ==> k in pt' && pt'[k].u == pt[k].u
  }

  lemma CopyNone(v: Vm, parent: nat, child: nat)
    requires Good(v)
    ensures Copying(v, v, parent, child, 0)
  {
  }

  lemma CopyCan(v0: Vm, v: Vm, parent: nat, child: nat, i: nat, n: nat)
    requires Good(v0) && Good(v) && Copying(v0, v, parent, child, i) && i < n && parent != child
    requires CanCopy(v0.pt, parent, child, n)
    ensures CanShare(v.pt, Key(parent, i), Key(child, i)) && Key(parent, i) in ViewOf(v0)
  {
    RangeStep(parent, 0, i, n);
    RangeStep(child, 0, i, n);
    assert Key(parent, i) in v0.pt;
    NoDouble(v.pt, parent, child, i);
  }

  lemma CopyStep(v0: Vm, v: Vm, parent: nat, child: nat, i: nat, n: nat)
    requires Good(v0) && Good(v) && Copying(v0, v, parent, child, i) && i < n && parent != child
    requires CanCopy(v0.pt, parent, child, n)
    ensures var k, c := Key(parent, i), Key(child, i);
            && CanShare(v.pt, k, c)
            && v.pt[k].ppn in v.rc && Good(Shared(v, k, c))
            && Copying(v0, Shared(v, k, c), parent, child, i + 1)
  {
    var k, c := Key(parent, i), Key(child, i);
    CopyCan(v0, v, parent, child, i, n);
    ShareGood(v, k, c);
    ForkStep(ViewOf(v0), parent, child, i);
    TwinsStep(v, parent, child, i);
    PlusStep(v0.pt.Keys, child, i);
  }

  lemma PlusStep(keys: set<Key>, pid: nat, i: nat)
    ensures keys + Range(pid, 0, i) + {Key(pid, i)} == keys + Range(pid, 0, i + 1)
  {
  }

  // ---------- The machine in which fork copies ----------

  function Zeros(pid: nat, a: nat, b: nat): Cow.View {
    map k | k in Range(pid, a, b) :: Fill(0)
  }

  function ForkedView(view: Cow.View, parent: nat, child: nat, n: nat): Cow.View {
    view + map k | k in Range(child, 0, n) && Key(parent, k.vpn) in view :: view[Key(parent, k.vpn)]
  }

  /** The user-visible state: what every process reads, and its size in bytes. */
  datatype Eager = Eager(view: Cow.View, sizes: map<nat, nat>)

  /** The event leads the copying machine from e to f. */
  ghost predicate Stepped(e: Eager, ev: Event, f: Eager) {
    Step(e, ev) == Some(f)
  }

  /** What a process asks for, or the kernel for itself. */
  datatype Op =
    | DoFork(parent: nat, child: nat)
    | DoStore(pid: nat, va: nat, value: int)
    | DoLoad(pid: nat, va: nat)
    | DoSbrk(pid: nat, n: int)
    | DoExit(pid: nat)
    | DoTake
    | DoGive(page: nat)

  /** The machine between two operations. */
  datatype Snap = Snap(vm: Vm, procs: map<nat, nat>)

  ghost function Look(s: Snap): Eager
    requires Good(s.vm)
  {
    Eager(ViewOf(s.vm), s.procs)
  }

  /** The operation makes no event: there is nothing for it to act on, the entry does not allow it, the
      process table is full, or a process is not concerned. */
  predicate Silent(op: Op, s: Snap) {
    match op
    case DoFork(p, c) => p !in s.procs || c in s.procs || |s.procs| == NPROC
    case DoStore(pid, va, _) =>
      var k := PageOf(pid, va);
      k !in s.vm.pt || !s.vm.pt[k].u || (!s.vm.pt[k].w && !s.vm.pt[k].cow)
    case DoLoad(pid, va) =>
      var k := PageOf(pid, va);
      k !in s.vm.pt || !s.vm.pt[k].u || !s.vm.pt[k].r
    case DoSbrk(pid, n) => pid !in s.procs || n == 0 || s.procs[pid] + n < 0
    case DoExit(pid) => pid !in s.procs
    case _ => true
  }

  /** Memory is short for the operation. */
  predicate Exhausted(op: Op, s: Snap) {
    match op
    case DoStore(pid, va, _) => !Silent(op, s) && !s.vm.pt[PageOf(pid, va)].w && s.vm.free == []
    case DoSbrk(pid, n) => !Silent(op, s) && n > 0 && Pages(s.procs[pid] + n) - Pages(s.procs[pid]) > |s.vm.free|
    case DoTake => s.vm.free == []
    case _ => false
  }

  /** The event of an operation that makes one. */
  function EventOf(op: Op, e: Eager): Event {
    match op
    case DoFork(p, c) => Forked(p, c)
    case DoStore(pid, va, value) => Stored(pid, va, value)
    case DoLoad(pid, va) => Loaded(pid, va, ByteAt(e, pid, va))
    case DoSbrk(pid, n) => Resized(pid, if pid in e.sizes && e.sizes[pid] + n >= 0 then e.sizes[pid] + n else 0)
    case DoExit(pid) => Exited(pid)
    case _ => Exited(0)
  }

  function ByteAt(e: Eager, pid: nat, va: nat): int {
    var k := PageOf(pid, va);
    if k in e.view && va % PGSIZE < |e.view[k]| then e.view[k][va % PGSIZE] else 0
  }

  function After(e: Eager, ev: Option<Event>): Option<Eager> {
    match ev
    case None => Some(e)
    case Some(v) => Step(e, v)
  }

  /** The operation led from s to t, and the event is the one it makes of s. */
  ghost predicate Did(op: Op, s: Snap, ev: Option<Event>, t: Snap) {
    && Good(s.vm) && Good(t.vm) && !Exhausted(op, s)
    && ev == (if Silent(op, s) then None else Some(EventOf(op, Look(s))))
    && After(Look(s), ev) == Some(Look(t))
  }

  /** What growproc did is what its operation makes of the state before it. */
  lemma SbrkDid(pid: nat, n: int, s: Snap, ev: Option<Event>, t: Snap)
    requires Good(s.vm) && Good(t.vm) && pid in s.procs && !Exhausted(DoSbrk(pid, n), s)
    requires ev == if n != 0 && s.procs[pid] + n >= 0 then Some(Resized(pid, s.procs[pid] + n)) else None
    requires ev.None? ==> Look(t) == Look(s)
    requires ev.Some? ==> Stepped(Look(s), ev.value, Look(t))
    ensures Did(DoSbrk(pid, n), s, ev, t) && (ev, Look(t)) == EagerOp(Look(s), DoSbrk(pid, n))
  {
  }

  ghost predicate DidAt(ops: seq<Op>, states: seq<Snap>, events: seq<Option<Event>>, i: nat) {
    && i < |ops| && i + 1 < |states| && i < |events|
    && Did(ops[i], states[i], events[i], states[i + 1]) && OnBytes(states[i], events[i], states[i + 1])
  }

  /** What the operation did to the bytes that processes see, which their sizes address. */
  ghost predicate OnBytes(s: Snap, ev: Option<Event>, t: Snap) {
    && Good(s.vm) && Good(t.vm) && Addressed(Look(t))
    && if ev.Some? then ByteStep(Look(s), ev.value, Look(t)) else Look(t) == Look(s)
  }

  lemma DidBytes(op: Op, s: Snap, ev: Option<Event>, t: Snap)
    requires Did(op, s, ev, t) && Paged(Look(s)) && Addressed(Look(t))
    ensures OnBytes(s, ev, t)
  {
    if ev.Some? {
      StepBytes(Look(s), ev.value, Look(t));
    }
  }

  /** Operation i led from state i to state i + 1, making event i. */
  ghost predicate Chain(ops: seq<Op>, states: seq<Snap>, events: seq<Option<Event>>) {
    && |states| == |events| + 1 <= |ops| + 1
    && Good(states[|events|].vm)
    && (forall i: nat | i < |events| :: DidAt(ops, states, events, i))
  }

  lemma ChainMore(ops: seq<Op>, states: seq<Snap>, events: seq<Option<Event>>, ev: Option<Event>, t: Snap)
    requires Chain(ops, states, events) && |events| < |ops|
    requires Did(ops[|events|], states[|events|], ev, t) && OnBytes(states[|events|], ev, t)
    ensures Chain(ops, states + [t], events + [ev])
  {
    var ss, es := states + [t], events + [ev];
    forall i: nat | i < |es| ensures DidAt(ops, ss, es, i) {
      if i < |events| {
        assert DidAt(ops, states, events, i);
      }
    }
  }

  /** The copying machine's state after these events; None if it would not make one of them. */
  ghost function Replay(e: Eager, events: seq<Option<Event>>): Option<Eager> {
    if events == [] then Some(e)
    else
      var m := Replay(e, events[..|events| - 1]);
      if m.None? then None else After(m.value, events[|events| - 1])
  }

  lemma ReplayMore(e: Eager, events: seq<Option<Event>>, ev: Option<Event>)
    ensures Replay(e, events + [ev]) == var m := Replay(e, events); if m.None? then None else After(m.value, ev)
  {
    var more := events + [ev];
    assert more[..|more| - 1] == events;
  }

  /** What the copying machine does with an operation, when every page may be read and written. */
  function EagerOp(e: Eager, op: Op): (Option<Event>, Eager) {
    var ev := if EagerSilent(op, e) then None else Some(EventOf(op, e));
    var m := After(e, ev);
    (ev, if m.None? then e else m.value)
  }

  predicate EagerSilent(op: Op, e: Eager) {
    match op
    case DoFork(p, c) => p !in e.sizes || c in e.sizes || |e.sizes| == NPROC
    case DoStore(pid, va, _) => PageOf(pid, va) !in e.view
    case DoLoad(pid, va) => PageOf(pid, va) !in e.view
    case DoSbrk(pid, n) => pid !in e.sizes || n == 0 || e.sizes[pid] + n < 0
    case DoExit(pid) => pid !in e.sizes
    case _ => true
  }

  ghost function EagerRun(e: Eager, ops: seq<Op>): (seq<Option<Event>>, Eager) {
    if ops == [] then ([], e)
    else
      var (events, m) := EagerRun(e, ops[..|ops| - 1]);
      var (ev, n) := EagerOp(m, ops[|ops| - 1]);
      (events + [ev], n)
  }

  lemma EagerMore(e: Eager, ops: seq<Op>, i: nat)
    requires i < |ops|
    ensures var (events, m) := EagerRun(e, ops[..i]);
      EagerRun(e, ops[..i + 1]) == (events + [EagerOp(m, ops[i]).0], EagerOp(m, ops[i]).1)
  {
    var more := ops[..i + 1];
    assert more[..|more| - 1] == ops[..i];
  }

  // ---------- Permissions ----------

  /** A user may read the page, and write it, perhaps after a fault. */
  predicate Usable(pt: Table, k: Key) {
    k in pt ==> pt[k].u && pt[k].r && (pt[k].w || pt[k].cow)
  }

  ghost predicate AllUsable(pt: Table) {
    forall k :: Usable(pt, k)
  }

  lemma SharedOwned(v: Vm, pids: set<nat>, k: Key, c: Key)
    requires k in v.pt && v.pt[k].ppn in v.rc && Owned(v.pt, pids) && c.pid in pids && c !in v.pt
    ensures Owned(Shared(v, k, c).pt, pids)
    ensures forall l :: SameUser(v.pt, Shared(v, k, c).pt, l)
  {
  }

  lemma SharedUsable(v: Vm, k: Key, c: Key)
    requires k in v.pt && v.pt[k].ppn in v.rc && AllUsable(v.pt)
    ensures AllUsable(Shared(v, k, c).pt)
  {
    forall l ensures Usable(Shared(v, k, c).pt, l) {
      assert Usable(v.pt, l) && Usable(v.pt, k);
    }
  }

  lemma MinusUsable(pt: Table, keys: set<Key>)
    requires AllUsable(pt)
    ensures AllUsable(pt - keys)
  {
    forall l ensures Usable(pt - keys, l) {
      assert Usable(pt, l);
    }
  }

  /** One event of the machine in which fork copies every page; None if it cannot happen. */
  function Step(e: Eager, ev: Event): Option<Eager> {
    match ev
    case Forked(p, c) =>
      if p !in e.sizes || c in e.sizes then None
      else Some(Eager(ForkedView(e.view, p, c, Pages(e.sizes[p])), e.sizes[c := e.sizes[p]]))
    case Stored(pid, va, value) =>
      var k := PageOf(pid, va);
      if k !in e.view || va % PGSIZE >= |e.view[k]| then None
      else Some(e.(view := PutByte(e.view, k, va % PGSIZE, value)))
    case Loaded(pid, va, value) =>
      var k := PageOf(pid, va);
      if k !in e.view || va % PGSIZE >= |e.view[k]| || e.view[k][va % PGSIZE] != value then None else Some(e)
    case Resized(pid, size) =>
      if pid !in e.sizes then None
      else
        var a, b := Pages(e.sizes[pid]), Pages(size);
        Some(Eager(if a <= b then e.view + Zeros(pid, a, b) else e.view - Range(pid, b, a), e.sizes[pid := size]))
    case Exited(pid) =>
      if pid !in e.sizes then None
      else Some(Eager(e.view - Range(pid, 0, Pages(e.sizes[pid])), e.sizes - {pid}))
  }

  // ---------- The same, byte by byte ----------

  /** What a process reads at a virtual address, if its page is mapped. */
  function ByteOf(e: Eager, pid: nat, va: nat): Option<int> {
    var k := Key(pid, va / 4096);
    if k in e.view && va % 4096 < |e.view[k]| then Some(e.view[k][va % 4096]) else None
  }

  /** The page that holds the address starts below the size. */
  predicate Within(va: nat, size: nat) {
    va - va % 4096 < size
  }

  ghost predicate MappedAt(e: Eager, pid: nat, va: nat) {
    ByteOf(e, pid, va).Some? <==> pid in e.sizes && Within(va, e.sizes[pid])
  }

  /** A process can address what is below its size, up to the end of a page, and nothing else. */
  ghost predicate Addressed(e: Eager) {
    forall pid: nat, va: nat :: MappedAt(e, pid, va)
  }

  /** One event, as processes see it: fork copies every byte, a store changes one byte of one process, new
      memory is zero, and what is below the new size stays. */
  ghost predicate BytesAt(e: Eager, ev: Event, f: Eager, q: nat, va: nat) {
    var before := ByteOf(e, q, va);
    ByteOf(f, q, va) ==
      match ev
      case Forked(p, c) => if q == c then ByteOf(e, p, va) else before
      case Stored(p, at, value) => if q == p && va == at then Some(value) else before
      case Loaded(_, _, _) => before
      case Resized(p, size) =>
        if q != p then before
        else if !Within(va, size) then None
        else if before.Some? then before else Some(0)
      case Exited(p) => if q == p then None else before
  }

  ghost predicate ByteStep(e: Eager, ev: Event, f: Eager) {
    && (forall q: nat, va: nat :: BytesAt(e, ev, f, q, va))
    && match ev
       case Forked(p, c) => p in e.sizes && c !in e.sizes && f.sizes == e.sizes[c := e.sizes[p]]
       case Stored(p, at, _) => f.sizes == e.sizes && ByteOf(e, p, at).Some?
       case Loaded(p, at, value) => f.sizes == e.sizes && ByteOf(e, p, at) == Some(value)
       case Resized(p, size) => p in e.sizes && f.sizes == e.sizes[p := size]
       case Exited(p) => p in e.sizes && f.sizes == e.sizes - {p}
  }

  /** The machine's view: pages of PGSIZE bytes, and exactly those that start below the sizes. */
  ghost predicate Paged(e: Eager) {
    forall k :: PagedAt(e, k)
  }

  ghost predicate PagedAt(e: Eager, k: Key) {
    (k in e.view <==> k.pid in e.sizes && k.vpn * PGSIZE < e.sizes[k.pid]) && (k in e.view ==> |e.view[k]| == PGSIZE)
  }

  lemma PagedAddressed(e: Eager)
    requires Paged(e)
    ensures Addressed(e)
  {
    forall pid: nat, va: nat ensures MappedAt(e, pid, va) {
      assert PagedAt(e, Key(pid, va / 4096));
      assert va / 4096 * 4096 == va - va % 4096;
    }
  }

  /** Every event of the copying machine is that event on bytes. */
  lemma StepBytes(e: Eager, ev: Event, f: Eager)
    requires Paged(e) && Stepped(e, ev, f)
    ensures ByteStep(e, ev, f)
  {
    forall q: nat, va: nat ensures BytesAt(e, ev, f, q, va) {
      match ev
      case Forked(p, c) => ForkBytes(e, p, c, f, q, va);
      case Stored(p, at, value) => StoreBytes(e, p, at, value, f, q, va);
      case Loaded(_, _, _) =>
      case Resized(p, size) => ResizeBytes(e, p, size, f, q, va);
      case Exited(p) => ExitBytes(e, p, f, q, va);
    }
  }

  lemma ForkBytes(e: Eager, p: nat, c: nat, f: Eager, q: nat, va: nat)
    requires Paged(e) && Stepped(e, Forked(p, c), f)
    ensures BytesAt(e, Forked(p, c), f, q, va)
  {
    var n := va / 4096;
    assert PagedAt(e, Key(p, n)) && PagedAt(e, Key(c, n));
    PagesExact(e.sizes[p], n);
    RangeIff(c, 0, Pages(e.sizes[p]), Key(q, n));
  }

  lemma StoreBytes(e: Eager, p: nat, at: nat, value: int, f: Eager, q: nat, va: nat)
    requires Paged(e) && Stepped(e, Stored(p, at, value), f)
    ensures BytesAt(e, Stored(p, at, value), f, q, va)
  {
    assert PagedAt(e, Key(p, at / 4096));
    assert va == va / 4096 * 4096 + va % 4096 && at == at / 4096 * 4096 + at % 4096;
  }

  lemma ResizeBytes(e: Eager, p: nat, size: nat, f: Eager, q: nat, va: nat)
    requires Paged(e) && Stepped(e, Resized(p, size), f)
    ensures BytesAt(e, Resized(p, size), f, q, va)
  {
    var n, a, b := va / 4096, Pages(e.sizes[p]), Pages(size);
    assert n * 4096 == va - va % 4096;
    assert PagedAt(e, Key(p, n));
    PagesExact(e.sizes[p], n);
    PagesExact(size, n);
    RangeIff(p, a, b, Key(q, n));
    RangeIff(p, b, a, Key(q, n));
  }

  lemma ExitBytes(e: Eager, p: nat, f: Eager, q: nat, va: nat)
    requires Paged(e) && Stepped(e, Exited(p), f)
    ensures BytesAt(e, Exited(p), f, q, va)
  {
    var n := va / 4096;
    assert PagedAt(e, Key(p, n));
    PagesExact(e.sizes[p], n);
    RangeIff(p, 0, Pages(e.sizes[p]), Key(q, n));
  }

  /** The event of an operation, if it makes one. */
  lemma DidMeans(op: Op, s: Snap, ev: Option<Event>, t: Snap)
    requires Did(op, s, ev, t) && ev.Some?
    ensures match op
      case DoFork(p, c) => ev.value == Forked(p, c)
      case DoStore(pid, va, value) => ev.value == Stored(pid, va, value)
      case DoLoad(pid, va) => ev.value.Loaded? && ev.value.pid == pid && ev.value.va == va
      case DoSbrk(pid, n) => pid in s.procs && s.procs[pid] + n >= 0 && ev.value == Resized(pid, s.procs[pid] + n)
      case DoExit(pid) => ev.value == Exited(pid)
      case _ => false
  {
  }

  /** When pages may be read and written, an operation is refused exactly if the process or the slot for the
      child is missing, the address is not mapped, or there is nothing to change. */
  lemma RefusedIff(op: Op, s: Snap, ev: Option<Event>, t: Snap)
    requires Did(op, s, ev, t) && Paged(Look(s)) && AllUsable(s.vm.pt)
    ensures ev.None? <==> match op
      case DoFork(p, c) => p !in s.procs || c in s.procs || |s.procs| == NPROC
      case DoStore(pid, va, _) => ByteOf(Look(s), pid, va).None?
      case DoLoad(pid, va) => ByteOf(Look(s), pid, va).None?
      case DoSbrk(pid, n) => pid !in s.procs || n == 0 || s.procs[pid] + n < 0
      case DoExit(pid) => pid !in s.procs
      case _ => true
  {
    if op.DoStore? || op.DoLoad? {
      assert Usable(s.vm.pt, PageOf(op.pid, op.va)) && PagedAt(Look(s), PageOf(op.pid, op.va));
    }
  }
}
