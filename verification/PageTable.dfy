/** walk, mappages, uvmunmap and freewalk of kernel/vm.c. */
module PageTable {
  import opened Common
  import opened PageTableSpec

  /** walk finds the page that holds the leaf entry, or finds no table, or panics. */
  datatype Walked = Found(page: nat) | Missing | OutOfRange

  /** mappages succeeds, finds no memory for a table, or panics. */
  datatype Mapped = Ok | NoMemory | Remap | BadSize | BadAddress

  const PGSIZE: nat := 4096

  ghost predicate DistinctPages(s: seq<nat>) {
    forall i, j | 0 <= i < j < |s| :: s[i] != s[j]
  }

  /** Same flat map below MAXVA. */
  ghost predicate SameLeaves(mem: Mem, mem': Mem, root: nat) {
    forall v: nat | v < LEAVES :: LeafIs(mem', root, v, Leaf(mem, root, v))
  }

  /** Free pages are no tables of this tree. */
  ghost predicate Spare(mem: Mem, root: nat, free: seq<nat>) {
    DistinctPages(free) && forall q | q in free :: Outside(mem, root, q)
  }

  /** A page that is neither a table of this tree nor free keeps its contents. */
  ghost predicate Framed(mem: Mem, mem': Mem, root: nat, free: seq<nat>) {
    forall p :: FramedAt(mem, mem', root, free, p)
  }

  ghost predicate FramedAt(mem: Mem, mem': Mem, root: nat, free: seq<nat>, p: nat) {
    p !in free && Outside(mem, root, p) ==> Outside(mem', root, p) && (p in mem ==> p in mem' && mem'[p] == mem[p])
  }

  ghost predicate Within(a: seq<nat>, b: seq<nat>) {
    forall q | q in a :: q in b
  }

  ghost predicate IsTable(mem: Mem, root: nat, q: nat) {
    exists n :: PageAt(mem, root, n) == Some(q)
  }

  ghost predicate TableKept(mem: Mem, mem': Mem, root: nat, n: Node) {
    PageAt(mem, root, n).Some? ==> PageAt(mem', root, n) == PageAt(mem, root, n)
  }

  ghost predicate FreeKept(free: seq<nat>, mem': Mem, free': seq<nat>, root: nat, q: nat) {
    q in free ==> q in free' || IsTable(mem', root, q)
  }

  /** No page is lost: tables stay, and every free page stays free or becomes a table. */
  ghost predicate NoLoss(mem: Mem, free: seq<nat>, mem': Mem, free': seq<nat>, root: nat) {
    && (forall n :: TableKept(mem, mem', root, n))
    && (forall q: nat :: FreeKept(free, mem', free', root, q))
  }

  lemma NoLossTrans(mem: Mem, free: seq<nat>, mem1: Mem, free1: seq<nat>, mem2: Mem, free2: seq<nat>, root: nat)
    requires NoLoss(mem, free, mem1, free1, root) && NoLoss(mem1, free1, mem2, free2, root)
    ensures NoLoss(mem, free, mem2, free2, root)
  {
    forall n ensures TableKept(mem, mem2, root, n) {
      assert TableKept(mem, mem1, root, n) && TableKept(mem1, mem2, root, n);
    }
    forall q: nat ensures FreeKept(free, mem2, free2, root, q) {
      assert FreeKept(free, mem1, free1, root, q) && FreeKept(free1, mem2, free2, root, q);
      if q in free && q !in free1 {
        StillTable(mem1, mem2, root, q);
      }
    }
  }

  lemma StillTable(mem: Mem, mem': Mem, root: nat, q: nat)
    requires IsTable(mem, root, q) && forall n :: TableKept(mem, mem', root, n)
    ensures IsTable(mem', root, q)
  {
    var n :| PageAt(mem, root, n) == Some(q);
    assert TableKept(mem, mem', root, n);
    assert PageAt(mem', root, n) == Some(q);
  }

  /** Only the free list changed, and only by growing. */
  lemma NoLossMore(mem: Mem, free: seq<nat>, mem': Mem, free1: seq<nat>, free2: seq<nat>, root: nat)
    requires NoLoss(mem, free, mem', free1, root) && Within(free1, free2)
    ensures NoLoss(mem, free, mem', free2, root)
  {
    forall q: nat ensures FreeKept(free, mem', free2, root, q) {
      assert FreeKept(free, mem', free1, root, q);
    }
  }

  /** Pages that are not on the list do not matter. */
  lemma NoLossWith(mem: Mem, free: seq<nat>, mem': Mem, free': seq<nat>, root: nat, taken: seq<nat>)
    requires NoLoss(mem, free, mem', free', root)
    ensures NoLoss(mem, taken + free, mem', taken + free', root)
  {
    forall q: nat ensures FreeKept(taken + free, mem', taken + free', root, q) {
      assert FreeKept(free, mem', free', root, q);
    }
  }

  /** Every node has the same table. */
  ghost predicate SameTables(mem: Mem, mem': Mem, root: nat) {
    forall n :: PageAt(mem', root, n) == PageAt(mem, root, n)
  }

  lemma NoLossSame(mem: Mem, mem': Mem, free: seq<nat>, root: nat)
    requires SameTables(mem, mem', root)
    ensures NoLoss(mem, free, mem', free, root)
  {
  }

  class Tables {
    var mem: Mem
    var free: seq<nat>

    ghost predicate Valid(root: nat)
      reads this
    {
      Tree(mem, root) && Spare(mem, root, free)
    }

    /** One level of walk: the table under entry i of page p, made if need be and allowed. */
    method Descend(ghost root: nat, ghost n: Node, p: nat, i: nat, alloc: bool) returns (r: Option<nat>)
      requires Valid(root) && !n.Low? && PageAt(mem, root, n) == Some(p) && i < ENTRIES
      modifies this
      ensures Valid(root) && SameLeaves(old(mem), mem, root)
      ensures Framed(old(mem), mem, root, old(free)) && Within(free, old(free))
      ensures NoLoss(old(mem), old(free), mem, free, root)
      ensures r.Some? ==> PageAt(mem, root, Under(n, i)) == r
      ensures r.None? ==>
        mem == old(mem) && free == old(free) && PageAt(mem, root, Under(n, i)) == None && (!alloc || free == [])
      ensures PageAt(old(mem), root, Under(n, i)).Some? || !alloc ==> mem == old(mem) && free == old(free)
    {
      assert GoodNode(mem, root, n);
      var e := mem[p][i];
      if e.v {
        return Some(e.ppn);
      }
      if !alloc || free == [] {
        return None;
      }
      var q := free[0];
      assert q in free;
      HangKeeps(mem, root, n, i, q);
      mem := mem[q := ZeroTable()];
      mem := mem[p := mem[p][i := Entry(true, q, 0)]];
      free := free[1..];
      HangPages(old(mem), root, n, i, q, Under(n, i));
      forall x: nat | x != q && Outside(old(mem), root, x) ensures Outside(mem, root, x) {
        forall o ensures PageAt(mem, root, o) != Some(x) {
          HangPages(old(mem), root, n, i, q, o);
          assert PageAt(old(mem), root, o) != Some(x);
        }
      }
      forall x: nat ensures FramedAt(old(mem), mem, root, old(free), x) {
        assert Outside(old(mem), root, x) ==> PageAt(old(mem), root, n) != Some(x);
      }
      assert PageAt(old(mem), root, Under(n, i)) == None;
      forall o ensures TableKept(old(mem), mem, root, o) {
        HangPages(old(mem), root, n, i, q, o);
      }
      assert PageAt(mem, root, Under(n, i)) == Some(q) && IsTable(mem, root, q);
      assert old(free) == [q] + free;
      forall x: nat ensures FreeKept(old(free), mem, free, root, x) {
      }
      return Some(q);
    }

    /** The page holding the leaf entry of vpn, creating tables on the way if allowed. */
    method Walk(root: nat, vpn: nat, alloc: bool) returns (r: Walked)
      requires Valid(root)
      modifies this
      ensures Valid(root) && SameLeaves(old(mem), mem, root)
      ensures Framed(old(mem), mem, root, old(free)) && Within(free, old(free))
      ensures NoLoss(old(mem), old(free), mem, free, root)
      ensures r.OutOfRange? <==> vpn >= MAXVPN
      ensures r.Found? ==> PageAt(mem, root, Low(Px(2, vpn), Px(1, vpn))) == Some(r.page)
      ensures r.Missing? ==> PageAt(mem, root, Low(Px(2, vpn), Px(1, vpn))) == None && (!alloc || free == [])
      ensures r.Missing? ==> !Leaf(mem, root, vpn).v
      ensures !alloc || r.OutOfRange? ==> mem == old(mem) && free == old(free)
    {
      if vpn >= MAXVPN {
        return OutOfRange;
      }
      var p := Descend(root, Root, root, Px(2, vpn), alloc);
      if p.None? {
        return Missing;
      }
      ghost var m1, f1 := mem, free;
      var q := Descend(root, Mid(Px(2, vpn)), p.value, Px(1, vpn), alloc);
      SameTrans(old(mem), m1, mem, root);
      FramedTrans(old(mem), m1, mem, root, old(free), f1);
      NoLossTrans(old(mem), old(free), m1, f1, mem, free, root);
      if q.None? {
        return Missing;
      }
      return Found(q.value);
    }

    /** One page of mappages. */
    method MapOne(root: nat, vpn: nat, e: Entry) returns (r: Mapped)
      requires Valid(root) && e.v && e.flags != 0
      modifies this
      ensures Valid(root) && Within(free, old(free)) && Framed(old(mem), mem, root, old(free))
      ensures NoLoss(old(mem), old(free), mem, free, root)
      ensures !r.BadSize? && (r.BadAddress? <==> vpn >= MAXVPN)
      ensures r.Ok? || r.Remap? ==> (r.Remap? <==> Leaf(old(mem), root, vpn).v)
      ensures r.Ok? ==> OneLeaf(old(mem), mem, root, vpn, e)
      ensures !r.Ok? ==> SameLeaves(old(mem), mem, root)
      ensures r.NoMemory? ==> free == [] && !Leaf(old(mem), root, vpn).v
      ensures r.NoMemory? ==> PageAt(mem, root, Low(Px(2, vpn), Px(1, vpn))) == None
    {
      var w := Walk(root, vpn, true);
      if w.OutOfRange? {
        return BadAddress;
      }
      assert LeafIs(mem, root, vpn, Leaf(old(mem), root, vpn));
      if w.Missing? {
        return NoMemory;
      }
      assert GoodNode(mem, root, Low(Px(2, vpn), Px(1, vpn)));
      if mem[w.page][Px(0, vpn)].v {
        return Remap;
      }
      ghost var m1, f1 := mem, free;
      Assign(root, vpn, w.page, e);
      FramedTrans(old(mem), m1, mem, root, old(free), f1);
      OneLeafSame(old(mem), m1, mem, root, vpn, e);
      NoLossSame(m1, mem, free, root);
      NoLossTrans(old(mem), old(free), m1, f1, mem, free, root);
      return Ok;
    }

    /** The loop of mappages, over page numbers first .. last. */
    method MapRange(root: nat, first: nat, last: nat, ppn: nat, flags: nat) returns (r: Mapped, ghost upto: nat)
      requires Valid(root) && flags != 0 && first <= last
      modifies this
      ensures Valid(root) && Within(free, old(free)) && Framed(old(mem), mem, root, old(free))
      ensures NoLoss(old(mem), old(free), mem, free, root)
      ensures !r.BadSize? && first <= upto && Ranged(old(mem), mem, root, first, upto, ppn, flags)
      ensures WasClear(old(mem), root, first, upto)
      ensures r.Ok? ==> upto == last + 1
      ensures !r.Ok? ==> upto <= last && (r.BadAddress? <==> upto >= MAXVPN)
      ensures r.Remap? ==> WasMapped(old(mem), root, upto)
      ensures r.NoMemory? ==> free == []
    {
      var a := first;
      ghost var m0 := mem;
      RangedNone(m0, root, first, ppn, flags);
      NoLossSame(m0, m0, free, root);
      while true
        invariant first <= a <= last && NoLoss(m0, old(free), mem, free, root)
        invariant Valid(root) && Within(free, old(free)) && Framed(m0, mem, root, old(free))
        invariant Ranged(m0, mem, root, first, a, ppn, flags) && WasClear(m0, root, first, a)
        decreases last - a
      {
        ghost var m1, f1 := mem, free;
        assert RangedAt(m0, m1, root, first, a, ppn, flags, a);
        r := MapOne(root, a, Entry(true, ppn + (a - first), flags));
        upto := a;
        FramedTrans(m0, m1, mem, root, old(free), f1);
        NoLossTrans(m0, old(free), m1, f1, mem, free, root);
        if !r.Ok? {
          RangedSame(m0, m1, mem, root, first, a, ppn, flags);
          return;
        }
        RangedMore(m0, m1, mem, root, first, a, ppn, flags);
        upto := a + 1;
        if a == last {
          return;
        }
        a := a + 1;
      }
    }

    /** Map the pages of va .. va + size to consecutive physical pages from ppn; `upto` is the page
        it got to. */
    method Mappages(root: nat, va: nat, size: nat, ppn: nat, flags: nat) returns (r: Mapped, ghost upto: nat)
      requires Valid(root) && flags != 0
      modifies this
      ensures Valid(root) && Within(free, old(free)) && Framed(old(mem), mem, root, old(free))
      ensures NoLoss(old(mem), old(free), mem, free, root)
      ensures r.BadSize? <==> size == 0
      ensures r.BadSize? ==> mem == old(mem) && free == old(free)
      ensures !r.BadSize? ==> va / PGSIZE <= upto && Ranged(old(mem), mem, root, va / PGSIZE, upto, ppn, flags)
      ensures !r.BadSize? ==> WasClear(old(mem), root, va / PGSIZE, upto)
      ensures r.Ok? ==> upto == (va + size - 1) / PGSIZE + 1
      ensures !r.Ok? && !r.BadSize? ==> upto <= (va + size - 1) / PGSIZE && (r.BadAddress? <==> upto >= MAXVPN)
      ensures r.Remap? ==> WasMapped(old(mem), root, upto)
      ensures r.NoMemory? ==> free == []
    {
      if size == 0 {
        assert Framed(mem, mem, root, free);
        NoLossSame(mem, mem, free, root);
        return BadSize, 0;
      }
      r, upto := MapRange(root, va / PGSIZE, (va + size - 1) / PGSIZE, ppn, flags);
    }

    /** Write the leaf entry that walk found. */
    method Assign(ghost root: nat, vpn: nat, page: nat, e: Entry)
      requires Valid(root) && vpn < MAXVPN && PageAt(mem, root, Low(Px(2, vpn), Px(1, vpn))) == Some(page)
      requires e.v ==> e.flags != 0
      modifies this`mem
      ensures Valid(root) && Framed(old(mem), mem, root, free)
      ensures OneLeaf(old(mem), mem, root, vpn, e)
      ensures SameTables(old(mem), mem, root)
    {
      PutLeaf(mem, root, vpn, e);
      ghost var m := Put(mem, page, Px(0, vpn), e);
      assert forall v: nat | v < LEAVES :: LeafIs(m, root, v, if v == vpn then e else Leaf(mem, root, v)) ==>
        OneLeafAt(mem, m, root, vpn, e, v);
      mem := mem[page := mem[page][Px(0, vpn) := e]];
      forall n ensures PageAt(mem, root, n) == PageAt(old(mem), root, n) {
        PutLeafPages(old(mem), root, Px(2, vpn), Px(1, vpn), Px(0, vpn), e, n);
      }
    }

    /** One page of uvmunmap. */
    method UnmapOne(root: nat, vpn: nat) returns (r: Option<nat>)
      requires Valid(root)
      modifies this`mem
      ensures Valid(root) && Framed(old(mem), mem, root, free) && SameTables(old(mem), mem, root)
      ensures r.Some? <==> vpn < MAXVPN && Leaf(old(mem), root, vpn).v
      ensures r.Some? ==> r.value == Leaf(old(mem), root, vpn).ppn && OneLeaf(old(mem), mem, root, vpn, Invalid)
      ensures r.None? ==> mem == old(mem)
    {
      var w := Find(root, vpn);
      if !w.Found? {
        return None;
      }
      assert GoodNode(mem, root, Low(Px(2, vpn), Px(1, vpn)));
      var e := mem[w.page][Px(0, vpn)];
      if !e.v {
        return None;
      }
      Assign(root, vpn, w.page, Invalid);
      return Some(e.ppn);
    }

    /** Remove n mappings from vpn on; `pages` are the physical pages they named.  False is a panic:
        a page of the range has no mapping. */
    method Uvmunmap(root: nat, vpn: nat, n: nat) returns (ok: bool, pages: seq<nat>)
      requires Valid(root)
      modifies this`mem
      ensures Valid(root) && Framed(old(mem), mem, root, free) && SameTables(old(mem), mem, root)
      ensures ok <==> forall v: nat | vpn <= v < vpn + n :: WasMapped(old(mem), root, v)
      ensures ok ==> Unranged(old(mem), mem, root, vpn, vpn + n)
      ensures ok ==> |pages| == n && forall k | 0 <= k < n :: pages[k] == Leaf(old(mem), root, vpn + k).ppn
    {
      ghost var m0 := mem;
      var a := vpn;
      pages := [];
      UnrangedNone(m0, root, vpn);
      while a < vpn + n
        invariant vpn <= a <= vpn + n && |pages| == a - vpn
        invariant Valid(root) && Framed(m0, mem, root, free) && SameTables(m0, mem, root)
        invariant Unranged(m0, mem, root, vpn, a)
        invariant forall v: nat | vpn <= v < a :: WasMapped(m0, root, v)
        invariant forall k | 0 <= k < |pages| :: pages[k] == Leaf(m0, root, vpn + k).ppn
      {
        ghost var m1 := mem;
        assert UnrangedAt(m0, m1, root, vpn, a, a);
        var p := UnmapOne(root, a);
        if p.None? {
          assert !WasMapped(m0, root, a);
          return false, pages;
        }
        pages := pages + [p.value];
        FramedTrans(m0, m1, mem, root, free, free);
        UnrangedMore(m0, m1, mem, root, vpn, a);
        a := a + 1;
      }
      ok := true;
    }

    /** kfree for each page. */
    method Release(ghost root: nat, pages: seq<nat>)
      requires Tree(mem, root) && Spare(mem, root, pages + free)
      modifies this`free
      ensures Valid(root) && Within(free, pages + old(free)) && Within(pages + old(free), free)
      ensures |free| == |pages| + |old(free)|
    {
      var k := 0;
      while k < |pages|
        invariant 0 <= k <= |pages| && Spare(mem, root, pages[k..] + free)
        invariant Within(free, pages + old(free)) && Within(pages + old(free), pages[k..] + free)
        invariant |free| == k + |old(free)|
      {
        PushBack(mem, root, pages[k..], free);
        assert pages[k..] == [pages[k]] + pages[k + 1..];
        free := [pages[k]] + free;
        k := k + 1;
      }
      assert pages[k..] + free == free;
    }

    /** One page of uvmalloc: a page from the free list, mapped, or put back. */
    method AllocOne(root: nat, vpn: nat, flags: nat) returns (r: Option<nat>)
      requires Valid(root) && flags != 0 && vpn < MAXVPN && !WasMapped(mem, root, vpn)
      modifies this
      ensures Tree(mem, root) && Framed(old(mem), mem, root, old(free))
      ensures r.Some? ==> OneLeaf(old(mem), mem, root, vpn, Entry(true, r.value, flags))
      ensures r.Some? ==> Spare(mem, root, [r.value] + free) && Within([r.value] + free, old(free))
      ensures r.None? ==> Spare(mem, root, free) && Within(free, old(free)) && SameLeaves(old(mem), mem, root)
      ensures NoLoss(old(mem), old(free), mem, if r.Some? then [r.value] + free else free, root)
      ensures r.None? ==> free == [] || (|free| == 1 && PageAt(mem, root, Low(Px(2, vpn), Px(1, vpn))) == None)
    {
      if free == [] {
        assert Framed(mem, mem, root, free);
        NoLossSame(mem, mem, free, root);
        return None;
      }
      var q := free[0];
      free := free[1..];
      ghost var rest := free;
      assert q in old(free) && Outside(mem, root, q) && q !in rest;
      var m := MapOne(root, vpn, Entry(true, q, flags));
      assert FramedAt(old(mem), mem, root, rest, q);
      forall p ensures FramedAt(old(mem), mem, root, old(free), p) {
        assert FramedAt(old(mem), mem, root, rest, p);
      }
      assert q !in free;
      assert old(free) == [q] + rest;
      NoLossWith(old(mem), rest, mem, free, root, [q]);
      if m.Ok? {
        return Some(q);
      }
      free := [q] + free;
      return None;
    }

    /** Map fresh pages a0 .. b; without memory for all of them, unmap and free what was done. */
    method Uvmalloc(root: nat, a0: nat, b: nat, flags: nat) returns (ok: bool, ghost taken: seq<nat>, ghost at: nat)
      requires Valid(root) && flags != 0 && a0 <= b <= MAXVPN && WasClear(mem, root, a0, b)
      modifies this
      ensures Tree(mem, root)
      ensures ok ==> Spare(mem, root, taken + free) && Within(taken + free, old(free))
      ensures ok ==> |taken| == b - a0 && Allocated(old(mem), mem, root, a0, taken, flags)
      ensures !ok ==> Spare(mem, root, free) && Within(free, old(free)) && Restored(old(mem), mem, root)
      ensures NoLoss(old(mem), old(free), mem, if ok then taken + free else free, root)
      ensures !ok ==> a0 <= at < b && OutOfPages(mem, root, free, at - a0, at)
    {
      ghost var m0, f0 := mem, free;
      var a := a0;
      at := a0;
      taken := [];
      assert taken + free == free;
      NoLossSame(mem, mem, free, root);
      while a < b
        invariant a0 <= a <= b && |taken| == a - a0
        invariant Tree(mem, root) && Spare(mem, root, taken + free) && Within(taken + free, old(free))
        invariant Allocated(m0, mem, root, a0, taken, flags)
        invariant NoLoss(m0, f0, mem, taken + free, root)
      {
        ghost var m1, f1 := mem, free;
        SpareTail(mem, root, taken, free);
        assert AllocatedAt(m0, mem, root, a0, taken, flags, a) && !WasMapped(m0, root, a);
        var p := AllocOne(root, a, flags);
        if p.None? {
          AllocatedSame(m0, m1, mem, root, a0, taken, flags);
          SpareKept(m1, mem, root, taken, f1, free);
          NoLossWith(m1, f1, mem, free, root, taken);
          NoLossTrans(m0, f0, m1, taken + f1, mem, taken + free, root);
          ghost var m2, f2 := mem, taken + free;
          Undo(root, m0, a0, a, taken, flags);
          NoLossSame(m2, mem, f2, root);
          NoLossMore(m2, f2, mem, f2, free, root);
          NoLossTrans(m0, f0, m2, f2, mem, free, root);
          ok, at := false, a;
          return;
        }
        AllocatedMore(m0, m1, mem, root, a0, taken, flags, p.value);
        SpareMore(m1, mem, root, taken, f1, p.value, free);
        NoLossWith(m1, f1, mem, [p.value] + free, root, taken);
        NoLossTrans(m0, f0, m1, taken + f1, mem, taken + ([p.value] + free), root);
        assert taken + ([p.value] + free) == taken + [p.value] + free;
        taken := taken + [p.value];
        a := a + 1;
      }
      ok := true;
    }

    /** uvmdealloc on the error path of uvmalloc. */
    method Undo(root: nat, ghost m0: Mem, a0: nat, a: nat, ghost taken: seq<nat>, ghost flags: nat)
      requires Tree(mem, root) && Spare(mem, root, taken + free) && a0 <= a <= MAXVPN && |taken| == a - a0
      requires Allocated(m0, mem, root, a0, taken, flags)
      modifies this
      ensures Valid(root) && Within(free, taken + old(free)) && Restored(m0, mem, root)
      ensures Within(taken + old(free), free) && |free| == |taken| + |old(free)| && SameTables(old(mem), mem, root)
    {
      SpareTail(mem, root, taken, free);
      ghost var m1 := mem;
      forall v: nat | a0 <= v < a ensures WasMapped(mem, root, v) {
        assert AllocatedAt(m0, mem, root, a0, taken, flags, v);
      }
      var ok, pages := Uvmunmap(root, a0, a - a0);
      forall k | 0 <= k < |pages| ensures pages[k] == taken[k] {
        assert AllocatedAt(m0, m1, root, a0, taken, flags, a0 + k);
      }
      assert pages == taken;
      forall q | q in taken + free ensures Outside(mem, root, q) {
        assert FramedAt(m1, mem, root, free, q);
      }
      Release(root, pages);
      forall v: nat ensures RestoredAt(m0, mem, root, v) {
        assert AllocatedAt(m0, m1, root, a0, taken, flags, v) && UnrangedAt(m1, mem, root, a0, a, v);
      }
    }

    /** Free the table page p at node n of the tree that m0 had, and every table below it, each
        exactly once; false is the panic on a remaining leaf. */
    method Freewalk(ghost root: nat, ghost m0: Mem, ghost n: Node, p: nat) returns (ok: bool, ghost freed: seq<nat>)
      requires Tree(m0, root) && PageAt(m0, root, n) == Some(p)
      requires forall m | InSub(n, m) :: Intact(m0, mem, root, m)
      modifies this
      ensures ok <==> forall m | InSub(n, m) :: NoLeaf(m0, root, m)
      ensures ok ==>
        free == freed + old(free) && DistinctPages(freed) && forall x: nat :: x in freed <==> Holds(m0, root, n, x)
      ensures forall x: nat :: Holds(m0, root, n, x) || Same(old(mem), mem, x)
      decreases if n.Low? then 0 else if n.Mid? then 1 else 2
    {
      freed := [];
      assert InSub(n, n) && Intact(m0, mem, root, n) && GoodNode(m0, root, n);
      var i := 0;
      while i < ENTRIES
        invariant 0 <= i <= ENTRIES && p in mem && |mem[p]| == ENTRIES && mem[p][i..] == m0[p][i..]
        invariant forall m | Strict(n, m) && Index(n, m) < i :: NoLeaf(m0, root, m)
        invariant n.Low? ==> forall k | 0 <= k < i :: !m0[p][k].v
        invariant forall m | Strict(n, m) && Index(n, m) >= i :: Intact(m0, mem, root, m)
        invariant free == freed + old(free) && DistinctPages(freed)
        invariant forall x: nat :: x in freed <==> HoldsUpTo(m0, root, n, i, x)
        invariant forall x: nat :: Holds(m0, root, n, x) || Same(old(mem), mem, x)
      {
        var e := mem[p][i];
        assert e == mem[p][i..][0] == m0[p][i..][0];
        if e.v && e.flags == 0 {
          ghost var c, before := Under(n, i), mem;
          forall m | InSub(c, m) ensures Intact(m0, mem, root, m) && InSub(n, m) {
            UnderIff(n, i, m);
          }
          ghost var f;
          ok, f := Freewalk(root, m0, c, e.ppn);
          ChildDone(m0, root, n, i, p, before, mem);
          if !ok {
            return;
          }
          forall m | Strict(n, m) && Index(n, m) < i + 1 ensures NoLeaf(m0, root, m) {
            UnderIff(n, i, m);
          }
          FreedMore(m0, root, n, i, freed, f);
          mem := mem[p := mem[p][i := Invalid]];
          freed := f + freed;
          assert forall m | Strict(n, m) :: Apart(m0, root, n, m);
        } else if e.v {
          assert !NoLeaf(m0, root, n);
          ok := false;
          return;
        } else if !n.Low? {
          NoChild(m0, root, n, i, p, freed);
        }
        i := i + 1;
      }
      Finish(m0, root, n, p, freed);
      mem := mem - {p};
      free := [p] + free;
      freed := [p] + freed;
      ok := true;
    }

    /** uvmfree: unmap pages 0 .. n, then free the tables.  It panics exactly if a page below n has no
        mapping or one above n has; otherwise every table goes to the free list once, and `pages` are
        the physical pages to drop. */
    method Uvmfree(root: nat, n: nat) returns (ok: bool, pages: seq<nat>, ghost freed: seq<nat>)
      requires Valid(root)
      modifies this
      ensures ok <==>
        (forall v: nat | v < n :: WasMapped(old(mem), root, v)) && forall v: nat | v >= n :: !HasLeaf(old(mem), root, v)
      ensures ok ==> |pages| == n && forall k | 0 <= k < n :: pages[k] == Leaf(old(mem), root, k).ppn
      ensures ok ==> free == freed + old(free) && DistinctPages(freed)
      ensures ok ==> forall x: nat :: x in freed <==> IsTable(old(mem), root, x)
    {
      ghost var m0 := mem;
      freed := [];
      ok, pages := Uvmunmap(root, 0, n);
      if !ok {
        return;
      }
      ghost var m1 := mem;
      EmptyIff(m0, m1, root, n);
      ok, freed := Freewalk(root, m1, Root, root);
      forall x: nat ensures Holds(m1, root, Root, x) <==> IsTable(m0, root, x) {
        RootHolds(m0, m1, root, x);
      }
    }

    /** walk without alloc. */
    method Find(root: nat, vpn: nat) returns (r: Walked)
      requires Valid(root)
      ensures r.OutOfRange? <==> vpn >= MAXVPN
      ensures r.Found? ==> PageAt(mem, root, Low(Px(2, vpn), Px(1, vpn))) == Some(r.page)
      ensures r.Missing? ==> !Leaf(mem, root, vpn).v
    {
      if vpn >= MAXVPN {
        return OutOfRange;
      }
      assert GoodNode(mem, root, Root) && GoodNode(mem, root, Mid(Px(2, vpn)));
      var e := mem[root][Px(2, vpn)];
      if !e.v {
        return Missing;
      }
      var f := mem[e.ppn][Px(1, vpn)];
      if !f.v {
        return Missing;
      }
      return Found(f.ppn);
    }
  }

  /** Only the entry of vpn changed, to e. */
  ghost predicate OneLeafAt(mem: Mem, mem': Mem, root: nat, vpn: nat, e: Entry, v: nat) {
    Leaf(mem', root, v) == if v == vpn then e else Leaf(mem, root, v)
  }

  ghost predicate OneLeaf(mem: Mem, mem': Mem, root: nat, vpn: nat, e: Entry) {
    forall v: nat | v < LEAVES :: OneLeafAt(mem, mem', root, vpn, e, v)
  }

  lemma OneLeafSame(m: Mem, m1: Mem, m2: Mem, root: nat, vpn: nat, e: Entry)
    requires SameLeaves(m, m1, root) && OneLeaf(m1, m2, root, vpn, e)
    ensures OneLeaf(m, m2, root, vpn, e)
  {
    forall v: nat | v < LEAVES ensures OneLeafAt(m, m2, root, vpn, e, v) {
      assert LeafIs(m1, root, v, Leaf(m, root, v)) && OneLeafAt(m1, m2, root, vpn, e, v);
    }
  }

  ghost predicate WasMapped(mem: Mem, root: nat, v: nat) {
    v < MAXVPN && Leaf(mem, root, v).v
  }

  ghost predicate HasLeaf(mem: Mem, root: nat, v: nat) {
    v < LEAVES && Leaf(mem, root, v).v
  }

  ghost predicate WasClear(mem: Mem, root: nat, from: nat, a: nat) {
    forall v: nat | from <= v < a :: v < MAXVPN && !WasMapped(mem, root, v)
  }

  lemma RangedNone(m: Mem, root: nat, from: nat, ppn: nat, flags: nat)
    ensures Ranged(m, m, root, from, from, ppn, flags)
  {
  }

  lemma UnrangedNone(m: Mem, root: nat, from: nat)
    ensures Unranged(m, m, root, from, from)
  {
  }

  /** Pages from .. a were mapped to ppn onwards, all others kept their entries. */
  ghost predicate RangedAt(mem: Mem, mem': Mem, root: nat, from: nat, a: nat, ppn: nat, flags: nat, v: nat) {
    v < LEAVES ==>
      Leaf(mem', root, v) == if from <= v < a then Entry(true, ppn + (v - from), flags) else Leaf(mem, root, v)
  }

  ghost predicate Ranged(mem: Mem, mem': Mem, root: nat, from: nat, a: nat, ppn: nat, flags: nat) {
    forall v: nat :: RangedAt(mem, mem', root, from, a, ppn, flags, v)
  }

  lemma RangedSame(m: Mem, m1: Mem, m2: Mem, root: nat, from: nat, a: nat, ppn: nat, flags: nat)
    requires Ranged(m, m1, root, from, a, ppn, flags) && SameLeaves(m1, m2, root)
    ensures Ranged(m, m2, root, from, a, ppn, flags)
  {
    forall v: nat ensures RangedAt(m, m2, root, from, a, ppn, flags, v) {
      assert RangedAt(m, m1, root, from, a, ppn, flags, v);
      assert v < LEAVES ==> LeafIs(m2, root, v, Leaf(m1, root, v));
    }
  }

  lemma RangedMore(m: Mem, m1: Mem, m2: Mem, root: nat, from: nat, a: nat, ppn: nat, flags: nat)
    requires Ranged(m, m1, root, from, a, ppn, flags) && from <= a
    requires OneLeaf(m1, m2, root, a, Entry(true, ppn + (a - from), flags))
    ensures Ranged(m, m2, root, from, a + 1, ppn, flags)
  {
    var b := a + 1;
    forall v: nat ensures RangedAt(m, m2, root, from, b, ppn, flags, v) {
      assert RangedAt(m, m1, root, from, a, ppn, flags, v);
      assert v < LEAVES ==> OneLeafAt(m1, m2, root, a, Entry(true, ppn + (a - from), flags), v);
    }
  }

  /** Pages from .. a have no entry any more, all others kept theirs. */
  ghost predicate UnrangedAt(mem: Mem, mem': Mem, root: nat, from: nat, a: nat, v: nat) {
    v < LEAVES ==> Leaf(mem', root, v) == if from <= v < a then Invalid else Leaf(mem, root, v)
  }

  ghost predicate Unranged(mem: Mem, mem': Mem, root: nat, from: nat, a: nat) {
    forall v: nat :: UnrangedAt(mem, mem', root, from, a, v)
  }

  lemma UnrangedMore(m: Mem, m1: Mem, m2: Mem, root: nat, from: nat, a: nat)
    requires Unranged(m, m1, root, from, a) && from <= a
    requires OneLeaf(m1, m2, root, a, Invalid)
    ensures Unranged(m, m2, root, from, a + 1)
  {
    var b := a + 1;
    forall v: nat ensures UnrangedAt(m, m2, root, from, b, v) {
      assert UnrangedAt(m, m1, root, from, a, v);
      assert v < LEAVES ==> OneLeafAt(m1, m2, root, a, Invalid, v);
    }
  }

  lemma SameTrans(a: Mem, b: Mem, c: Mem, root: nat)
    requires SameLeaves(a, b, root) && SameLeaves(b, c, root)
    ensures SameLeaves(a, c, root)
  {
    forall v: nat | v < LEAVES ensures LeafIs(c, root, v, Leaf(a, root, v)) {
      assert LeafIs(b, root, v, Leaf(a, root, v)) && LeafIs(c, root, v, Leaf(b, root, v));
    }
  }

  lemma FramedTrans(a: Mem, b: Mem, c: Mem, root: nat, f: seq<nat>, g: seq<nat>)
    requires Framed(a, b, root, f) && Framed(b, c, root, g) && Within(g, f)
    ensures Framed(a, c, root, f)
  {
    forall p ensures FramedAt(a, c, root, f, p) {
      assert FramedAt(a, b, root, f, p) && FramedAt(b, c, root, g, p);
    }
  }

  /** Page a0 + k was unmapped and is now mapped to taken[k]; all others kept their entries. */
  ghost predicate AllocatedAt(m: Mem, m': Mem, root: nat, a0: nat, taken: seq<nat>, flags: nat, v: nat) {
    v < LEAVES ==>
      if a0 <= v < a0 + |taken| then !Leaf(m, root, v).v && Leaf(m', root, v) == Entry(true, taken[v - a0], flags)
      else Leaf(m', root, v) == Leaf(m, root, v)
  }

  ghost predicate Allocated(m: Mem, m': Mem, root: nat, a0: nat, taken: seq<nat>, flags: nat) {
    forall v: nat :: AllocatedAt(m, m', root, a0, taken, flags, v)
  }

  /** With k pages mapped and given back, the free list had run out: no page was left for page v, or one
      page and none for the table that v still lacks. */
  ghost predicate OutOfPages(mem: Mem, root: nat, free: seq<nat>, k: nat, v: nat) {
    |free| == k || (|free| == k + 1 && PageAt(mem, root, Low(Px(2, v), Px(1, v))) == None)
  }

  /** The same pages are mapped, to the same entries. */
  ghost predicate RestoredAt(m: Mem, m': Mem, root: nat, v: nat) {
    v < LEAVES ==> Leaf(m', root, v) == Leaf(m, root, v) || (!Leaf(m', root, v).v && !Leaf(m, root, v).v)
  }

  ghost predicate Restored(m: Mem, m': Mem, root: nat) {
    forall v: nat :: RestoredAt(m, m', root, v)
  }

  lemma AllocatedSame(m: Mem, m1: Mem, m2: Mem, root: nat, a0: nat, taken: seq<nat>, flags: nat)
    requires Allocated(m, m1, root, a0, taken, flags) && SameLeaves(m1, m2, root)
    ensures Allocated(m, m2, root, a0, taken, flags)
  {
    forall v: nat ensures AllocatedAt(m, m2, root, a0, taken, flags, v) {
      assert AllocatedAt(m, m1, root, a0, taken, flags, v);
      assert v < LEAVES ==> LeafIs(m2, root, v, Leaf(m1, root, v));
    }
  }

  lemma AllocatedMore(m: Mem, m1: Mem, m2: Mem, root: nat, a0: nat, taken: seq<nat>, flags: nat, q: nat)
    requires Allocated(m, m1, root, a0, taken, flags) && a0 + |taken| < MAXVPN && !WasMapped(m, root, a0 + |taken|)
    requires OneLeaf(m1, m2, root, a0 + |taken|, Entry(true, q, flags))
    ensures Allocated(m, m2, root, a0, taken + [q], flags)
  {
    var more := taken + [q];
    forall v: nat ensures AllocatedAt(m, m2, root, a0, more, flags, v) {
      assert AllocatedAt(m, m1, root, a0, taken, flags, v);
      assert v < LEAVES ==> OneLeafAt(m1, m2, root, a0 + |taken|, Entry(true, q, flags), v);
    }
  }

  lemma SpareTail(mem: Mem, root: nat, taken: seq<nat>, free: seq<nat>)
    requires Spare(mem, root, taken + free)
    ensures Spare(mem, root, free) && forall q | q in taken :: q !in free && Outside(mem, root, q)
  {
    var all := taken + free;
    assert forall i | 0 <= i < |free| :: free[i] == all[|taken| + i];
    forall q | q in taken ensures q !in free && Outside(mem, root, q) {
      var i :| 0 <= i < |taken| && taken[i] == q;
      assert all[i] == q && q in all;
    }
    forall q | q in free ensures Outside(mem, root, q) {
      assert q in all;
    }
  }

  lemma SpareKept(mem: Mem, mem': Mem, root: nat, taken: seq<nat>, free: seq<nat>, free': seq<nat>)
    requires Spare(mem, root, taken + free) && Framed(mem, mem', root, free)
    requires Spare(mem', root, free') && Within(free', free)
    ensures Spare(mem', root, taken + free')
  {
    SpareTail(mem, root, taken, free);
    var all, all' := taken + free, taken + free';
    forall q | q in all' ensures Outside(mem', root, q) {
      assert FramedAt(mem, mem', root, free, q);
    }
    forall i, j | 0 <= i < j < |all'| ensures all'[i] != all'[j] {
      if j < |taken| {
        assert all[i] == taken[i] && all[j] == taken[j];
      } else if i < |taken| {
        assert all'[j] in free' && all'[i] in taken;
      }
    }
  }

  lemma SpareMore(mem: Mem, mem': Mem, root: nat, taken: seq<nat>, free: seq<nat>, q: nat, free': seq<nat>)
    requires Spare(mem, root, taken + free) && Framed(mem, mem', root, free)
    requires Spare(mem', root, [q] + free') && Within([q] + free', free)
    ensures Spare(mem', root, taken + [q] + free')
  {
    SpareKept(mem, mem', root, taken, free, [q] + free');
    assert taken + [q] + free' == taken + ([q] + free');
  }

  lemma PushBack(mem: Mem, root: nat, pages: seq<nat>, free: seq<nat>)
    requires pages != [] && Spare(mem, root, pages + free)
    ensures Spare(mem, root, pages[1..] + ([pages[0]] + free))
  {
    var all, all' := pages + free, pages[1..] + ([pages[0]] + free);
    var n := |pages| - 1;
    forall q | q in all' ensures q in all {
    }
    forall i, j | 0 <= i < j < |all'| ensures all'[i] != all'[j] {
      var x := if i < n then i + 1 else if i == n then 0 else i;
      var y := if j < n then j + 1 else if j == n then 0 else j;
      assert all'[i] == all[x] && all'[j] == all[y];
    }
  }

  // ---------- Subtrees ----------

  /** m is properly below n, under its entry Index(n, m). */
  ghost predicate Strict(n: Node, m: Node) {
    (n.Root? && !m.Root?) || (n.Mid? && m.Low? && m.i2 == n.i2)
  }

  ghost function Index(n: Node, m: Node): nat {
    if n.Mid? && m.Low? then m.i1 else if m.Root? then 0 else m.i2
  }

  ghost predicate InSub(n: Node, m: Node) {
    m == n || Strict(n, m)
  }

  ghost predicate Intact(m0: Mem, mem: Mem, root: nat, m: Node) {
    PageAt(m0, root, m).Some? ==> Same(m0, mem, PageAt(m0, root, m).value)
  }

  ghost predicate Same(m0: Mem, mem: Mem, x: nat) {
    (x in m0 <==> x in mem) && (x in m0 ==> mem[x] == m0[x])
  }

  /** The table at node m, if any, has no leaf entry. */
  ghost predicate NoLeaf(m0: Mem, root: nat, m: Node) {
    m.Low? && PageAt(m0, root, m).Some? ==>
      var p := PageAt(m0, root, m).value;
      p in m0 && forall i | 0 <= i < |m0[p]| :: !m0[p][i].v
  }

  /** The page number that leads to entry i of the table at a lowest node. */
  lemma PageNumber(a: nat, b: nat, i: nat) returns (v: nat)
    requires a < ENTRIES && b < ENTRIES && i < ENTRIES
    ensures v < LEAVES && Px(2, v) == a && Px(1, v) == b && Px(0, v) == i
  {
    v := i + 512 * b + 0x4_0000 * a;
    assert v / 512 == b + 512 * a;
    assert v % 512 == i && (b + 512 * a) % 512 == b;
    assert v / 0x4_0000 == a && a % 512 == a;
  }

  /** With pages below n unmapped, no table has a leaf entry exactly if no page from n on was mapped. */
  lemma EmptyIff(m: Mem, m': Mem, root: nat, n: nat)
    requires Tree(m', root) && Unranged(m, m', root, 0, n)
    ensures (forall o | InSub(Root, o) :: NoLeaf(m', root, o)) <==> forall v: nat | v >= n :: !HasLeaf(m, root, v)
  {
    if forall v: nat | v >= n :: !HasLeaf(m, root, v) {
      forall o | InSub(Root, o) ensures NoLeaf(m', root, o) {
        NoLeafHere(m, m', root, n, o);
      }
    }
    if forall o | InSub(Root, o) :: NoLeaf(m', root, o) {
      forall v: nat | v >= n ensures !HasLeaf(m, root, v) {
        var o := Low(Px(2, v), Px(1, v));
        assert InSub(Root, o) && NoLeaf(m', root, o) && GoodNode(m', root, o) && UnrangedAt(m, m', root, 0, n, v);
        if PageAt(m', root, o).Some? {
          assert Leaf(m', root, v) == m'[PageAt(m', root, o).value][Px(0, v)];
        }
      }
    }
  }

  lemma NoLeafHere(m: Mem, m': Mem, root: nat, n: nat, o: Node)
    requires Tree(m', root) && Unranged(m, m', root, 0, n) && forall v: nat | v >= n :: !HasLeaf(m, root, v)
    ensures NoLeaf(m', root, o)
  {
    if o.Low? && PageAt(m', root, o).Some? {
      var p := PageAt(m', root, o).value;
      assert GoodNode(m', root, o) && GoodNode(m', root, Root) && GoodNode(m', root, Mid(o.i2));
      forall i | 0 <= i < ENTRIES ensures !m'[p][i].v {
        var v := PageNumber(o.i2, o.i1, i);
        assert UnrangedAt(m, m', root, 0, n, v) && Leaf(m', root, v) == m'[p][i];
        assert v < n || !HasLeaf(m, root, v);
      }
    }
  }

  /** The whole tree is the subtree of the root. */
  lemma RootHolds(m: Mem, m': Mem, root: nat, x: nat)
    requires SameTables(m, m', root)
    ensures Holds(m', root, Root, x) <==> IsTable(m, root, x)
  {
    if IsTable(m, root, x) {
      var o :| PageAt(m, root, o) == Some(x);
      assert InSub(Root, o) && PageAt(m', root, o) == Some(x);
    }
    if o :| InSub(Root, o) && PageAt(m', root, o) == Some(x) {
      assert PageAt(m, root, o) == Some(x);
    }
  }

  /** Page x is a table in the subtree of n. */
  ghost predicate Holds(m0: Mem, root: nat, n: Node, x: nat) {
    exists m :: InSub(n, m) && PageAt(m0, root, m) == Some(x)
  }

  ghost predicate HoldsUpTo(m0: Mem, root: nat, n: Node, i: nat, x: nat) {
    exists m :: Strict(n, m) && Index(n, m) < i && PageAt(m0, root, m) == Some(x)
  }

  /** The subtree under entry i. */
  lemma UnderIff(n: Node, i: nat, m: Node)
    requires !n.Low?
    ensures InSub(Under(n, i), m) <==> Strict(n, m) && Index(n, m) == i
  {
  }

  /** Tables elsewhere are other pages. */
  lemma SubApart(m0: Mem, root: nat, n: Node, i: nat, m: Node)
    requires Tree(m0, root) && !n.Low? && PageAt(m0, root, m).Some? && (m == n || Index(n, m) != i)
    ensures !Holds(m0, root, Under(n, i), PageAt(m0, root, m).value)
  {
    forall o | InSub(Under(n, i), o) ensures PageAt(m0, root, o) != PageAt(m0, root, m) {
      UnderIff(n, i, o);
      assert Apart(m0, root, o, m);
    }
  }

  /** Freeing the child under entry i, or finding none, extends what has been freed. */
  lemma HoldsStep(m0: Mem, root: nat, n: Node, i: nat, x: nat)
    requires !n.Low?
    ensures HoldsUpTo(m0, root, n, i + 1, x) <==> HoldsUpTo(m0, root, n, i, x) || Holds(m0, root, Under(n, i), x)
  {
    if m :| InSub(Under(n, i), m) && PageAt(m0, root, m) == Some(x) {
      UnderIff(n, i, m);
      assert Strict(n, m) && Index(n, m) < i + 1;
    }
    if m :| Strict(n, m) && Index(n, m) < i + 1 && PageAt(m0, root, m) == Some(x) {
      UnderIff(n, i, m);
    }
  }

  lemma EmptyEntry(m0: Mem, root: nat, n: Node, p: nat, i: nat, m: Node)
    requires PageAt(m0, root, n) == Some(p) && !EntryAt(m0, p, i).v && Strict(n, m) && Index(n, m) == i
    ensures PageAt(m0, root, m).None?
  {
  }

  /** After the child under entry i: page p, the other children and the rest are untouched. */
  lemma ChildDone(m0: Mem, root: nat, n: Node, i: nat, p: nat, mem: Mem, mem': Mem)
    requires Tree(m0, root) && !n.Low? && PageAt(m0, root, n) == Some(p)
    requires forall x: nat :: Holds(m0, root, Under(n, i), x) || Same(mem, mem', x)
    ensures Same(mem, mem', p)
    ensures forall m | Strict(n, m) && Index(n, m) > i && Intact(m0, mem, root, m) :: Intact(m0, mem', root, m)
    ensures forall x: nat :: Holds(m0, root, n, x) || Same(mem, mem', x)
  {
    SubApart(m0, root, n, i, n);
    forall m | Strict(n, m) && Index(n, m) > i && Intact(m0, mem, root, m) ensures Intact(m0, mem', root, m) {
      if PageAt(m0, root, m).Some? {
        SubApart(m0, root, n, i, m);
      }
    }
    forall x: nat ensures Holds(m0, root, n, x) || Same(mem, mem', x) {
      if m :| InSub(Under(n, i), m) && PageAt(m0, root, m) == Some(x) {
        UnderIff(n, i, m);
        assert InSub(n, m);
      }
    }
  }

  lemma FreedMore(m0: Mem, root: nat, n: Node, i: nat, freed: seq<nat>, f: seq<nat>)
    requires Tree(m0, root) && !n.Low? && DistinctPages(freed) && DistinctPages(f)
    requires forall x: nat :: x in freed <==> HoldsUpTo(m0, root, n, i, x)
    requires forall x: nat :: x in f <==> Holds(m0, root, Under(n, i), x)
    ensures DistinctPages(f + freed) && forall x: nat :: x in f + freed <==> HoldsUpTo(m0, root, n, i + 1, x)
  {
    forall x | x in f ensures x !in freed {
      if m :| Strict(n, m) && Index(n, m) < i && PageAt(m0, root, m) == Some(x) {
        SubApart(m0, root, n, i, m);
      }
    }
    DistinctConcat(f, freed);
    forall x: nat ensures x in f + freed <==> HoldsUpTo(m0, root, n, i + 1, x) {
      HoldsStep(m0, root, n, i, x);
    }
  }

  lemma NoChild(m0: Mem, root: nat, n: Node, i: nat, p: nat, freed: seq<nat>)
    requires !n.Low? && PageAt(m0, root, n) == Some(p) && !EntryAt(m0, p, i).v
    requires forall x: nat :: x in freed <==> HoldsUpTo(m0, root, n, i, x)
    ensures forall x: nat :: x in freed <==> HoldsUpTo(m0, root, n, i + 1, x)
    ensures forall m | Strict(n, m) && Index(n, m) == i :: NoLeaf(m0, root, m)
  {
    forall m | Strict(n, m) && Index(n, m) == i ensures PageAt(m0, root, m).None? {
      EmptyEntry(m0, root, n, p, i, m);
    }
    forall x: nat ensures x in freed <==> HoldsUpTo(m0, root, n, i + 1, x) {
      HoldsStep(m0, root, n, i, x);
      forall m | InSub(Under(n, i), m) ensures PageAt(m0, root, m).None? {
        UnderIff(n, i, m);
      }
    }
  }

  /** All entries done: the subtree's tables are p and those freed. */
  lemma Finish(m0: Mem, root: nat, n: Node, p: nat, freed: seq<nat>)
    requires Tree(m0, root) && PageAt(m0, root, n) == Some(p) && DistinctPages(freed)
    requires forall x: nat :: x in freed <==> HoldsUpTo(m0, root, n, ENTRIES, x)
    ensures DistinctPages([p] + freed) && forall x: nat :: x in [p] + freed <==> Holds(m0, root, n, x)
    ensures forall m | Strict(n, m) && Index(n, m) >= ENTRIES :: NoLeaf(m0, root, m)
  {
    assert GoodNode(m0, root, n);
    forall m | Strict(n, m) && Index(n, m) < ENTRIES ensures PageAt(m0, root, m) != Some(p) {
      assert Apart(m0, root, n, m);
    }
    DistinctConcat([p], freed);
    forall m | Strict(n, m) && Index(n, m) >= ENTRIES ensures PageAt(m0, root, m).None? {
      EmptyEntry(m0, root, n, p, Index(n, m), m);
    }
    forall x: nat ensures x in [p] + freed <==> Holds(m0, root, n, x) {
      if m :| InSub(n, m) && PageAt(m0, root, m) == Some(x) {
        assert m == n || Index(n, m) < ENTRIES;
      }
      if x == p {
        assert InSub(n, n);
      } else if m :| Strict(n, m) && Index(n, m) < ENTRIES && PageAt(m0, root, m) == Some(x) {
        assert InSub(n, m);
      }
    }
  }

  lemma DistinctConcat(f: seq<nat>, g: seq<nat>)
    requires DistinctPages(f) && DistinctPages(g) && forall x | x in f :: x !in g
    ensures DistinctPages(f + g)
  {
    var h := f + g;
    forall i, j | 0 <= i < j < |h| ensures h[i] != h[j] {
      if i < |f| <= j {
        assert h[i] in f && h[j] in g;
      }
    }
  }
}
