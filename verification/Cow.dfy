/** Copy-on-write user memory: kernel/kalloc.c, the user-page operations of kernel/vm.c and the
    store-page-fault branch of usertrap in kernel/trap.c.

    Page tables are flat here: a leaf entry per process and virtual page.  (Module PageTable
    relates the three-level tables to such a flat map.)  The specification is the machine in
    which fork copies every page: a map from process and virtual page to contents.
 */
module Cow {
  const PGSIZE: nat := 4096
  const NPROC: nat := 64

  type Page = seq<int>
  datatype Key = Key(pid: nat, vpn: nat)
  datatype Pte = Pte(ppn: nat, r: bool, w: bool, x: bool, u: bool, cow: bool)
  type Table = map<Key, Pte>
  type Memory = map<nat, Page>
  type View = map<Key, Page>

  function Fill(v: int): Page {
    seq(PGSIZE, _ => v)
  }

  /** Physical memory, the free list (head first), the reference counts, the leaf entries of all
      processes, and the pages the kernel allocated for itself. */
  datatype Vm = Vm(mem: Memory, free: seq<nat>, rc: map<nat, nat>, pt: Table, kernel: set<nat>)

  // ---------- The invariant ----------

  /** The leaf entries that name physical page p. */
  ghost function Refs(pt: Table, p: nat): set<Key> {
    set k | k in pt && pt[k].ppn == p
  }

  /** Page p is on the free list, in the kernel's own use, or mapped; never two of these.  If
      mapped, its count is the number of entries naming it. */
  ghost predicate GoodPage(v: Vm, p: nat) {
    && (p in v.mem <==> p in v.free || p in v.kernel || Refs(v.pt, p) != {})
    && (p in v.free ==> p !in v.kernel && Refs(v.pt, p) == {})
    && (p in v.kernel ==> Refs(v.pt, p) == {})
    && (p in v.mem ==> |v.mem[p]| == PGSIZE && p in v.rc)
    && (Refs(v.pt, p) != {} ==> v.rc[p] == |Refs(v.pt, p)|)
  }

  /** Two entries that name the same page: a process maps no page twice, and a writable entry is
      the only one that names its page, and is not marked copy-on-write. */
  ghost predicate GoodPair(pt: Table, k: Key, l: Key) {
    k in pt && l in pt && pt[k].ppn == pt[l].ppn ==>
      && (k.pid == l.pid ==> k == l)
      && (pt[k].w ==> k == l && !pt[k].cow)
  }

  ghost predicate GoodPairs(pt: Table) {
    forall k, l :: GoodPair(pt, k, l)
  }

  ghost predicate Distinct(free: seq<nat>) {
    forall i, j | 0 <= i < j < |free| :: free[i] != free[j]
  }

  ghost predicate Good(v: Vm) {
    && (forall p: nat :: GoodPage(v, p))
    && Distinct(v.free) && GoodPairs(v.pt)
  }

  /** What each process reads, page by page. */
  ghost function ViewOf(v: Vm): View
    requires Good(v)
  {
    map k | k in v.pt :: (assert k in Refs(v.pt, v.pt[k].ppn); assert GoodPage(v, v.pt[k].ppn); v.mem[v.pt[k].ppn])
  }

  /** Each process maps a page at most once, so a count is at most the number of processes. */
  lemma {:induction false} RefsBounded(pt: Table, p: nat, pids: set<nat>, refs: set<Key>)
    requires GoodPairs(pt) && refs <= Refs(pt, p)
    requires forall k | k in refs :: k.pid in pids
    ensures |refs| <= |pids|
    decreases pids
  {
    if refs != {} {
      var k :| k in refs;
      forall l | l in refs - {k} ensures l.pid in pids - {k.pid} {
        assert GoodPair(pt, k, l);
      }
      RefsBounded(pt, p, pids - {k.pid}, refs - {k});
    }
  }

  lemma RefsUpdate(pt: Table, k: Key, e: Pte, p: nat)
    ensures Refs(pt[k := e], p) == if e.ppn == p then Refs(pt, p) + {k} else Refs(pt, p) - {k}
  {
  }

  lemma RefsRemove(pt: Table, k: Key, p: nat)
    ensures Refs(pt - {k}, p) == Refs(pt, p) - {k}
  {
  }

  // ---------- Steps ----------

  /** kfree */
  function Freed(v: Vm, p: nat): Vm {
    v.(mem := v.mem[p := Fill(1)], free := [p] + v.free)
  }

  /** kalloc, with a page left */
  function Allocated(v: Vm): Vm
    requires v.free != []
  {
    v.(mem := v.mem[v.free[0] := Fill(5)], free := v.free[1..], rc := v.rc[v.free[0] := 1])
  }

  /** kref_dec, with no count below one */
  function Dropped(v: Vm, p: nat): Vm
    requires p in v.rc && v.rc[p] >= 1
  {
    var d := v.(rc := v.rc[p := v.rc[p] - 1]);
    if v.rc[p] == 1 then Freed(d, p) else d
  }

  /** The kernel takes a page for itself: a page table, a trapframe, a pipe. */
  function Kept(v: Vm): Vm
    requires v.free != []
  {
    Allocated(v).(kernel := v.kernel + {v.free[0]})
  }

  /** The kernel gives its page p straight to kfree, which leaves the count at one. */
  function Returned(v: Vm, p: nat): Vm {
    Freed(v, p).(kernel := v.kernel - {p})
  }

  lemma KeptGood(v: Vm)
    requires Good(v) && v.free != []
    ensures Good(Kept(v)) && ViewOf(Kept(v)) == ViewOf(v)
  {
    var v' := Kept(v);
    assert v.free == [v.free[0]] + v'.free;
    forall q: nat ensures GoodPage(v', q) {
      assert GoodPage(v, q) && GoodPage(v, v.free[0]);
    }
    forall l | l in v.pt ensures v.pt[l].ppn != v.free[0] {
      Mapped(v, l);
    }
  }

  lemma ReturnedGood(v: Vm, p: nat)
    requires Good(v) && p in v.kernel
    ensures Good(Returned(v, p)) && ViewOf(Returned(v, p)) == ViewOf(v)
  {
    var v' := Returned(v, p);
    assert GoodPage(v, p);
    forall q: nat ensures GoodPage(v', q) {
      assert GoodPage(v, q);
    }
    forall l | l in v.pt ensures v.pt[l].ppn != p {
      Mapped(v, l);
    }
  }

  /** One page of uvmunmap with do_free. */
  function Unmapped(v: Vm, k: Key): Vm
    requires k in v.pt && v.pt[k].ppn in v.rc && v.rc[v.pt[k].ppn] >= 1
  {
    var d := Dropped(v, v.pt[k].ppn);
    d.(pt := d.pt - {k})
  }

  lemma Mapped(v: Vm, k: Key)
    requires Good(v) && k in v.pt
    ensures var p := v.pt[k].ppn;
            && k in Refs(v.pt, p)
            && p in v.mem && p !in v.free && p !in v.kernel && |v.mem[p]| == PGSIZE
            && p in v.rc && v.rc[p] == |Refs(v.pt, p)| >= 1
  {
    assert k in Refs(v.pt, v.pt[k].ppn);
    assert GoodPage(v, v.pt[k].ppn);
  }

  lemma UnmapGood(v: Vm, k: Key)
    requires Good(v) && k in v.pt
    ensures v.pt[k].ppn in v.rc && v.rc[v.pt[k].ppn] >= 1
    ensures Good(Unmapped(v, k))
  {
    var p := v.pt[k].ppn;
    Mapped(v, k);
    var v' := Unmapped(v, k);
    forall q: nat ensures GoodPage(v', q) {
      assert GoodPage(v, q);
      RefsRemove(v.pt, k, q);
      if q == p {
        assert |Refs(v.pt, p) - {k}| == |Refs(v.pt, p)| - 1;
        assert v'.free == if v.rc[p] == 1 then [p] + v.free else v.free;
      } else {
        assert q in v'.free <==> q in v.free;
      }
    }
    forall x, y ensures GoodPair(v'.pt, x, y) {
      assert GoodPair(v.pt, x, y);
    }
  }

  /** Unmapping takes away one page of one process's view, and nothing else: a page that is
      freed and overwritten had no other entry. */
  lemma UnmapView(v: Vm, k: Key)
    requires Good(v) && k in v.pt
    requires v.pt[k].ppn in v.rc && v.rc[v.pt[k].ppn] >= 1 && Good(Unmapped(v, k))
    ensures ViewOf(Unmapped(v, k)) == ViewOf(v) - {k}
  {
    var v' := Unmapped(v, k);
    forall l | l in v'.pt ensures ViewOf(v')[l] == ViewOf(v)[l] {
      Mapped(v, k);
      Mapped(v, l);
      if v.pt[l].ppn == v.pt[k].ppn {
        Subset({k, l}, Refs(v.pt, v.pt[k].ppn));
      }
    }
  }

  lemma Subset(a: set<Key>, b: set<Key>)
    requires a <= b
    ensures |a| <= |b|
  {
    assert b == a + (b - a);
  }

  // ---------- Sharing ----------

  /** The entry uvmcopy leaves in both tables. */
  function ReadOnly(e: Pte): Pte {
    e.(w := false, cow := true)
  }

  /** One page of uvmcopy: entry k becomes copy-on-write and so does its twin c. */
  function Shared(v: Vm, k: Key, c: Key): Vm
    requires k in v.pt && v.pt[k].ppn in v.rc
  {
    var e := ReadOnly(v.pt[k]);
    v.(pt := v.pt[k := e][c := e], rc := v.rc[e.ppn := v.rc[e.ppn] + 1])
  }

  lemma ShareRefs(v: Vm, k: Key, c: Key, q: nat)
    requires k in v.pt && c !in v.pt && v.pt[k].ppn in v.rc
    ensures Refs(Shared(v, k, c).pt, q) == Refs(v.pt, q) + if q == v.pt[k].ppn then {c} else {}
  {
    var e := ReadOnly(v.pt[k]);
    RefsUpdate(v.pt, k, e, q);
    RefsUpdate(v.pt[k := e], c, e, q);
    assert k in Refs(v.pt, v.pt[k].ppn);
    assert q != e.ppn ==> k !in Refs(v.pt, q) && c !in Refs(v.pt, q);
  }

  lemma SharePages(v: Vm, k: Key, c: Key, q: nat)
    requires Good(v) && k in v.pt && c !in v.pt && v.pt[k].ppn in v.rc
    ensures GoodPage(Shared(v, k, c), q)
  {
    Mapped(v, k);
    assert GoodPage(v, q);
    ShareRefs(v, k, c, q);
    assert c !in Refs(v.pt, q);
  }

  /** Sharing keeps the invariant, and the twin reads what the original reads. */
  lemma ShareGood(v: Vm, k: Key, c: Key)
    requires Good(v) && k in v.pt && c !in v.pt
    requires forall l | l in v.pt && l.pid == c.pid :: v.pt[l].ppn != v.pt[k].ppn
    ensures v.pt[k].ppn in v.rc && Good(Shared(v, k, c))
    ensures var e := v.pt[k].(w := false, cow := true); Shared(v, k, c).pt == v.pt[k := e][c := e]
    ensures ViewOf(Shared(v, k, c)) == ViewOf(v)[c := ViewOf(v)[k]]
  {
    Mapped(v, k);
    var v' := Shared(v, k, c);
    forall q: nat ensures GoodPage(v', q) {
      SharePages(v, k, c, q);
    }
    forall x, y ensures GoodPair(v'.pt, x, y) {
      assert GoodPair(v.pt, x, y) && GoodPair(v.pt, k, x) && GoodPair(v.pt, k, y) && GoodPair(v.pt, x, k)
        && GoodPair(v.pt, y, k);
    }
  }

  // ---------- Fresh pages ----------

  /** Page p was taken from the free list and entry k made to name it, with contents page. */
  function Installed(v: Vm, k: Key, e: Pte, page: Page): Vm
    requires v.free != []
  {
    var d := Allocated(v);
    d.(mem := d.mem[v.free[0] := page], pt := d.pt[k := e.(ppn := v.free[0])])
  }

  lemma InstallGood(v: Vm, k: Key, e: Pte, page: Page)
    requires Good(v) && v.free != [] && k !in v.pt && |page| == PGSIZE && !(e.w && e.cow)
    ensures Good(Installed(v, k, e, page))
    ensures ViewOf(Installed(v, k, e, page)) == ViewOf(v)[k := page]
  {
    var p := v.free[0];
    assert GoodPage(v, p);
    var v' := Installed(v, k, e, page);
    forall q: nat ensures GoodPage(v', q) {
      assert GoodPage(v, q);
      RefsUpdate(v.pt, k, e.(ppn := p), q);
      assert q in v.free <==> q == p || q in v'.free;
      if q == p {
        assert Refs(v'.pt, p) == {k};
      }
    }
    forall l | l in v.pt ensures v.pt[l].ppn != p {
      Mapped(v, l);
    }
    forall x, y ensures GoodPair(v'.pt, x, y) {
      assert GoodPair(v.pt, x, y);
    }
  }

  // ---------- The store fault ----------

  /** The copy-on-write branch of usertrap: entry k gets a private, writable copy of its page. */
  function Unshared(v: Vm, k: Key): Vm
    requires v.free != [] && k in v.pt && v.pt[k].ppn in v.mem && v.pt[k].ppn in v.rc
    requires v.pt[k].ppn != v.free[0] && v.rc[v.pt[k].ppn] >= 1
  {
    var p, q := v.pt[k].ppn, v.free[0];
    var d := Allocated(v);
    Dropped(d.(mem := d.mem[q := v.mem[p]], pt := d.pt[k := v.pt[k].(ppn := q, w := true, cow := false)]), p)
  }

  lemma UnshareReady(v: Vm, k: Key)
    requires Good(v) && v.free != [] && k in v.pt
    ensures var p := v.pt[k].ppn; p in v.mem && p in v.rc && p != v.free[0] && v.rc[p] == |Refs(v.pt, p)| >= 1
  {
    Mapped(v, k);
    assert GoodPage(v, v.free[0]);
  }

  lemma UnsharePages(v: Vm, k: Key, x: nat)
    requires Good(v) && v.free != [] && k in v.pt
    requires var p := v.pt[k].ppn; p in v.mem && p in v.rc && p != v.free[0] && v.rc[p] == |Refs(v.pt, p)| >= 1
    ensures GoodPage(Unshared(v, k), x)
  {
    var p, q := v.pt[k].ppn, v.free[0];
    Mapped(v, k);
    assert GoodPage(v, x);
    assert GoodPage(v, q);
    var v' := Unshared(v, k);
    RefsUpdate(v.pt, k, v'.pt[k], x);
    var rest := v.free[1..];
    assert v.free == [q] + rest;
    assert v'.free == if v.rc[p] == 1 then [p] + rest else rest;
    if x == p {
      assert |Refs(v'.pt, p)| == |Refs(v.pt, p)| - 1 by {
        assert k in Refs(v.pt, p) && Refs(v'.pt, p) == Refs(v.pt, p) - {k};
      }
      assert p !in rest;
    } else if x == q {
      assert Refs(v'.pt, q) == {k};
      assert q !in rest;
    } else {
      assert Refs(v'.pt, x) == Refs(v.pt, x);
      assert x in v'.free <==> x in v.free;
    }
  }

  /** Un-sharing changes no process's view; the entry becomes writable and its page its own. */
  lemma UnshareGood(v: Vm, k: Key)
    requires Good(v) && v.free != [] && k in v.pt
    ensures var p := v.pt[k].ppn; p in v.mem && p in v.rc && p != v.free[0] && v.rc[p] == |Refs(v.pt, p)| >= 1
    ensures Good(Unshared(v, k))
    ensures Unshared(v, k).pt == v.pt[k := v.pt[k].(ppn := v.free[0], w := true, cow := false)]
    ensures ViewOf(Unshared(v, k)) == ViewOf(v)
  {
    UnshareReady(v, k);
    var v' := Unshared(v, k);
    forall x: nat ensures GoodPage(v', x) {
      UnsharePages(v, k, x);
    }
    forall l | l in v.pt ensures v.pt[l].ppn != v.free[0] {
      Mapped(v, l);
    }
    assert Distinct(v'.free) by {
      assert v.pt[k].ppn !in v.free by { Mapped(v, k); }
    }
    forall x, y ensures GoodPair(v'.pt, x, y) {
      assert GoodPair(v.pt, x, y);
    }
    UnshareView(v, k, v');
  }

  lemma UnshareView(v: Vm, k: Key, v': Vm)
    requires Good(v) && v.free != [] && k in v.pt
    requires var p := v.pt[k].ppn; p in v.mem && p in v.rc && p != v.free[0] && v.rc[p] == |Refs(v.pt, p)| >= 1
    requires v' == Unshared(v, k) && Good(v')
    ensures ViewOf(v') == ViewOf(v)
  {
    forall l | l in v.pt ensures ViewOf(v')[l] == ViewOf(v)[l] {
      Mapped(v, l);
      Mapped(v, k);
      assert GoodPage(v, v.free[0]);
      if l != k && v.pt[l].ppn == v.pt[k].ppn {
        Subset({k, l}, Refs(v.pt, v.pt[k].ppn));
      }
    }
  }

  // ---------- Stores ----------

  /** Overwrite the page that entry k names. */
  function Written(v: Vm, k: Key, page: Page): Vm
    requires k in v.pt
  {
    v.(mem := v.mem[v.pt[k].ppn := page])
  }

  /** Everybody who maps the page sees the write. */
  lemma WriteView(v: Vm, k: Key, page: Page)
    requires Good(v) && k in v.pt && |page| == PGSIZE
    ensures Good(Written(v, k, page))
    ensures forall l | l in v.pt ::
      ViewOf(Written(v, k, page))[l] == if v.pt[l].ppn == v.pt[k].ppn then page else ViewOf(v)[l]
  {
    Mapped(v, k);
    var v' := Written(v, k, page);
    forall q: nat ensures GoodPage(v', q) {
      assert GoodPage(v, q);
    }
  }

  /** A store through a writable entry is seen by its own process only. */
  lemma StoreIsolated(v: Vm, k: Key, page: Page)
    requires Good(v) && k in v.pt && v.pt[k].w && |page| == PGSIZE
    ensures Good(Written(v, k, page)) && ViewOf(Written(v, k, page)) == ViewOf(v)[k := page]
  {
    WriteView(v, k, page);
    forall l | l in v.pt && v.pt[l].ppn == v.pt[k].ppn ensures l == k {
      assert GoodPair(v.pt, k, l);
    }
  }

  /** copyout writes through the entry without looking at PTE_COW.  It is isolated exactly when
      the page's count is one, or it writes what is already there. */
  lemma CopyoutIsolatedIff(v: Vm, k: Key, page: Page)
    requires Good(v) && k in v.pt && |page| == PGSIZE
    ensures v.pt[k].ppn in v.rc && v.pt[k].ppn in v.mem && Good(Written(v, k, page))
    ensures ViewOf(Written(v, k, page)) == ViewOf(v)[k := page] <==>
      v.rc[v.pt[k].ppn] == 1 || v.mem[v.pt[k].ppn] == page
  {
    var p := v.pt[k].ppn;
    Mapped(v, k);
    WriteView(v, k, page);
    if v.rc[p] == 1 {
      forall l | l in v.pt && v.pt[l].ppn == p ensures l == k {
        if l != k {
          Subset({k, l}, Refs(v.pt, p));
        }
      }
      assert ViewOf(Written(v, k, page)) == ViewOf(v)[k := page];
    } else if v.mem[p] != page {
      var l :| l in Refs(v.pt, p) - {k} by {
        assert |Refs(v.pt, p) - {k}| == |Refs(v.pt, p)| - 1;
      }
      assert ViewOf(Written(v, k, page))[l] != ViewOf(v)[l];
    }
  }
}
