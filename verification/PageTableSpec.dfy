/** Sv39 page tables (section 4.4 of the RISC-V Privileged Architecture specification) as used by
    kernel/vm.c: three levels of pages of 512 entries, and the flat map they stand for. */
module PageTableSpec {
  import opened Common

  const ENTRIES: nat := 512
  /** MAXVA / PGSIZE */
  const MAXVPN: nat := 0x400_0000
  /** Leaf entries that three full levels have; walk refuses the upper half. */
  const LEAVES: nat := 0x800_0000

  /** `flags` are the bits above PTE_V; a pointer to a table has none. */
  datatype Entry = Entry(v: bool, ppn: nat, flags: nat)

  const Invalid := Entry(false, 0, 0)

  type Table = seq<Entry>
  type Mem = map<nat, Table>

  function ZeroTable(): Table {
    seq(ENTRIES, _ => Invalid)
  }

  /** PX(level, va), on page numbers. */
  function Px(level: nat, vpn: nat): (i: nat)
    requires level <= 2
    ensures i < ENTRIES
  {
    if level == 0 then vpn % 512 else if level == 1 then vpn / 512 % 512 else vpn / 0x4_0000 % 512
  }

  /** A page number is given by its three indices. */
  lemma PxInjective(a: nat, b: nat)
    requires a < LEAVES && b < LEAVES
    ensures Px(0, a) == Px(0, b) && Px(1, a) == Px(1, b) && Px(2, a) == Px(2, b) ==> a == b
  {
    PxParts(a);
    PxParts(b);
  }

  lemma PxParts(a: nat)
    requires a < LEAVES
    ensures a == Px(0, a) + 512 * Px(1, a) + 0x4_0000 * Px(2, a)
  {
    assert a / 512 / 512 == a / 0x4_0000;
  }

  /** A place for a table page in the tree. */
  datatype Node = Root | Mid(i2: nat) | Low(i2: nat, i1: nat)

  function EntryAt(mem: Mem, p: nat, i: nat): Entry {
    if p in mem && i < |mem[p]| then mem[p][i] else Invalid
  }

  /** The page at a node, if there is a table there. */
  function PageAt(mem: Mem, root: nat, n: Node): Option<nat> {
    match n
    case Root => Some(root)
    case Mid(a) =>
      var e := EntryAt(mem, root, a);
      if e.v then Some(e.ppn) else None
    case Low(a, b) =>
      var e := EntryAt(mem, root, a);
      if e.v then var f := EntryAt(mem, e.ppn, b); if f.v then Some(f.ppn) else None
      else None
  }

  ghost predicate GoodNode(mem: Mem, root: nat, n: Node) {
    PageAt(mem, root, n).Some? ==>
      var p := PageAt(mem, root, n).value;
      && p in mem && |mem[p]| == ENTRIES
      && forall i | 0 <= i < ENTRIES && mem[p][i].v :: mem[p][i].flags == 0 <==> !n.Low?
  }

  /** No table page is in two places. */
  ghost predicate Apart(mem: Mem, root: nat, m: Node, n: Node) {
    PageAt(mem, root, m).Some? && PageAt(mem, root, m) == PageAt(mem, root, n) ==> m == n
  }

  ghost predicate Tree(mem: Mem, root: nat) {
    && (forall n :: GoodNode(mem, root, n))
    && (forall m, n :: Apart(mem, root, m, n))
  }

  /** The flat map: the leaf entry of a page number, Invalid if its tables are missing. */
  function Leaf(mem: Mem, root: nat, vpn: nat): Entry {
    var p := PageAt(mem, root, Low(Px(2, vpn), Px(1, vpn)));
    if p.Some? then EntryAt(mem, p.value, Px(0, vpn)) else Invalid
  }

  /** The table page that entry i of page p points to, if the entry is valid. */
  function Follow(mem: Mem, p: Option<nat>, i: nat): Option<nat> {
    if p.Some? && p.value in mem && i < |mem[p.value]| && mem[p.value][i].v then Some(mem[p.value][i].ppn) else None
  }

  /** The flat map is what the hardware finds (sections 4.3.2 and 4.4 of the RISC-V Privileged Architecture
      manual): nine bits of the address for each level, from bit 38 down, each an index into the page that the
      entry before named. */
  lemma HardwareWalk(mem: Mem, root: nat, va: nat)
    requires Tree(mem, root) && va / 0x1000 < LEAVES
    ensures var low := Follow(mem, Follow(mem, Some(root), va / 0x4000_0000), va / 0x20_0000 % 0x200);
      Leaf(mem, root, va / 0x1000) ==
      if low.Some? then EntryAt(mem, low.value, va / 0x1000 % 0x200) else Invalid
  {
    var vpn := va / 0x1000;
    assert va / 0x20_0000 == vpn / 512;
    assert va / 0x4000_0000 == vpn / 0x4_0000 == vpn / 0x4_0000 % 512;
    assert GoodNode(mem, root, Root) && GoodNode(mem, root, Mid(Px(2, vpn)));
  }

  // ---------- Writing a leaf ----------

  function Put(mem: Mem, p: nat, i: nat, e: Entry): Mem
    requires p in mem && i < |mem[p]|
  {
    mem[p := mem[p][i := e]]
  }

  lemma PutLeafPages(mem: Mem, root: nat, a: nat, b: nat, i: nat, e: Entry, n: Node)
    requires Tree(mem, root) && PageAt(mem, root, Low(a, b)).Some? && i < ENTRIES
    ensures GoodNode(mem, root, Low(a, b))
    ensures PageAt(Put(mem, PageAt(mem, root, Low(a, b)).value, i, e), root, n) == PageAt(mem, root, n)
  {
    assert GoodNode(mem, root, Low(a, b));
    assert Apart(mem, root, Low(a, b), Root);
    match n
    case Root =>
    case Mid(c) =>
    case Low(c, d) => assert Apart(mem, root, Low(a, b), Mid(c));
  }

  /** Writing the entry that walk returns changes the flat map at that page number only. */
  lemma PutLeaf(mem: Mem, root: nat, vpn: nat, e: Entry)
    requires Tree(mem, root) && vpn < MAXVPN && PageAt(mem, root, Low(Px(2, vpn), Px(1, vpn))).Some?
    requires e.v ==> e.flags != 0
    ensures GoodNode(mem, root, Low(Px(2, vpn), Px(1, vpn)))
    ensures var m := Put(mem, PageAt(mem, root, Low(Px(2, vpn), Px(1, vpn))).value, Px(0, vpn), e);
            Tree(m, root) && forall v: nat | v < LEAVES ::
              LeafIs(m, root, v, if v == vpn then e else Leaf(mem, root, v))
  {
    var a, b := Px(2, vpn), Px(1, vpn);
    var p := PageAt(mem, root, Low(a, b)).value;
    assert GoodNode(mem, root, Low(a, b));
    var m := Put(mem, p, Px(0, vpn), e);
    forall n ensures GoodNode(m, root, n) {
      PutLeafPages(mem, root, a, b, Px(0, vpn), e, n);
      assert GoodNode(mem, root, n) && Apart(mem, root, Low(a, b), n);
    }
    forall n, o ensures Apart(m, root, n, o) {
      PutLeafPages(mem, root, a, b, Px(0, vpn), e, n);
      PutLeafPages(mem, root, a, b, Px(0, vpn), e, o);
      assert Apart(mem, root, n, o);
    }
    forall v: nat | v < LEAVES ensures LeafIs(m, root, v, if v == vpn then e else Leaf(mem, root, v)) {
      PutLeafPages(mem, root, a, b, Px(0, vpn), e, Low(Px(2, v), Px(1, v)));
      assert Apart(mem, root, Low(a, b), Low(Px(2, v), Px(1, v)));
      PxInjective(v, vpn);
    }
  }

  ghost predicate LeafIs(mem: Mem, root: nat, v: nat, e: Entry) {
    Leaf(mem, root, v) == e
  }

  // ---------- Adding a table ----------

  /** The node under entry i of node n. */
  function Under(n: Node, i: nat): Node
    requires !n.Low?
  {
    if n.Root? then Mid(i) else Low(n.i2, i)
  }

  /** A zeroed table in page q, hung under entry i of page p. */
  function Hang(mem: Mem, p: nat, i: nat, q: nat): Mem
    requires p in mem && i < |mem[p]| && p != q
  {
    mem[q := ZeroTable()][p := mem[p][i := Entry(true, q, 0)]]
  }

  ghost predicate Outside(mem: Mem, root: nat, q: nat) {
    forall n :: PageAt(mem, root, n) != Some(q)
  }

  /** There is room for a table under entry i of node n. */
  ghost predicate CanHang(mem: Mem, root: nat, n: Node, i: nat, q: nat) {
    && Tree(mem, root) && !n.Low? && i < ENTRIES && PageAt(mem, root, n).Some?
    && !EntryAt(mem, PageAt(mem, root, n).value, i).v && Outside(mem, root, q)
  }

  lemma HangPages(mem: Mem, root: nat, n: Node, i: nat, q: nat, o: Node)
    requires CanHang(mem, root, n, i, q)
    ensures GoodNode(mem, root, n) && PageAt(mem, root, n).value != q
    ensures var m := Hang(mem, PageAt(mem, root, n).value, i, q);
            PageAt(m, root, o) == if o == Under(n, i) then Some(q) else PageAt(mem, root, o)
  {
    assert GoodNode(mem, root, n) && GoodNode(mem, root, Root);
    assert Apart(mem, root, n, Root);
    assert PageAt(mem, root, Root) != Some(q) && PageAt(mem, root, n) != Some(q);
    if o.Low? {
      assert Apart(mem, root, n, Mid(o.i2)) && PageAt(mem, root, Mid(o.i2)) != Some(q);
    }
  }

  /** A new, empty table leaves the flat map as it was. */
  lemma HangKeeps(mem: Mem, root: nat, n: Node, i: nat, q: nat)
    requires CanHang(mem, root, n, i, q)
    ensures GoodNode(mem, root, n) && PageAt(mem, root, n).value != q
    ensures var m := Hang(mem, PageAt(mem, root, n).value, i, q);
            Tree(m, root) && forall v: nat | v < LEAVES :: LeafIs(m, root, v, Leaf(mem, root, v))
  {
    HangPages(mem, root, n, i, q, n);
    var p := PageAt(mem, root, n).value;
    var m := Hang(mem, p, i, q);
    forall o ensures GoodNode(m, root, o) {
      HangPages(mem, root, n, i, q, o);
      assert GoodNode(mem, root, o) && Apart(mem, root, n, o);
    }
    forall o, o' ensures Apart(m, root, o, o') {
      HangPages(mem, root, n, i, q, o);
      HangPages(mem, root, n, i, q, o');
      assert Apart(mem, root, o, o');
      assert PageAt(mem, root, o) != Some(q) && PageAt(mem, root, o') != Some(q);
    }
    forall v: nat | v < LEAVES ensures LeafIs(m, root, v, Leaf(mem, root, v)) {
      var o := Low(Px(2, v), Px(1, v));
      HangPages(mem, root, n, i, q, o);
      assert Apart(mem, root, n, o) && PageAt(mem, root, o) != Some(q);
    }
  }
}
