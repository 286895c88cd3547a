/** The user-level allocator of user/umalloc.c: a circular, address-ordered free list whose
    neighbours are coalesced.

    Addresses are in bytes; a header, and the unit of allocation, is 16 bytes.
 */
module Heap {
  const HDR: nat := 16

  datatype Blk = Blk(addr: int, units: nat)

  function End(b: Blk): int {
    b.addr + HDR * b.units
  }

  predicate InBlk(b: Blk, x: int) {
    b.addr <= x < End(b)
  }

  // ---------- The free list in address order ----------

  /** Two listed blocks, in this order, do not touch. */
  ghost predicate Apart(bs: seq<Blk>, i: nat, j: nat) {
    i < j < |bs| ==> End(bs[i]) < bs[j].addr
  }

  /** The list starts with the empty static block, and no two of its blocks touch. */
  ghost predicate Sorted(bs: seq<Blk>) {
    && |bs| > 0 && bs[0].units == 0
    && (forall i | 1 <= i < |bs| :: bs[i].units > 0)
    && (forall i: nat, j: nat :: Apart(bs, i, j))
  }

  ghost predicate InFree(bs: seq<Blk>, x: int) {
    exists i :: 0 <= i < |bs| && InBlk(bs[i], x)
  }

  /** Block b lies between list entries i and i + 1. */
  ghost predicate Fits(bs: seq<Blk>, i: nat, b: Blk) {
    && i < |bs| && b.units > 0
    && bs[i].addr < b.addr && End(bs[i]) <= b.addr
    && (i + 1 < |bs| ==> End(b) <= bs[i + 1].addr)
  }

  /** b joined with the next block if they touch, and what follows. */
  function JoinNext(bs: seq<Blk>, i: nat, b: Blk): (Blk, seq<Blk>)
    requires i < |bs|
  {
    if i + 1 < |bs| && End(b) == bs[i + 1].addr then (Blk(b.addr, b.units + bs[i + 1].units), bs[i + 2..])
    else (b, bs[i + 1..])
  }

  /** The list with b put back after entry i, coalesced on both sides. */
  function Insert(bs: seq<Blk>, i: nat, b: Blk): seq<Blk>
    requires i < |bs|
  {
    var (c, rest) := JoinNext(bs, i, b);
    if End(bs[i]) == c.addr then bs[..i] + [Blk(bs[i].addr, bs[i].units + c.units)] + rest
    else bs[..i + 1] + [c] + rest
  }

  lemma InsertSorted(bs: seq<Blk>, i: nat, b: Blk)
    requires Sorted(bs) && Fits(bs, i, b)
    ensures Sorted(Insert(bs, i, b))
  {
    var r := Insert(bs, i, b);
    var joined := i + 1 < |bs| && End(b) == bs[i + 1].addr;
    var left := End(bs[i]) == b.addr;
    forall x: nat, y: nat ensures Apart(r, x, y) {
      if x < y < |r| {
        InsertAt(bs, i, b, x);
        InsertAt(bs, i, b, y);
        assert Apart(bs, x, i) && Apart(bs, i, i + 1) && Apart(bs, i + 1, i + 2);
        var u := Source(bs, i, b, x);
        var v := Source(bs, i, b, y);
        assert Apart(bs, u, v) && Apart(bs, u, i) && Apart(bs, u, i + 1) && Apart(bs, i, v) && Apart(bs, i + 1, v);
      }
    }
  }

  /** The list entry of bs that entry x of the new list comes from (i for the block at b). */
  function Source(bs: seq<Blk>, i: nat, b: Blk, x: nat): nat
    requires i < |bs|
  {
    var left := if End(bs[i]) == b.addr then 1 else 0;
    var right := if i + 1 < |bs| && End(b) == bs[i + 1].addr then 1 else 0;
    if x <= i then x else if x == i + 1 - left then i else x + left + right - 1
  }

  lemma InsertAt(bs: seq<Blk>, i: nat, b: Blk, x: nat)
    requires i < |bs| && x < |Insert(bs, i, b)|
    ensures var r := Insert(bs, i, b);
            var left := End(bs[i]) == b.addr;
            var right := i + 1 < |bs| && End(b) == bs[i + 1].addr;
            && |r| == |bs| + 1 - (if left then 1 else 0) - (if right then 1 else 0)
            && Source(bs, i, b, x) < |bs|
            && r[x] == (if x < i || (x == i && !left) then bs[x]
                        else if x == i + 1 - (if left then 1 else 0)
                        then Blk(if left then bs[i].addr else b.addr,
                                 (if left then bs[i].units else 0) + b.units + (if right then bs[i + 1].units else 0))
                        else bs[Source(bs, i, b, x)])
  {
  }

  /** The bytes of the new list are those of the old one and those of b. */
  lemma InsertCovers(bs: seq<Blk>, i: nat, b: Blk, x: int)
    requires i < |bs|
    ensures InFree(Insert(bs, i, b), x) <==> InFree(bs, x) || InBlk(b, x)
  {
    var r := Insert(bs, i, b);
    var left := if End(bs[i]) == b.addr then 1 else 0;
    var right := if i + 1 < |bs| && End(b) == bs[i + 1].addr then 1 else 0;
    if y :| 0 <= y < |r| && InBlk(r[y], x) {
      InsertAt(bs, i, b, y);
      assert InBlk(bs[Source(bs, i, b, y)], x) || InBlk(b, x) || (right == 1 && InBlk(bs[i + 1], x));
    }
    assert InBlk(b, x) ==> InFree(r, x) by {
      InsertAt(bs, i, b, i + 1 - left);
      assert InBlk(b, x) ==> InBlk(r[i + 1 - left], x);
    }
    if y :| 0 <= y < |bs| && InBlk(bs[y], x) {
      var z := if y < i then y else if y == i then i
               else if right == 1 && y == i + 1 then i + 1 - left else y + 1 - left - right;
      InsertAt(bs, i, b, z);
      assert InBlk(r[z], x);
    }
  }

  // ---------- The ring of headers ----------

  /** Header i of the ring: its size, and a pointer to the next one, the last pointing back. */
  ghost predicate LinkedAt(bs: seq<Blk>, ptr: map<int, int>, size: map<int, nat>, i: nat) {
    && i < |bs| && bs[i].addr in ptr && bs[i].addr in size
    && size[bs[i].addr] == bs[i].units
    && ptr[bs[i].addr] == bs[if i + 1 < |bs| then i + 1 else 0].addr
  }

  ghost predicate Linked(bs: seq<Blk>, ptr: map<int, int>, size: map<int, nat>) {
    forall i | 0 <= i < |bs| :: LinkedAt(bs, ptr, size, i)
  }

  /** What free writes into the headers: b is the block being freed, p the entry before it. */
  function FreePtr(ptr: map<int, int>, size: map<int, nat>, p: int, b: Blk): map<int, int>
    requires p in ptr && ptr[p] in ptr && p in size
  {
    var nxt := ptr[p];
    var m := ptr[b.addr := if End(b) == nxt then ptr[nxt] else nxt];
    m[p := if p + HDR * size[p] == b.addr then m[b.addr] else b.addr]
  }

  function FreeSize(ptr: map<int, int>, size: map<int, nat>, p: int, b: Blk): map<int, nat>
    requires p in ptr && ptr[p] in size && p in size && p != b.addr
  {
    var nxt := ptr[p];
    var m := if End(b) == nxt then size[b.addr := b.units + size[nxt]] else size[b.addr := b.units];
    if p + HDR * size[p] == b.addr then m[p := size[p] + m[b.addr]] else m
  }

  lemma FreeLinks(bs: seq<Blk>, ptr: map<int, int>, size: map<int, nat>, i: nat, b: Blk)
    requires Sorted(bs) && Linked(bs, ptr, size) && Fits(bs, i, b)
    ensures var p := bs[i].addr;
            && p in ptr && ptr[p] in ptr && p in size && ptr[p] in size && p != b.addr
            && Linked(Insert(bs, i, b), FreePtr(ptr, size, p, b), FreeSize(ptr, size, p, b))
  {
    var p, n := bs[i].addr, if i + 1 < |bs| then i + 1 else 0;
    assert LinkedAt(bs, ptr, size, i) && LinkedAt(bs, ptr, size, n);
    var r, ptr', size' := Insert(bs, i, b), FreePtr(ptr, size, p, b), FreeSize(ptr, size, p, b);
    assert Apart(bs, 0, i);
    forall x | 0 <= x < |r| ensures LinkedAt(r, ptr', size', x) {
      FreeLinksAt(bs, ptr, size, i, b, x);
    }
  }

  lemma FreeLinksAt(bs: seq<Blk>, ptr: map<int, int>, size: map<int, nat>, i: nat, b: Blk, x: nat)
    requires Sorted(bs) && Linked(bs, ptr, size) && Fits(bs, i, b) && x < |Insert(bs, i, b)|
    requires var p := bs[i].addr; p in ptr && ptr[p] in ptr && p in size && ptr[p] in size && p != b.addr
    ensures LinkedAt(Insert(bs, i, b), FreePtr(ptr, size, bs[i].addr, b), FreeSize(ptr, size, bs[i].addr, b), x)
  {
    var r := Insert(bs, i, b);
    var n := if i + 1 < |bs| then i + 1 else 0;
    var y := if x + 1 < |r| then x + 1 else 0;
    var u := Source(bs, i, b, x);
    InsertAt(bs, i, b, x);
    InsertAt(bs, i, b, y);
    assert LinkedAt(bs, ptr, size, i) && LinkedAt(bs, ptr, size, n) && LinkedAt(bs, ptr, size, u);
    assert Apart(bs, 0, i) && Apart(bs, u, i) && Apart(bs, i, u) && Apart(bs, i + 1, u) && Apart(bs, u, i + 1);
  }

  // ---------- Taking a block ----------

  /** The list after n units were taken from the end of entry j. */
  function Take(bs: seq<Blk>, j: nat, n: nat): seq<Blk>
    requires j < |bs| && n <= bs[j].units
  {
    if bs[j].units == n then bs[..j] + bs[j + 1..] else bs[j := Blk(bs[j].addr, bs[j].units - n)]
  }

  function Taken(bs: seq<Blk>, j: nat, n: nat): Blk
    requires j < |bs| && n <= bs[j].units
  {
    Blk(End(bs[j]) - HDR * n, n)
  }

  lemma TakeSorted(bs: seq<Blk>, j: nat, n: nat)
    requires Sorted(bs) && 1 <= j < |bs| && 1 <= n <= bs[j].units
    ensures Sorted(Take(bs, j, n))
  {
    var r := Take(bs, j, n);
    forall x: nat, y: nat ensures Apart(r, x, y) {
      if bs[j].units == n {
        assert Apart(bs, if x < j then x else x + 1, if y < j then y else y + 1);
      } else {
        assert Apart(bs, x, y);
      }
    }
  }

  /** Taking splits the free bytes into those left and those taken. */
  lemma TakeCovers(bs: seq<Blk>, j: nat, n: nat, x: int)
    requires Sorted(bs) && 1 <= j < |bs| && 1 <= n <= bs[j].units
    ensures InFree(bs, x) <==> InFree(Take(bs, j, n), x) || InBlk(Taken(bs, j, n), x)
    ensures !(InFree(Take(bs, j, n), x) && InBlk(Taken(bs, j, n), x))
  {
    var r := Take(bs, j, n);
    if y :| 0 <= y < |r| && InBlk(r[y], x) {
      var z := if y < j || bs[j].units != n then y else y + 1;
      assert InBlk(bs[z], x);
      assert Apart(bs, z, j) && Apart(bs, j, z);
    }
    if z :| 0 <= z < |bs| && InBlk(bs[z], x) {
      if z != j {
        assert InBlk(r[if z < j || bs[j].units != n then z else z - 1], x);
      } else if bs[j].units != n && !InBlk(Taken(bs, j, n), x) {
        assert InBlk(r[j], x);
      }
    }
    assert InBlk(Taken(bs, j, n), x) ==> InBlk(bs[j], x);
  }

  lemma TakeLinks(bs: seq<Blk>, ptr: map<int, int>, size: map<int, nat>, j: nat, n: nat)
    requires Sorted(bs) && Linked(bs, ptr, size) && 1 <= j < |bs| && 1 <= n <= bs[j].units
    ensures bs[j].addr in ptr
    ensures bs[j].units == n ==> Linked(Take(bs, j, n), ptr[bs[j - 1].addr := ptr[bs[j].addr]], size)
    ensures bs[j].units != n ==>
              Linked(Take(bs, j, n), ptr, size[bs[j].addr := bs[j].units - n][Taken(bs, j, n).addr := n])
  {
    var r := Take(bs, j, n);
    assert LinkedAt(bs, ptr, size, j);
    if bs[j].units == n {
      var ptr' := ptr[bs[j - 1].addr := ptr[bs[j].addr]];
      forall x | 0 <= x < |r| ensures LinkedAt(r, ptr', size, x) {
        var z := if x < j then x else x + 1;
        assert LinkedAt(bs, ptr, size, z);
        assert Apart(bs, z, j - 1) && Apart(bs, j - 1, z);
      }
    } else {
      var size' := size[bs[j].addr := bs[j].units - n][Taken(bs, j, n).addr := n];
      forall x | 0 <= x < |r| ensures LinkedAt(r, ptr, size', x) {
        assert LinkedAt(bs, ptr, size, x);
        assert Apart(bs, x, j) && Apart(bs, j, x);
      }
    }
  }

  // ---------- The heap ----------

  /** Byte x is in the header or payload of a live block. */
  ghost predicate InLive(live: map<int, nat>, x: int) {
    exists a :: a in live && InBlk(Blk(a, live[a]), x)
  }

  /** Every byte obtained is free or live, and never both. */
  ghost predicate CoverAt(bs: seq<Blk>, live: map<int, nat>, owned: iset<int>, x: int) {
    && (x in owned <==> InFree(bs, x) || InLive(live, x))
    && !(InFree(bs, x) && InLive(live, x))
  }

  ghost predicate LiveApart(live: map<int, nat>, a: int, b: int) {
    a in live && b in live && a < b ==> End(Blk(a, live[a])) <= b
  }

  ghost predicate HeapOk(bs: seq<Blk>, live: map<int, nat>, owned: iset<int>) {
    && Sorted(bs)
    && (forall x :: CoverAt(bs, live, owned, x))
    && (forall a, b :: LiveApart(live, a, b))
    && (forall a | a in live :: live[a] > 0)
    && (forall x | x in owned :: x >= bs[0].addr + HDR)
  }

  /** A live block lies clear of every free one. */
  lemma LiveFits(bs: seq<Blk>, live: map<int, nat>, owned: iset<int>, a: int, i: nat)
    requires HeapOk(bs, live, owned) && a in live && i < |bs|
    ensures bs[0].addr + HDR <= a && bs[i].addr != a
    ensures bs[i].addr < a ==> End(bs[i]) <= a
    ensures a < bs[i].addr ==> End(Blk(a, live[a])) <= bs[i].addr
  {
    assert InBlk(Blk(a, live[a]), a);
    assert CoverAt(bs, live, owned, a);
    assert CoverAt(bs, live, owned, bs[i].addr);
    assert i > 0 ==> InBlk(bs[i], bs[i].addr);
    assert Apart(bs, 0, i);
  }

  lemma FreeKeeps(bs: seq<Blk>, live: map<int, nat>, owned: iset<int>, a: int, i: nat)
    requires HeapOk(bs, live, owned) && a in live && Fits(bs, i, Blk(a, live[a]))
    ensures HeapOk(Insert(bs, i, Blk(a, live[a])), live - {a}, owned)
  {
    var b := Blk(a, live[a]);
    InsertSorted(bs, i, b);
    var r, live' := Insert(bs, i, b), live - {a};
    forall x ensures CoverAt(r, live', owned, x) {
      assert CoverAt(bs, live, owned, x);
      InsertCovers(bs, i, b, x);
      if c :| c in live && InBlk(Blk(c, live[c]), x) && c != a {
        assert LiveApart(live, a, c) && LiveApart(live, c, a);
        assert c in live';
      }
      if c :| c in live' && InBlk(Blk(c, live'[c]), x) {
        assert c in live;
        assert LiveApart(live, a, c) && LiveApart(live, c, a);
      }
    }
    forall c, d ensures LiveApart(live', c, d) {
      assert LiveApart(live, c, d);
    }
    InsertAt(bs, i, b, 0);
  }

  lemma TakeKeeps(bs: seq<Blk>, live: map<int, nat>, owned: iset<int>, j: nat, n: nat)
    requires HeapOk(bs, live, owned) && 1 <= j < |bs| && 1 <= n <= bs[j].units
    ensures Taken(bs, j, n).addr !in live
    ensures HeapOk(Take(bs, j, n), live[Taken(bs, j, n).addr := n], owned)
  {
    var t := Taken(bs, j, n);
    var r, live' := Take(bs, j, n), live[t.addr := n];
    TakeSorted(bs, j, n);
    assert t.addr !in live by {
      assert InBlk(bs[j], t.addr);
      assert CoverAt(bs, live, owned, t.addr);
      assert t.addr in live ==> InBlk(Blk(t.addr, live[t.addr]), t.addr);
    }
    forall x ensures CoverAt(r, live', owned, x) {
      assert CoverAt(bs, live, owned, x);
      TakeCovers(bs, j, n, x);
      LiveAdds(live, t, x);
    }
    forall c, d ensures LiveApart(live', c, d) {
      assert LiveApart(live, c, d);
      if c in live {
        LiveFits(bs, live, owned, c, j);
      }
      if d in live {
        LiveFits(bs, live, owned, d, j);
      }
    }
  }

  lemma LiveAdds(live: map<int, nat>, t: Blk, x: int)
    requires t.addr !in live
    ensures InLive(live[t.addr := t.units], x) <==> InLive(live, x) || InBlk(t, x)
  {
    var live' := live[t.addr := t.units];
    if c :| c in live && InBlk(Blk(c, live[c]), x) {
      assert c in live' && InBlk(Blk(c, live'[c]), x);
    }
    if InBlk(t, x) {
      assert t.addr in live' && InBlk(Blk(t.addr, live'[t.addr]), x);
    }
  }
}
