/** malloc, free and morecore over the headers in memory. */
module Umalloc {
  import opened Common
  import opened Heap

  const MINCORE: nat := 4096

  /** What malloc gives: a payload address, nothing, or, after a request that does not fit in
      sbrk's int argument, a heap whose new block was never granted. */
  datatype Result = Ptr(addr: int) | Null | Corrupt

  /** Units for a request, header included. */
  function Units(nbytes: nat): (n: nat)
    ensures n >= 1 && HDR * (n - 1) >= nbytes && HDR * (n - 1) < nbytes + HDR
  {
    (nbytes + HDR - 1) / HDR + 1
  }

  /** morecore asks for no less than it needs and no less than MINCORE units, and for no more than one of the
      two. */
  function CoreUnits(nu: nat): (r: nat)
    ensures r >= nu && r >= MINCORE && (r == nu || r == MINCORE)
  {
    if nu < MINCORE then MINCORE else nu
  }

  /** The byte count sbrk receives: nu * 16 converted to a 32-bit signed int. */
  function SbrkArg(nu: nat): int {
    var n := nu * HDR % 0x1_0000_0000;
    if n >= 0x8000_0000 then n - 0x1_0000_0000 else n
  }

  /** For every request a uint can express, sbrk is asked for what morecore means exactly when
      the request is at most 2^31 - 32 bytes; above that it is asked to shrink or grow by less. */
  lemma SbrkArgExact(nbytes: nat)
    requires nbytes < 0x1_0000_0000
    ensures SbrkArg(CoreUnits(Units(nbytes))) == HDR * CoreUnits(Units(nbytes)) <==> nbytes <= 0x8000_0000 - 32
    ensures nbytes > 0x8000_0000 - 32 ==> SbrkArg(CoreUnits(Units(nbytes))) < HDR * CoreUnits(Units(nbytes))
  {
  }

  /** Ring distance from just after entry f to entry j. */
  function Dist(n: nat, f: nat, j: nat): nat
    requires f < n && j < n
  {
    if j > f then j - f - 1 else j + n - f - 1
  }

  function Succ(n: nat, k: nat): nat
    requires k < n
  {
    if k + 1 < n then k + 1 else 0
  }

  ghost function Bytes(a: int, n: nat): iset<int> {
    iset x | InBlk(Blk(a, n), x)
  }

  /** A region above everything obtained so far. */
  lemma GrowKeeps(bs: seq<Blk>, live: map<int, nat>, owned: iset<int>, a: int, n: nat)
    requires HeapOk(bs, live, owned) && n > 0 && a >= bs[0].addr + HDR
    requires forall x | x in owned :: x < a
    ensures a !in live && HeapOk(bs, live[a := n], owned + Bytes(a, n))
  {
    var live', owned' := live[a := n], owned + Bytes(a, n);
    forall c | c in live ensures End(Blk(c, live[c])) <= a {
      var last := End(Blk(c, live[c])) - 1;
      assert InBlk(Blk(c, live[c]), last);
      assert CoverAt(bs, live, owned, last);
    }
    forall x ensures CoverAt(bs, live', owned', x) {
      assert CoverAt(bs, live, owned, x);
      LiveAdds(live, Blk(a, n), x);
    }
    forall c, d ensures LiveApart(live', c, d) {
      assert LiveApart(live, c, d);
    }
  }

  class Allocator {
    const base: int
    var ptr: map<int, int>
    var size: map<int, nat>
    var freep: int
    ghost var blocks: seq<Blk>
    ghost var at: nat
    ghost var live: map<int, nat>
    ghost var owned: iset<int>

    /** freep points at ring entry `at`; the headers of live blocks hold their sizes. */
    ghost predicate Valid()
      reads this
    {
      && base > 0
      && (freep == 0 ==> live == map[] && owned == iset{} && blocks == [])
      && (freep != 0 ==>
            && HeapOk(blocks, live, owned) && Linked(blocks, ptr, size) && blocks[0].addr == base
            && at < |blocks| && blocks[at].addr == freep
            && forall a | a in live :: a in size && size[a] == live[a])
    }

    constructor (base: int)
      requires base > 0
      ensures Valid() && live == map[] && owned == iset{}
    {
      this.base := base;
      ptr, size, freep := map[], map[], 0;
      blocks, at, live, owned := [], 0, map[], iset{};
    }

    /** The search loop of free: the ring entry that the block at bp follows. */
    method FindPlace(bp: int) returns (p: int, ghost i: nat)
      requires Valid() && freep != 0 && bp in live
      ensures i < |blocks| && p == blocks[i].addr && Fits(blocks, i, Blk(bp, live[bp]))
    {
      ghost var n: nat, k: nat := |blocks|, at;
      ghost var goal := Place(blocks, live, owned, bp, n);
      p := freep;
      assert LinkedAt(blocks, ptr, size, k);
      while !(bp > p && bp < ptr[p])
        invariant k < n && p == blocks[k].addr && LinkedAt(blocks, ptr, size, k)
        decreases if k <= goal then goal - k else n - k + goal
      {
        assert Apart(blocks, 0, k) && Apart(blocks, k, Succ(n, k)) && Apart(blocks, goal, k)
          && Apart(blocks, k, goal + 1);
        if p >= ptr[p] && (bp > p || bp < ptr[p]) {
          break;
        }
        k := Succ(n, k);
        p := ptr[p];
        assert LinkedAt(blocks, ptr, size, k);
      }
      i := k;
      assert Apart(blocks, 0, k) && Apart(blocks, k, k + 1);
      LiveFits(blocks, live, owned, bp, k);
      LiveFits(blocks, live, owned, bp, Succ(n, k));
      LiveFits(blocks, live, owned, bp, 0);
    }

    /** Link the block at bp in after p, merging it with its neighbours where they touch. */
    method Join(p: int, bp: int)
      requires p in ptr && ptr[p] in ptr && p in size && ptr[p] in size && bp in size && p != bp
      modifies this`ptr, this`size
      ensures ptr == FreePtr(old(ptr), old(size), p, Blk(bp, old(size)[bp]))
      ensures size == FreeSize(old(ptr), old(size), p, Blk(bp, old(size)[bp]))
    {
      if bp + HDR * size[bp] == ptr[p] {
        size := size[bp := size[bp] + size[ptr[p]]];
        ptr := ptr[bp := ptr[ptr[p]]];
      } else {
        ptr := ptr[bp := ptr[p]];
      }
      if p + HDR * size[p] == bp {
        size := size[p := size[p] + size[bp]];
        ptr := ptr[p := ptr[bp]];
      } else {
        ptr := ptr[p := bp];
      }
    }

    /** Give the block with payload ap back. */
    method Free(ap: int)
      requires Valid() && freep != 0 && ap - HDR in live
      modifies this
      ensures Valid() && freep != 0 && live == old(live) - {ap - HDR} && owned == old(owned)
      ensures HasRoom(blocks, old(live)[ap - HDR])
    {
      var bp := ap - HDR;
      var p;
      ghost var i;
      p, i := FindPlace(bp);
      ghost var b := Blk(bp, live[bp]);
      FreeLinks(blocks, ptr, size, i, b);
      FreeKeeps(blocks, live, owned, bp, i);
      assert LinkedAt(blocks, ptr, size, i);
      Join(p, bp);
      freep := p;
      forall a | a in live - {bp} ensures a in size && size[a] == live[a] {
        LiveFits(blocks, live, owned, a, i);
      }
      InsertRoom(blocks, i, b);
      InsertAt(blocks, i, b, i);
      InsertAt(blocks, i, b, 0);
      assert Apart(blocks, 0, i);
      assert freep != 0 && Insert(blocks, i, b)[i].addr == freep && Insert(blocks, i, b)[0].addr == base;
      blocks, at, live := Insert(blocks, i, b), i, live - {bp};
    }

    /** Room for another header and its block above everything obtained so far. */
    ghost predicate Grantable(grant: Option<int>)
      reads this
    {
      grant.Some? ==> grant.value >= base + HDR && forall x | x in owned :: x < grant.value
    }

    /** Ask sbrk for at least nu units and put them on the list; `grant` is sbrk's answer. */
    method Morecore(nu: nat, grant: Option<int>) returns (r: Result)
      requires Valid() && freep != 0 && Grantable(grant) && nu >= 1
      modifies this
      ensures r == if grant.None? then Null else if SbrkArg(CoreUnits(nu)) != HDR * CoreUnits(nu) then Corrupt
        else Ptr(freep)
      ensures r.Null? ==>
        Valid() && freep == old(freep) && live == old(live) && owned == old(owned) && blocks == old(blocks)
      ensures r.Ptr? ==> Valid() && freep != 0 && live == old(live)
      ensures r.Ptr? ==> owned == old(owned) + Bytes(grant.value, CoreUnits(nu)) && HasRoom(blocks, nu)
    {
      var n := CoreUnits(nu);
      if grant.None? {
        return Null;
      }
      if SbrkArg(n) != HDR * n {
        return Corrupt;
      }
      var hp := grant.value;
      GrowKeeps(blocks, live, owned, hp, n);
      size := size[hp := n];
      GrownLinks(blocks, ptr, old(size), live, owned, hp, n);
      live, owned := live[hp := n], owned + Bytes(hp, n);
      Free(hp + HDR);
      assert live == old(live);
      return Ptr(freep);
    }

    /** Cut nunits off ring entry p, whose predecessor is prevp. */
    method TakeFrom(prevp: int, p: int, nunits: nat, ghost j: nat) returns (r: int)
      requires Valid() && freep != 0 && nunits >= 1
      requires 1 <= j < |blocks| && p == blocks[j].addr && prevp == blocks[j - 1].addr && blocks[j].units >= nunits
      modifies this
      ensures Valid() && owned == old(owned)
      ensures r == Taken(old(blocks), j, nunits).addr && r !in old(live) && live == old(live)[r := nunits]
      ensures blocks == Take(old(blocks), j, nunits) && freep == prevp
    {
      TakeKeeps(blocks, live, owned, j, nunits);
      TakeLinks(blocks, ptr, size, j, nunits);
      assert LinkedAt(blocks, ptr, size, j) && LinkedAt(blocks, ptr, size, j - 1);
      forall a | a in live ensures a != p {
        LiveFits(blocks, live, owned, a, j);
      }
      assert Apart(blocks, 0, j - 1);
      r := p;
      if size[p] == nunits {
        ptr := ptr[prevp := ptr[p]];
      } else {
        size := size[p := size[p] - nunits];
        r := p + HDR * size[p];
        size := size[r := nunits];
      }
      freep := prevp;
      blocks, at, live := Take(blocks, j, nunits), j - 1, live[r := nunits];
    }

    /** Before the first malloc: a ring of the static empty block alone. */
    method InitRing()
      requires Valid() && freep == 0
      modifies this
      ensures Valid() && freep != 0 && live == old(live) && owned == old(owned) && blocks == [Blk(base, 0)]
    {
      ptr, size, freep := ptr[base := base], size[base := 0], base;
      blocks, at := [Blk(base, 0)], 0;
      assert LinkedAt(blocks, ptr, size, 0);
    }

    /** First fit from freep.  Memory is asked for only if no free block is large enough, and at
        most once; the payload then holds nbytes bytes that no other block has. */
    method Malloc(nbytes: nat, grant: Option<int>) returns (r: Result)
      requires Valid() && Grantable(grant)
      modifies this
      ensures r.Null? <==> !HasRoom(old(blocks), Units(nbytes)) && grant.None?
      ensures r.Corrupt? <==> !HasRoom(old(blocks), Units(nbytes)) && grant.Some?
                              && SbrkArg(CoreUnits(Units(nbytes))) != HDR * CoreUnits(Units(nbytes))
      ensures !r.Corrupt? ==> Valid()
      ensures r.Null? ==> live == old(live) && owned == old(owned)
      ensures r.Ptr? ==> r.addr - HDR !in old(live) && live == old(live)[r.addr - HDR := Units(nbytes)]
      ensures r.Ptr? ==>
        owned == old(owned) + if HasRoom(old(blocks), Units(nbytes)) then iset{}
          else Bytes(grant.value, CoreUnits(Units(nbytes)))
      ensures r.Ptr? && old(freep) != 0 && HasRoom(old(blocks), Units(nbytes)) ==>
        TookFirst(old(blocks), old(at), blocks, r.addr - HDR, Units(nbytes))
    {
      if freep == 0 {
        InitRing();
      }
      assert HasRoom(blocks, Units(nbytes)) <==> HasRoom(old(blocks), Units(nbytes));
      r := Search(Units(nbytes), grant);
    }

    /** The search is at entry q of the ring and looks at the next one, p. */
    ghost predicate Hunting(q: nat, prevp: int, p: int, nunits: nat)
      reads this
    {
      && Valid() && freep != 0 && q < |blocks| && prevp == blocks[q].addr && p == blocks[Succ(|blocks|, q)].addr
      && Searched(blocks, at, Succ(|blocks|, q), nunits)
    }

    /** malloc's loop, once around the ring: the first block that is large enough, and the one before it. */
    method Scan(nunits: nat) returns (found: bool, prevp: int, p: int, ghost j: nat)
      requires Valid() && freep != 0 && nunits >= 1
      ensures found <==> HasRoom(blocks, nunits)
      ensures found ==> 1 <= j < |blocks| && p == blocks[j].addr && prevp == blocks[j - 1].addr
      ensures found ==> j < |blocks| && Searched(blocks, at, j, nunits) && blocks[j].units >= nunits
    {
      ghost var q: nat := at;
      assert LinkedAt(blocks, ptr, size, q);
      SearchStart(blocks, at, nunits);
      prevp, p := freep, ptr[freep];
      while true
        invariant Hunting(q, prevp, p, nunits)
        decreases |blocks| - Dist(|blocks|, at, Succ(|blocks|, q))
      {
        j := Succ(|blocks|, q);
        assert LinkedAt(blocks, ptr, size, j);
        if size[p] >= nunits {
          return true, prevp, p, j;
        }
        if p == freep {
          Wrapped(blocks, at, j, nunits);
          return false, prevp, p, j;
        }
        SearchNext(blocks, at, j, nunits);
        prevp, p, q := p, ptr[p], j;
      }
    }

    /** The rest of malloc: if no block is large enough it asks for memory and goes around the ring again. */
    method Search(nunits: nat, grant: Option<int>) returns (r: Result)
      requires Valid() && freep != 0 && Grantable(grant) && nunits >= 1
      modifies this
      ensures r.Null? <==> !HasRoom(old(blocks), nunits) && grant.None?
      ensures r.Corrupt? <==> !HasRoom(old(blocks), nunits) && grant.Some?
                              && SbrkArg(CoreUnits(nunits)) != HDR * CoreUnits(nunits)
      ensures !r.Corrupt? ==> Valid()
      ensures r.Null? ==> live == old(live) && owned == old(owned)
      ensures r.Ptr? ==> r.addr - HDR !in old(live) && live == old(live)[r.addr - HDR := nunits]
      ensures r.Ptr? ==>
        owned == old(owned) + if HasRoom(old(blocks), nunits) then iset{} else Bytes(grant.value, CoreUnits(nunits))
      ensures r.Ptr? && HasRoom(old(blocks), nunits) ==> TookFirst(old(blocks), old(at), blocks, r.addr - HDR, nunits)
    {
      var a := TryFirst(nunits);
      if a.None? {
        r := Morecore(nunits, grant);
        if !r.Ptr? {
          return;
        }
        a := TryFirst(nunits);
      }
      r := Ptr(a.value + HDR);
    }

    /** The end of the first block that is large enough, if there is one. */
    method TryFirst(nunits: nat) returns (r: Option<int>)
      requires Valid() && freep != 0 && nunits >= 1
      modifies this
      ensures Valid() && freep != 0 && owned == old(owned) && (r.Some? <==> HasRoom(old(blocks), nunits))
      ensures r.None? ==> live == old(live) && blocks == old(blocks)
      ensures r.Some? ==> r.value !in old(live) && live == old(live)[r.value := nunits]
      ensures r.Some? ==> TookFirst(old(blocks), old(at), blocks, r.value, nunits)
    {
      var found, prevp, p;
      ghost var j;
      found, prevp, p, j := Scan(nunits);
      if !found {
        return None;
      }
      FoundFirst(blocks, at, j, nunits);
      var a := TakeFrom(prevp, p, nunits, j);
      r := Some(a);
    }
  }

  /** The ring entries after `at` and before k are too small. */
  ghost predicate Searched(bs: seq<Blk>, at: nat, k: nat, n: nat) {
    && at < |bs| && k < |bs|
    && forall j | 0 <= j < |bs| && Dist(|bs|, at, j) < Dist(|bs|, at, k) :: bs[j].units < n
  }

  /** Entry j is the first of at least n units on the ring, from the entry after `at` on. */
  predicate FirstFit(bs: seq<Blk>, at: nat, j: nat, n: nat) {
    && at < |bs| && j < |bs| && bs[j].units >= n
    && forall k: nat | k < |bs| && (if j > at then at < k < j else k > at || k < j) :: bs[k].units < n
  }

  /** The block at `addr` was cut off the end of the first entry large enough. */
  ghost predicate TookFirst(bs: seq<Blk>, at: nat, bs': seq<Blk>, addr: int, n: nat) {
    exists j: nat :: FirstFit(bs, at, j, n) && bs' == Take(bs, j, n) && addr == End(bs[j]) - HDR * n
  }

  lemma FoundFirst(bs: seq<Blk>, at: nat, k: nat, n: nat)
    requires Searched(bs, at, k, n) && bs[k].units >= n
    ensures FirstFit(bs, at, k, n)
    ensures TookFirst(bs, at, Take(bs, k, n), Taken(bs, k, n).addr, n)
  {
    forall j: nat | j < |bs| && (if k > at then at < j < k else j > at || j < k) ensures bs[j].units < n {
      assert Dist(|bs|, at, j) < Dist(|bs|, at, k);
    }
  }

  lemma SearchStart(bs: seq<Blk>, at: nat, n: nat)
    requires at < |bs|
    ensures Searched(bs, at, Succ(|bs|, at), n)
  {
  }

  lemma SearchNext(bs: seq<Blk>, at: nat, k: nat, n: nat)
    requires Searched(bs, at, k, n) && bs[k].units < n && bs[k].addr != bs[at].addr
    ensures Searched(bs, at, Succ(|bs|, k), n)
    ensures Dist(|bs|, at, Succ(|bs|, k)) == Dist(|bs|, at, k) + 1
  {
    forall j | 0 <= j < |bs| && Dist(|bs|, at, j) < Dist(|bs|, at, Succ(|bs|, k)) ensures bs[j].units < n {
      assert j == k || Dist(|bs|, at, j) < Dist(|bs|, at, k);
    }
  }

  /** Back at freep, every block has been found too small. */
  lemma Wrapped(bs: seq<Blk>, at: nat, k: nat, n: nat)
    requires Sorted(bs) && Searched(bs, at, k, n) && bs[k].units < n && bs[k].addr == bs[at].addr
    ensures !HasRoom(bs, n)
  {
    assert Apart(bs, k, at) && Apart(bs, at, k);
    forall j | 0 <= j < |bs| ensures bs[j].units < n {
      assert j == k || Dist(|bs|, at, j) < Dist(|bs|, at, k);
    }
  }

  /** The payload holds the bytes asked for, behind the header and inside the block. */
  lemma PayloadFits(a: int, nbytes: nat, x: int)
    requires a + HDR <= x < a + HDR + nbytes
    ensures InBlk(Blk(a, Units(nbytes)), x)
  {
  }

  lemma GrownLinks(bs: seq<Blk>, ptr: map<int, int>, size: map<int, nat>, live: map<int, nat>, owned: iset<int>,
      hp: int, n: nat)
    requires HeapOk(bs, live, owned) && Linked(bs, ptr, size) && hp >= bs[0].addr + HDR
    requires forall x | x in owned :: x < hp
    ensures Linked(bs, ptr, size[hp := n])
  {
    var size' := size[hp := n];
    forall i | 0 <= i < |bs| ensures LinkedAt(bs, ptr, size', i) {
      assert LinkedAt(bs, ptr, size, i);
      assert i > 0 ==> InBlk(bs[i], bs[i].addr);
      assert CoverAt(bs, live, owned, bs[i].addr);
    }
  }

  lemma InsertRoom(bs: seq<Blk>, i: nat, b: Blk)
    requires i < |bs|
    ensures HasRoom(Insert(bs, i, b), b.units)
  {
    var x := if End(bs[i]) == b.addr then i else i + 1;
    InsertAt(bs, i, b, x);
    assert Insert(bs, i, b)[x].units >= b.units;
  }

  ghost predicate HasRoom(bs: seq<Blk>, n: nat) {
    exists j :: 0 <= j < |bs| && bs[j].units >= n
  }

  /** The last list entry below the live block at a. */
  ghost function Place(bs: seq<Blk>, live: map<int, nat>, owned: iset<int>, a: int, n: nat): (i: nat)
    requires HeapOk(bs, live, owned) && a in live && 0 < n <= |bs|
    ensures i < n && bs[i].addr < a && (i + 1 < n ==> a < bs[i + 1].addr)
  {
    LiveFits(bs, live, owned, a, n - 1);
    if n == 1 || bs[n - 1].addr < a then n - 1
    else Place(bs, live, owned, a, n - 1)
  }
}
