/** The disk driver's side of a virtio queue (kernel/virtio_disk.c), against a device that fetches and
    completes requests in any order.

    Each method is one section under vdisk_lock or one action of the device.  `Valid` holds between
    any two of them, so it holds in every interleaving.  The device sees only what is in shared
    memory: the descriptors, the request headers, the rings and their 16-bit indices.
 */
module Virtio {
  import opened Common

  const NUM := 8
  const NEXT := 1    // VRING_DESC_F_NEXT
  const WRITE := 2   // VRING_DESC_F_WRITE
  const WRAP := 0x1_0000

  const SECTOR := 512    // bytes in a sector of the device

  function Zeros(): (b: seq<int>)
    ensures |b| == BSIZE
  {
    seq(BSIZE, _ => 0)
  }

  /** The data of a buffer. */
  type Block = b: seq<int> | |b| == BSIZE witness Zeros()

  datatype Addr = Null | OpOf(i: nat) | DataOf(buf: nat) | StatusOf(i: nat)
  datatype Desc = Desc(addr: Addr, len: nat, flags: nat, next: nat)
  datatype Op = Op(write: bool, sector: nat)
  datatype Info = Info(b: Option<nat>, status: nat)

  datatype Phase = Posted | Taken | Done | Seen

  /** A request on its way: its chain is head, mid, last.  `payload` is what it carries: the buffer's
      data when a write was submitted, the sector's data when a read was done. */
  datatype Req = Req(mid: nat, last: nat, buf: nat, sector: nat, write: bool, phase: Phase, payload: Block)

  /** A block is two sectors; the product is a 32-bit one. */
  function SectorOf(block: nat): nat {
    2 * block % 0x1_0000_0000
  }

  /** Where a block starts on the device, which counts in sectors: at its place, if the product does not
      wrap. */
  lemma SectorExact(block: nat)
    requires block < 0x1_0000_0000
    ensures SectorOf(block) * SECTOR == block * BSIZE <==> block < 0x8000_0000
  {
  }

  /** A block's worth of sectors from this one on are on the device. */
  predicate Fits(disk: seq<int>, sector: nat) {
    sector * SECTOR + BSIZE <= |disk|
  }

  function Content(disk: seq<int>, sector: nat): Block
    requires Fits(disk, sector)
  {
    disk[sector * SECTOR..sector * SECTOR + BSIZE]
  }

  function Stored(disk: seq<int>, sector: nat, b: Block): (r: seq<int>)
    requires Fits(disk, sector)
    ensures |r| == |disk|
  {
    disk[..sector * SECTOR] + b + disk[sector * SECTOR + BSIZE..]
  }

  /** Byte p of the device after a transfer of block b to it. */
  predicate StoredAt(disk: seq<int>, disk': seq<int>, block: nat, b: Block, p: nat) {
    p < |disk| == |disk'| ==>
      disk'[p] == if block * BSIZE <= p < (block + 1) * BSIZE then b[p - block * BSIZE] else disk[p]
  }

  /** A request for a block reaches the bytes of that block and no others: what is written to one block is what
      reading it returns, and no other block changes. */
  lemma BlocksApart(disk: seq<int>, block: nat, b: Block, other: nat)
    requires block < 0x8000_0000 && other < 0x8000_0000
    requires Fits(disk, SectorOf(block)) && Fits(disk, SectorOf(other))
    ensures forall p: nat :: StoredAt(disk, Stored(disk, SectorOf(block), b), block, b, p)
    ensures Content(Stored(disk, SectorOf(block), b), SectorOf(other)) ==
      if other == block then b else Content(disk, SectorOf(other))
  {
    SectorExact(block);
    SectorExact(other);
    var disk', at := Stored(disk, SectorOf(block), b), block * BSIZE;
    forall p: nat ensures StoredAt(disk, disk', block, b, p) {
      if p < |disk| {
        StoredByte(disk, SectorOf(block), b, p);
      }
    }
    var got, want := Content(disk', SectorOf(other)), if other == block then b else Content(disk, SectorOf(other));
    forall i: nat | i < BSIZE ensures got[i] == want[i] {
      assert StoredAt(disk, disk', block, b, other * BSIZE + i);
    }
  }

  lemma StoredByte(disk: seq<int>, sector: nat, b: Block, p: nat)
    requires Fits(disk, sector) && p < |disk|
    ensures Stored(disk, sector, b)[p] ==
      if sector * SECTOR <= p < sector * SECTOR + BSIZE then b[p - sector * SECTOR] else disk[p]
  {
  }

  // ---------- Counting free descriptors ----------

  function CountFree(free: seq<bool>): nat {
    CountTo(free, |free|)
  }

  function CountTo(free: seq<bool>, n: nat): nat
    requires n <= |free|
  {
    if n == 0 then 0 else CountTo(free, n - 1) + if free[n - 1] then 1 else 0
  }

  lemma {:induction false} CountToSet(free: seq<bool>, i: nat, v: bool, n: nat)
    requires i < |free| && free[i] != v && n <= |free|
    ensures CountTo(free[i := v], n) == CountTo(free, n) + if i >= n then 0 else if v then 1 else -1
  {
    if n > 0 {
      CountToSet(free, i, v, n - 1);
    }
  }

  lemma CountSet(free: seq<bool>, i: nat, v: bool)
    requires i < |free| && free[i] != v
    ensures CountFree(free[i := v]) == CountFree(free) + if v then 1 else -1
  {
    CountToSet(free, i, v, |free|);
  }

  lemma {:induction false} CountAlike(free: seq<bool>, v: bool, n: nat)
    requires n <= |free| && forall i | 0 <= i < n :: free[i] == v
    ensures CountTo(free, n) == if v then n else 0
  {
    if n > 0 {
      CountAlike(free, v, n - 1);
    }
  }

  // ---------- Rings ----------

  ghost predicate InRing(ring: seq<nat>, start: nat, q: seq<nat>, k: nat)
    requires |ring| == NUM && k < |q|
  {
    ring[(start + k) % NUM] == q[k]
  }

  /** The entries between two 16-bit indices of a ring. */
  ghost predicate Ring(ring: seq<nat>, start: nat, end: nat, q: seq<nat>) {
    && |ring| == NUM && start < WRAP && |q| <= NUM
    && end == (start + |q|) % WRAP
    && (forall k: nat | k < |q| :: InRing(ring, start, q, k))
  }

  ghost predicate Distinct(q: seq<nat>) {
    forall i: nat, j: nat | i < j < |q| :: q[i] != q[j]
  }

  /** Writing the slot at the end index keeps every pending entry, however often the index wrapped. */
  lemma RingPush(ring: seq<nat>, start: nat, end: nat, q: seq<nat>, h: nat)
    requires Ring(ring, start, end, q) && |q| < NUM
    ensures Ring(ring[end % NUM := h], start, (end + 1) % WRAP, q + [h])
  {
    var r, p := ring[end % NUM := h], q + [h];
    assert end % NUM == (start + |q|) % NUM;
    forall k: nat | k < |p| ensures InRing(r, start, p, k) {
      if k < |q| {
        assert InRing(ring, start, q, k);
        assert (start + k) % NUM != (start + |q|) % NUM;
      }
    }
  }

  lemma RingPop(ring: seq<nat>, start: nat, end: nat, q: seq<nat>)
    requires Ring(ring, start, end, q) && q != []
    ensures start != end && ring[start % NUM] == q[0]
    ensures Ring(ring, (start + 1) % WRAP, end, q[1..])
  {
    assert InRing(ring, start, q, 0);
    var p, t := q[1..], (start + 1) % WRAP;
    forall k: nat | k < |p| ensures InRing(ring, t, p, k) {
      assert InRing(ring, start, q, k + 1);
      assert (t + k) % NUM == (start + (k + 1)) % NUM;
    }
  }

  lemma RingEmpty(ring: seq<nat>, start: nat, end: nat, q: seq<nat>)
    requires Ring(ring, start, end, q)
    ensures q == [] <==> start == end
  {
  }

  /** At most as many entries as there are requests. */
  lemma {:induction false} FewEntries(q: seq<nat>, keys: set<nat>)
    requires Distinct(q) && (forall k: nat | k < |q| :: q[k] in keys)
    ensures |q| <= |keys|
    decreases |q|
  {
    if q != [] {
      var p := q[..|q| - 1];
      FewEntries(p, keys - {q[|q| - 1]});
    }
  }

  // ---------- Requests ----------

  ghost predicate Chain(free: seq<bool>, h: nat, r: Req) {
    && |free| == NUM && h < NUM && r.mid < NUM && r.last < NUM
    && h != r.mid && h != r.last && r.mid != r.last
    && !free[h] && !free[r.mid] && !free[r.last]
  }

  /** The three descriptors of section 5.2 of the virtio 1.1 specification. */
  ghost predicate Described(desc: seq<Desc>, h: nat, r: Req) {
    && |desc| == NUM && h < NUM && r.mid < NUM && r.last < NUM
    && desc[h] == Desc(OpOf(h), 16, NEXT, r.mid)
    && desc[r.mid] == Desc(DataOf(r.buf), BSIZE, if r.write then NEXT else WRITE + NEXT, r.last)
    && desc[r.last] == Desc(StatusOf(h), 1, WRITE, 0)
  }

  ghost predicate Carries(m: Mem, h: nat, r: Req) {
    && |m.ops| == NUM && |m.info| == NUM && h < NUM && r.buf < |m.data|
    && m.ops[h] == Op(r.write, r.sector)
    && m.info[h].b == Some(r.buf)
    && (r.phase.Done? || r.phase.Seen? ==> m.info[h].status == 0 && m.data[r.buf] == r.payload)
    && (r.write ==> m.data[r.buf] == r.payload)
    && (r.buf in m.busy <==> !r.phase.Seen?)
  }

  ghost predicate Apart(h1: nat, r1: Req, h2: nat, r2: Req) {
    h1 != h2 ==> Off(h1, h2, r2) && Off(r1.mid, h2, r2) && Off(r1.last, h2, r2) && r1.buf != r2.buf
  }

  /** Descriptor i is not in the chain of request r. */
  ghost predicate Off(i: nat, h: nat, r: Req) {
    i != h && i != r.mid && i != r.last
  }

  /** What a request is spread over: the descriptors and which are free, the request headers, the driver's
      records, the buffers in use and their data. */
  datatype Mem = Mem(free: seq<bool>, desc: seq<Desc>, ops: seq<Op>, info: seq<Info>, busy: set<nat>, data: seq<Block>)

  ghost predicate GoodReq(m: Mem, h: nat, r: Req) {
    Chain(m.free, h, r) && Described(m.desc, h, r) && Carries(m, h, r)
  }

  /** Every request is described by its own three descriptors, and no descriptor is lost. */
  ghost predicate Requests(m: Mem, live: map<nat, Req>) {
    && |m.free| == NUM && |m.desc| == NUM && |m.ops| == NUM && |m.info| == NUM
    && AllGood(m, live)
    && AllApart(live)
    && CountFree(m.free) + 3 * |live| == NUM
  }

  ghost predicate AllGood(m: Mem, live: map<nat, Req>) {
    forall h: nat :: GoodAt(m, live, h)
  }

  ghost predicate GoodAt(m: Mem, live: map<nat, Req>, h: nat) {
    h in live ==> GoodReq(m, h, live[h])
  }

  ghost predicate AllApart(live: map<nat, Req>) {
    forall h1: nat, h2: nat :: ApartAt(live, h1, h2)
  }

  ghost predicate ApartAt(live: map<nat, Req>, h1: nat, h2: nat) {
    h1 in live && h2 in live ==> Apart(h1, live[h1], h2, live[h2])
  }

  lemma AddApart(live: map<nat, Req>, h: nat, r: Req)
    requires AllApart(live) && h !in live
    requires forall k | k in live :: Apart(k, live[k], h, r) && Apart(h, r, k, live[k])
    ensures AllApart(live[h := r]) && |live[h := r]| == |live| + 1
  {
    var l := live[h := r];
    forall h1: nat, h2: nat ensures ApartAt(l, h1, h2) {
      assert ApartAt(live, h1, h2);
    }
  }

  ghost predicate Queued(live: map<nat, Req>, q: seq<nat>, phase: Phase) {
    && Distinct(q)
    && (forall k: nat | k < |q| :: q[k] in live && live[q[k]].phase == phase)
    && (forall h: nat :: InQueue(live, q, phase, h))
  }

  ghost predicate InQueue(live: map<nat, Req>, q: seq<nat>, phase: Phase, h: nat) {
    h in live && live[h].phase == phase ==> h in q
  }

  /** The two rings with their indices, and the requests between them: the device has taken those before
      `taken` and the driver has seen those before `seen`. */
  datatype RingPair = RingPair(avail: seq<nat>, taken: nat, availIdx: nat, posted: seq<nat>, used: seq<nat>, seen: nat,
    usedIdx: nat, done: seq<nat>)

  /** The rings hold exactly the requests posted and not yet taken, and those done and not yet seen. */
  ghost predicate Rings(x: RingPair, live: map<nat, Req>, disk: seq<int>) {
    && AllOnDisk(live, disk)
    && Ring(x.avail, x.taken, x.availIdx, x.posted) && Queued(live, x.posted, Posted)
    && Ring(x.used, x.seen, x.usedIdx, x.done) && Queued(live, x.done, Done)
  }

  ghost predicate OnDisk(live: map<nat, Req>, disk: seq<int>, h: nat) {
    h in live ==> Fits(disk, live[h].sector)
  }

  ghost predicate AllOnDisk(live: map<nat, Req>, disk: seq<int>) {
    forall h: nat :: OnDisk(live, disk, h)
  }

  lemma OnDiskSet(live: map<nat, Req>, disk: seq<int>, h: nat, r: Req)
    requires AllOnDisk(live, disk) && Fits(disk, r.sector)
    ensures AllOnDisk(live[h := r], disk)
  {
    var l := live[h := r];
    forall k: nat ensures OnDisk(l, disk, k) {
      assert OnDisk(live, disk, k);
    }
  }

  lemma OnDiskKeys(live: map<nat, Req>, disk: seq<int>, disk': seq<int>)
    requires AllOnDisk(live, disk) && |disk'| == |disk|
    ensures AllOnDisk(live, disk')
  {
    forall k: nat ensures OnDisk(live, disk', k) {
      assert OnDisk(live, disk, k);
    }
  }

  class Queue {
    // shared with the device
    var desc: seq<Desc>
    var ops: seq<Op>
    var avail: seq<nat>
    var availIdx: nat
    var used: seq<nat>
    var usedIdx: nat
    var data: seq<Block>
    // the driver's own
    var free: seq<bool>
    var seen: nat          // used_idx
    var info: seq<Info>
    var busy: set<nat>     // the buffers b with b->disk == 1
    // the device's own
    var taken: nat
    var disk: seq<int>
    // requests on their way, by head, and the two queues between driver and device
    ghost var live: map<nat, Req>
    ghost var posted: seq<nat>
    ghost var done: seq<nat>

    ghost predicate Valid()
      reads this
    {
      Requests(Memory(), live) && Rings(Both(), live, disk)
    }

    ghost function Memory(): Mem
      reads this
    {
      Mem(free, desc, ops, info, busy, data)
    }

    ghost function Both(): RingPair
      reads this
    {
      RingPair(avail, taken, availIdx, posted, used, seen, usedIdx, done)
    }

    /** virtio_disk_init, with nothing on its way. */
    constructor (data: seq<Block>, disk: seq<int>)
      ensures Valid() && live == map[] && this.data == data && this.disk == disk
    {
      desc := seq(NUM, _ => Desc(Null, 0, 0, 0));
      ops := seq(NUM, _ => Op(false, 0));
      avail, availIdx := seq(NUM, _ => 0), 0;
      used, usedIdx := seq(NUM, _ => 0), 0;
      free := seq(NUM, _ => true);
      seen, taken := 0, 0;
      info := seq(NUM, _ => Info(None, 0));
      busy := {};
      this.data, this.disk := data, disk;
      live, posted, done := map[], [], [];
      new;
      CountAlike(free, true, |free|);
    }

    /** alloc_desc: the first free descriptor. */
    method AllocDesc() returns (r: Option<nat>)
      modifies this`free
      ensures r.None? ==> free == old(free) && CountFree(free) == 0
      ensures |free| == |old(free)|
      ensures r.Some? ==> r.value < |free| && old(free)[r.value] && free == old(free)[r.value := false]
      ensures r.Some? ==> CountFree(free) == CountFree(old(free)) - 1
      ensures r.Some? ==> forall i | 0 <= i < r.value :: !old(free)[i]
    {
      var i := 0;
      while i < |free|
        invariant 0 <= i <= |free| && free == old(free)
        invariant forall k | 0 <= k < i :: !free[k]
      {
        if free[i] {
          CountSet(free, i, false);
          free := free[i := false];
          return Some(i);
        }
        i := i + 1;
      }
      CountAlike(free, false, |free|);
      r := None;
    }

    /** free_desc; false stands for its two panics, an index out of range and a free descriptor. */
    method FreeDesc(i: nat) returns (ok: bool)
      requires |desc| == |free| == NUM
      modifies this`free, this`desc
      ensures ok <==> i < NUM && !old(free)[i]
      ensures !ok ==> free == old(free) && desc == old(desc)
      ensures ok ==> free == old(free)[i := true] && desc == old(desc)[i := Desc(Null, 0, 0, 0)]
      ensures ok ==> CountFree(free) == CountFree(old(free)) + 1
    {
      if i >= NUM || free[i] {
        return false;
      }
      ok := true;
      CountSet(free, i, true);
      desc := desc[i := Desc(Null, 0, 0, 0)];
      free := free[i := true];
    }

    /** alloc3_desc: three descriptors, or none taken. */
    method Alloc3() returns (idx: seq<nat>)
      requires |desc| == |free| == NUM
      modifies this`free, this`desc
      ensures |desc| == |free| == NUM
      ensures |idx| == if CountFree(old(free)) >= 3 then 3 else 0
      ensures Took(old(free), free, idx)
      ensures forall i | 0 <= i < NUM && !free[i] :: desc[i] == old(desc)[i]
    {
      idx := [];
      for i := 0 to 3
        invariant |idx| == i && |free| == NUM && desc == old(desc)
        invariant Took(old(free), free, idx)
      {
        ghost var before := free;
        var d := AllocDesc();
        if d.None? {
          assert idx[0..] == idx;
          for j := 0 to i
            invariant |desc| == |free| == NUM && Took(old(free), free, idx[j..])
            invariant forall k | 0 <= k < NUM && !old(free)[k] :: desc[k] == old(desc)[k]
          {
            TookGive(old(free), free, idx[j..]);
            assert idx[j..][0] == idx[j] && idx[j..][1..] == idx[j + 1..];
            var ok := FreeDesc(idx[j]);
            assert ok;
          }
          assert idx[i..] == [];
          SameFree(old(free), free);
          return [];
        }
        TookMore(old(free), before, idx, d.value);
        idx := idx + [d.value];
      }
    }

    /** free_chain: follows the NEXT flags, giving every descriptor of the chain back once. */
    method FreeChain(head: nat, ghost chain: seq<nat>)
      requires |desc| == |free| == NUM && Linked(desc, chain) && chain[0] == head
      requires Distinct(chain) && forall k: nat | k < |chain| :: !free[chain[k]]
      modifies this`free, this`desc
      ensures |desc| == |free| == NUM
      ensures Took(free, old(free), chain)
      ensures forall i: nat | i < NUM :: Kept(old(desc), desc, chain, i)
    {
      var i := head;
      ghost var k := 0;
      while true
        invariant k < |chain| && i == chain[k] && |desc| == |free| == NUM
        invariant Took(free, old(free), chain[..k])
        invariant forall j: nat | j < NUM :: Kept(old(desc), desc, chain[..k], j)
        decreases |chain| - k
      {
        assert i !in chain[..k] && Kept(old(desc), desc, chain[..k], i) && Kept(free, old(free), chain[..k], i);
        ghost var desc0 := desc;
        var flag, nxt := desc[i].flags, desc[i].next;
        assert LinkedAt(old(desc), chain, k);
        GiveMore(free, old(free), chain[..k], i);
        var ok := FreeDesc(i);
        assert ok;
        assert chain[..k] + [i] == chain[..k + 1];
        ghost var part := chain[..k + 1];
        forall j: nat | j < NUM ensures Kept(old(desc), desc, part, j) {
          assert Kept(old(desc), desc0, chain[..k], j);
        }
        k := k + 1;
        if flag % 2 == NEXT {
          i := nxt;
        } else {
          break;
        }
      }
      assert chain[..k] == chain;
    }

    /** The first section of virtio_disk_rw: with three descriptors it posts the request and waits;
        without them it sleeps and tries again.  The caller holds the buffer's lock, so the buffer
        is in no other request. */
    method Submit(buf: nat, block: nat, write: bool) returns (head: Option<nat>)
      requires Valid() && buf < |data| && Fits(disk, SectorOf(block))
      requires forall h | h in live :: live[h].buf != buf
      modifies this`free, this`desc, this`ops, this`info, this`busy, this`avail, this`availIdx, this`live, this`posted
      ensures Valid()
      ensures head.Some? <==> CountFree(old(free)) >= 3
      ensures head.None? ==> live == old(live) && posted == old(posted) && busy == old(busy)
      ensures head.Some? ==> head.value !in old(live) && posted == old(posted) + [head.value] && buf in busy
      ensures head.Some? ==>
        head.value in live && New(live[head.value], buf, SectorOf(block), write, data)
          && live == old(live)[head.value := live[head.value]]
      ensures head.Some? && block < 0x8000_0000 ==>
        head.value in live && live[head.value].sector * SECTOR == block * BSIZE
    {
      Room(live, posted);
      var sector := SectorOf(block);
      if block < 0x8000_0000 {
        SectorExact(block);
      }
      var idx := Prepare(buf, sector, write);
      if idx == [] {
        return None;
      }
      Post(idx[0], Req(idx[1], idx[2], buf, sector, write, Posted, data[buf]));
      head := Some(idx[0]);
    }

    /** Allocates and formats the chain of a new request. */
    method Prepare(buf: nat, sector: nat, write: bool) returns (idx: seq<nat>)
      requires Requests(Memory(), live) && buf < |data|
      requires forall h | h in live :: live[h].buf != buf
      modifies this`free, this`desc, this`ops, this`info, this`busy
      ensures |idx| == if CountFree(old(free)) >= 3 then 3 else 0
      ensures idx == [] ==> Requests(Memory(), live) && busy == old(busy)
      ensures idx != [] ==> buf in busy && idx[0] !in live
      ensures idx != [] ==>
        Requests(Memory(), live[idx[0] := Req(idx[1], idx[2], buf, sector, write, Posted, data[buf])])
    {
      ghost var m0 := Memory();
      idx := Alloc3();
      ghost var m1 := Memory();
      if idx == [] {
        SameFree(m0.free, free);
        SameRequests(m0, m1, live);
        return;
      }
      Format(idx, buf, sector, write);
      AddRequest(m0, m1, Memory(), live, idx, Req(idx[1], idx[2], buf, sector, write, Posted, data[buf]));
    }

    /** Puts the head of a new chain into the available ring. */
    method Post(h: nat, ghost r: Req)
      requires Rings(Both(), live, disk)
      requires h !in live && |posted| < NUM && r.phase == Posted && Fits(disk, r.sector)
      modifies this`avail, this`availIdx, this`live, this`posted
      ensures Rings(Both(), live, disk)
      ensures live == old(live)[h := r] && posted == old(posted) + [h]
    {
      RingPush(avail, taken, availIdx, posted, h);
      AddQueued(live, posted, h, r);
      OtherQueued(live, done, Done, h, r);
      OnDiskSet(live, disk, h, r);
      avail := avail[availIdx % NUM := h];
      availIdx := (availIdx + 1) % WRAP;
      live, posted := live[h := r], posted + [h];
    }

    /** The device fetches the next available chain. */
    method Fetch() returns (head: Option<nat>)
      requires Valid()
      modifies this`taken, this`live, this`posted
      ensures Valid()
      ensures head.None? <==> old(posted) == []
      ensures head.None? ==> live == old(live) && posted == old(posted)
      ensures head.Some? ==> head.value == old(posted)[0] && posted == old(posted)[1..]
      ensures head.Some? ==>
        head.value in old(live) && live == old(live)[head.value := old(live)[head.value].(phase := Taken)]
    {
      RingEmpty(avail, taken, availIdx, posted);
      if taken == availIdx {
        return None;
      }
      ghost var x := Both();
      FetchRings(x, live, disk);
      var h := avail[taken % NUM];
      ghost var r := live[h].(phase := Taken);
      TakeRequest(Memory(), live, h);
      taken := (taken + 1) % WRAP;
      live, posted := live[h := r], posted[1..];
      assert Both() == x.(taken := taken, posted := posted);
      head := Some(h);
    }

    /** The device completes a request it has fetched, in any order: all it knows is in the descriptors. */
    method Complete(h: nat)
      requires Valid() && h in live && live[h].phase.Taken?
      modifies this`disk, this`data, this`info, this`used, this`usedIdx, this`live, this`done
      ensures Valid()
      ensures var r := old(live)[h];
        && r.buf < |old(data)| && Fits(old(disk), r.sector)
        && disk == (if r.write then Stored(old(disk), r.sector, old(data)[r.buf]) else old(disk))
        && data == (if r.write then old(data) else old(data)[r.buf := Content(old(disk), r.sector)])
        && live == old(live)[h := r.(phase := Done, payload := data[r.buf])]
      ensures done == old(done) + [h]
    {
      ghost var disk0 := disk;
      assert OnDisk(live, disk, h);
      ghost var r := Transfer(h);
      OnDiskKeys(live, disk0, disk);
      Return(h, r);
    }

    /** The device carries out the request whose chain starts at h. */
    method Transfer(h: nat) returns (ghost r: Req)
      requires Requests(Memory(), live) && h in live && live[h].phase.Taken?
        && Fits(disk, live[h].sector)
      modifies this`disk, this`data, this`info
      ensures Requests(Memory(), live[h := r]) && |disk| == |old(disk)|
      ensures live[h].buf < |old(data)| == |data|
      ensures disk == if live[h].write then Stored(old(disk), live[h].sector, old(data)[live[h].buf]) else old(disk)
      ensures data == if live[h].write then old(data) else old(data)[live[h].buf := Content(old(disk), live[h].sector)]
      ensures r == live[h].(phase := Done, payload := data[live[h].buf])
    {
      assert GoodAt(Memory(), live, h);
      ghost var m0, r0 := Memory(), live[h];
      var header := desc[h];
      var body := desc[header.next];
      var status := desc[body.next];
      var op := ops[header.addr.i];
      if op.write {
        disk := Stored(disk, op.sector, data[body.addr.buf]);
      } else {
        data := data[body.addr.buf := Content(disk, op.sector)];
      }
      info := info[status.addr.i := info[status.addr.i].(status := 0)];
      r := r0.(phase := Done, payload := data[r0.buf]);
      SetRequest(m0, Memory(), live, h, r);
    }

    /** The device puts a chain into the used ring. */
    method Return(h: nat, ghost r: Req)
      requires Rings(Both(), live, disk) && 3 * |live| <= NUM
      requires h in live && live[h].phase.Taken? && r.phase == Done && Fits(disk, r.sector)
      modifies this`used, this`usedIdx, this`live, this`done
      ensures Rings(Both(), live, disk)
      ensures live == old(live)[h := r] && done == old(done) + [h]
    {
      Room(live, done);
      RingPush(used, seen, usedIdx, done, h);
      AddQueued(live, done, h, r);
      OtherQueued(live, posted, Posted, h, r);
      OnDiskSet(live, disk, h, r);
      used := used[usedIdx % NUM := h];
      usedIdx := (usedIdx + 1) % WRAP;
      live, done := live[h := r], done + [h];
    }

    /** virtio_disk_intr: every entry in the used ring names a completed request with status 0. */
    method Intr()
      requires Valid()
      modifies this`busy, this`seen, this`live, this`done
      ensures Valid() && done == []
      ensures live.Keys == old(live).Keys && MarkedAll(old(live), live, old(done))
    {
      RingEmpty(used, seen, usedIdx, done);
      ghost var before: seq<nat> := [];
      while seen != usedIdx
        invariant Valid() && (done == [] <==> seen == usedIdx) && before + done == old(done)
        invariant live.Keys == old(live).Keys && MarkedAll(old(live), live, before)
        decreases |done|
      {
        before := SeeNext(old(live), old(done), before);
      }
      assert before == old(done);
    }

    /** One entry of the used ring, after those in `before`. */
    method SeeNext(ghost live0: map<nat, Req>, ghost done0: seq<nat>, ghost before: seq<nat>)
      returns (ghost more: seq<nat>)
      requires Valid() && done != [] && before + done == done0
      requires live.Keys == live0.Keys && MarkedAll(live0, live, before)
      modifies this`busy, this`seen, this`live, this`done
      ensures Valid() && (done == [] <==> seen == usedIdx) && |done| < |old(done)| && more + done == done0
      ensures live.Keys == live0.Keys && MarkedAll(live0, live, more)
    {
      assert done[0] in live;
      MarkMore(live0, live, before, done[0]);
      more := before + [done[0]];
      See();
      RingEmpty(used, seen, usedIdx, done);
    }

    /** One entry of the used ring. */
    method See()
      requires Valid() && done != []
      modifies this`busy, this`seen, this`live, this`done
      ensures Valid() && done == old(done)[1..]
      ensures old(done)[0] in old(live) && live == old(live)[old(done)[0] := old(live)[old(done)[0]].(phase := Seen)]
    {
      ghost var m, x := Memory(), Both();
      SeeRings(x, live, disk);
      var id := used[seen % NUM];
      ghost var r := live[id].(phase := Seen);
      SeeRequest(m, live, id);
      assert info[id].status == 0;
      busy := busy - {info[id].b.value};
      seen := (seen + 1) % WRAP;
      live, done := live[id := r], done[1..];
      assert Memory() == m.(busy := busy) && Both() == x.(seen := seen, done := done);
    }

    /** The last section of virtio_disk_rw, which it enters only when b->disk is 0.  The device has then
        completed this request, the buffer holds what the request carried, and the chain's descriptors
        are free again. */
    method Finish(h: nat)
      requires Valid() && h in live && live[h].buf !in busy
      modifies this`info, this`free, this`desc, this`live
      ensures Valid() && live == old(live) - {h}
      ensures old(live)[h].phase.Seen?
      ensures old(live)[h].buf < |data| && data[old(live)[h].buf] == old(live)[h].payload
      ensures CountFree(free) == CountFree(old(free)) + 3
    {
      Unchain(h);
      DropRings(Both(), live, disk, h);
      live := live - {h};
    }

    /** Gives the chain of a request back. */
    method Unchain(h: nat)
      requires Requests(Memory(), live) && h in live && live[h].buf !in busy
      modifies this`info, this`free, this`desc
      ensures Requests(Memory(), live - {h})
      ensures live[h].phase.Seen? && live[h].buf < |data| && data[live[h].buf] == live[h].payload
      ensures CountFree(free) == CountFree(old(free)) + 3
    {
      assert GoodAt(Memory(), live, h);
      ghost var r, m0 := live[h], Memory();
      ghost var chain := [h, r.mid, r.last];
      assert LinkedAt(desc, chain, 0) && LinkedAt(desc, chain, 1) && LinkedAt(desc, chain, 2);
      info := info[h := info[h].(b := None)];
      FreeChain(h, chain);
      DropRequest(m0, Memory(), live, h);
    }

    /** Fills in the request header and the three descriptors, and records the buffer. */
    method Format(idx: seq<nat>, buf: nat, sector: nat, write: bool)
      requires |desc| == |ops| == |info| == NUM && |idx| == 3 && Distinct(idx) && forall k: nat | k < 3 :: idx[k] < NUM
      modifies this`desc, this`ops, this`info, this`busy
      ensures desc == Formatted(old(desc), idx, buf, write)
      ensures ops == old(ops)[idx[0] := Op(write, sector)]
      ensures info == old(info)[idx[0] := Info(Some(buf), 0xff)]
      ensures busy == old(busy) + {buf}
    {
      ops := ops[idx[0] := Op(write, sector)];
      desc := desc[idx[0] := Desc(OpOf(idx[0]), 16, NEXT, idx[1])];
      var flags := if write then 0 else WRITE;
      desc := desc[idx[1] := Desc(DataOf(buf), BSIZE, flags + NEXT, idx[2])];
      info := info[idx[0] := info[idx[0]].(status := 0xff)];
      desc := desc[idx[2] := Desc(StatusOf(idx[0]), 1, WRITE, 0)];
      busy := busy + {buf};
      info := info[idx[0] := info[idx[0]].(b := Some(buf))];
    }
  }

  ghost function Formatted(desc: seq<Desc>, idx: seq<nat>, buf: nat, write: bool): seq<Desc>
    requires |desc| == NUM && |idx| == 3 && forall k: nat | k < 3 :: idx[k] < NUM
  {
    desc[idx[0] := Desc(OpOf(idx[0]), 16, NEXT, idx[1])]
        [idx[1] := Desc(DataOf(buf), BSIZE, if write then NEXT else WRITE + NEXT, idx[2])]
        [idx[2] := Desc(StatusOf(idx[0]), 1, WRITE, 0)]
  }

  /** Descriptors that are free do not matter. */
  lemma SameRequests(m0: Mem, m: Mem, live: map<nat, Req>)
    requires Requests(m0, live) && m == m0.(desc := m.desc) && |m.desc| == NUM
    requires forall i | 0 <= i < NUM && !m.free[i] :: m.desc[i] == m0.desc[i]
    ensures Requests(m, live)
  {
    forall h: nat ensures GoodAt(m, live, h) {
      assert GoodAt(m0, live, h);
    }
  }

  /** The three free descriptors idx, taken between m0 and m1, become the chain of a new request r in m. */
  ghost predicate Adds(m0: Mem, m1: Mem, m: Mem, idx: seq<nat>, r: Req) {
    && |m0.free| == |m0.desc| == |m1.desc| == |m0.ops| == |m0.info| == NUM
    && m1 == m0.(free := m1.free, desc := m1.desc) && |idx| == 3 && Took(m0.free, m1.free, idx)
    && (forall i | 0 <= i < NUM && !m1.free[i] :: m1.desc[i] == m0.desc[i])
    && r.buf < |m0.data| && r == Req(idx[1], idx[2], r.buf, r.sector, r.write, Posted, m0.data[r.buf])
    && m == m1.(desc := Formatted(m1.desc, idx, r.buf, r.write), ops := m0.ops[idx[0] := Op(r.write, r.sector)],
         info := m0.info[idx[0] := Info(Some(r.buf), 0xff)], busy := m0.busy + {r.buf})
  }

  lemma NewRequest(m0: Mem, m1: Mem, m: Mem, idx: seq<nat>, r: Req)
    requires Adds(m0, m1, m, idx, r)
    ensures GoodReq(m, idx[0], r)
  {
    assert idx[0] != idx[1] && idx[0] != idx[2] && idx[1] != idx[2];
  }

  lemma OldRequest(m0: Mem, m1: Mem, m: Mem, idx: seq<nat>, r: Req, h: nat, q: Req)
    requires Adds(m0, m1, m, idx, r)
    requires GoodReq(m0, h, q) && q.buf != r.buf
    ensures h != idx[0] && GoodReq(m, h, q) && Apart(h, q, idx[0], r) && Apart(idx[0], r, h, q)
  {
    StillChain(m0.free, m.free, idx, h, q);
    assert Untouched(m1, m, idx, h) && Untouched(m1, m, idx, q.mid) && Untouched(m1, m, idx, q.last);
  }

  ghost predicate Untouched(m1: Mem, m: Mem, idx: seq<nat>, i: nat) {
    i !in idx && i < |m1.desc| && i < |m.desc| && m.desc[i] == m1.desc[i]
  }

  lemma AddRequest(m0: Mem, m1: Mem, m: Mem, live: map<nat, Req>, idx: seq<nat>, r: Req)
    requires Requests(m0, live) && Adds(m0, m1, m, idx, r)
    requires forall h | h in live :: live[h].buf != r.buf
    ensures idx[0] !in live && Requests(m, live[idx[0] := r])
  {
    NewRequest(m0, m1, m, idx, r);
    var l := live[idx[0] := r];
    forall h | h in live ensures h != idx[0] && GoodReq(m, h, live[h])
      && Apart(h, live[h], idx[0], r) && Apart(idx[0], r, h, live[h]) {
      assert GoodAt(m0, live, h);
      OldRequest(m0, m1, m, idx, r, h, live[h]);
    }
    forall h: nat ensures GoodAt(m, l, h) {
    }
    AddApart(live, idx[0], r);
  }

  lemma Room(live: map<nat, Req>, q: seq<nat>)
    requires 3 * |live| <= NUM && Distinct(q) && forall k: nat | k < |q| :: q[k] in live
    ensures |q| < NUM
  {
    FewEntries(q, live.Keys);
    assert |live.Keys| == |live|;
  }

  /** The requests in q have been seen; the others are as they were. */
  ghost predicate MarkedAll(before: map<nat, Req>, after: map<nat, Req>, q: seq<nat>) {
    forall h: nat :: MarkedAt(before, after, q, h)
  }

  ghost predicate MarkedAt(before: map<nat, Req>, after: map<nat, Req>, q: seq<nat>, h: nat) {
    h in before && h in after ==> after[h] == if h in q then before[h].(phase := Seen) else before[h]
  }

  lemma MarkMore(before: map<nat, Req>, after: map<nat, Req>, q: seq<nat>, id: nat)
    requires MarkedAll(before, after, q) && id in before && id in after
    ensures MarkedAll(before, after[id := after[id].(phase := Seen)], q + [id])
  {
    var a, p := after[id := after[id].(phase := Seen)], q + [id];
    forall h: nat ensures MarkedAt(before, a, p, h) {
      assert MarkedAt(before, after, q, h);
    }
  }

  /** The same chain, further along: only its own status, buffer and flag may change. */
  lemma SetRequest(m0: Mem, m: Mem, live: map<nat, Req>, h: nat, r: Req)
    requires Requests(m0, live) && h in live && m == m0.(info := m.info, busy := m.busy, data := m.data)
    requires |m.info| == NUM && |m.data| == |m0.data|
    requires r == live[h].(phase := r.phase, payload := r.payload)
    requires forall i: nat | i < NUM :: i != h ==> m.info[i] == m0.info[i]
    requires forall i: nat | i < |m.data| :: i != r.buf ==> m.data[i] == m0.data[i]
    requires forall b :: b != r.buf ==> (b in m.busy <==> b in m0.busy)
    requires Carries(m, h, r)
    ensures Requests(m, live[h := r])
  {
    var l := live[h := r];
    assert l.Keys == live.Keys;
    assert |l| == |live| by { assert |l.Keys| == |l| && |live.Keys| == |live|; }
    forall k: nat ensures GoodAt(m, l, k) {
      assert GoodAt(m0, live, k) && GoodAt(m0, live, h) && ApartAt(live, h, k);
    }
    forall h1: nat, h2: nat ensures ApartAt(l, h1, h2) {
      assert ApartAt(live, h1, h2);
    }
  }

  lemma TakeRequest(m: Mem, live: map<nat, Req>, h: nat)
    requires Requests(m, live) && h in live && live[h].phase == Posted
    ensures Requests(m, live[h := live[h].(phase := Taken)])
  {
    assert GoodAt(m, live, h);
    SetRequest(m, m, live, h, live[h].(phase := Taken));
  }

  /** A finished request has status 0 and its buffer on record. */
  lemma SeeRequest(m: Mem, live: map<nat, Req>, h: nat)
    requires Requests(m, live) && h in live && live[h].phase == Done
    ensures h < NUM && m.info[h].b == Some(live[h].buf) && m.info[h].status == 0
    ensures Requests(m.(busy := m.busy - {live[h].buf}), live[h := live[h].(phase := Seen)])
  {
    assert GoodAt(m, live, h);
    SetRequest(m, m.(busy := m.busy - {live[h].buf}), live, h, live[h].(phase := Seen));
  }

  /** A chain given back. */
  lemma DropRequest(m0: Mem, m: Mem, live: map<nat, Req>, h: nat)
    requires Requests(m0, live) && h in live && m == m0.(free := m.free, desc := m.desc, info := m.info)
    requires |m.desc| == |m.info| == NUM && Took(m.free, m0.free, [h, live[h].mid, live[h].last])
    requires forall i: nat | i < NUM :: Kept(m0.desc, m.desc, [h, live[h].mid, live[h].last], i)
    requires forall i: nat | i < NUM :: i != h ==> m.info[i] == m0.info[i]
    ensures Requests(m, live - {h})
  {
    var l, r := live - {h}, live[h];
    var chain := [h, r.mid, r.last];
    assert l.Keys == live.Keys - {h};
    assert |l| == |live| - 1 by { assert |l.Keys| == |l| && |live.Keys| == |live|; }
    forall k: nat ensures GoodAt(m, l, k) {
      if k in l {
        assert GoodAt(m0, live, k) && ApartAt(live, h, k);
        OffChain(m.free, m0.free, chain, k, live[k]);
        assert Kept(m0.desc, m.desc, chain, k) && Kept(m0.desc, m.desc, chain, live[k].mid)
          && Kept(m0.desc, m.desc, chain, live[k].last);
      }
    }
    forall h1: nat, h2: nat ensures ApartAt(l, h1, h2) {
      assert ApartAt(live, h1, h2);
    }
  }

  lemma OffChain(free: seq<bool>, free0: seq<bool>, chain: seq<nat>, k: nat, q: Req)
    requires Took(free, free0, chain) && Chain(free0, k, q) && Misses(k, q, chain)
    ensures Chain(free, k, q)
  {
    assert Kept(free, free0, chain, k) && Kept(free, free0, chain, q.mid) && Kept(free, free0, chain, q.last);
  }

  /** The device has fetched the first posted request. */
  lemma FetchRings(x: RingPair, live: map<nat, Req>, disk: seq<int>)
    requires Rings(x, live, disk) && x.posted != []
    ensures x.posted[0] in live && x.avail[x.taken % NUM] == x.posted[0]
    ensures live[x.posted[0]].phase == Posted
    ensures Rings(x.(taken := (x.taken + 1) % WRAP, posted := x.posted[1..]),
      live[x.posted[0] := live[x.posted[0]].(phase := Taken)], disk)
  {
    RingPop(x.avail, x.taken, x.availIdx, x.posted);
    assert live[x.posted[0]].phase == Posted;
    var r := live[x.posted[0]].(phase := Taken);
    PopQueued(live, x.posted, Posted, r);
    OtherQueued(live, x.done, Done, x.posted[0], r);
    assert OnDisk(live, disk, x.posted[0]);
    OnDiskSet(live, disk, x.posted[0], r);
  }

  /** The driver has seen the first finished request. */
  lemma SeeRings(x: RingPair, live: map<nat, Req>, disk: seq<int>)
    requires Rings(x, live, disk) && x.done != []
    ensures x.done[0] in live && x.used[x.seen % NUM] == x.done[0]
    ensures live[x.done[0]].phase == Done
    ensures Rings(x.(seen := (x.seen + 1) % WRAP, done := x.done[1..]),
      live[x.done[0] := live[x.done[0]].(phase := Seen)], disk)
  {
    RingPop(x.used, x.seen, x.usedIdx, x.done);
    assert live[x.done[0]].phase == Done;
    var r := live[x.done[0]].(phase := Seen);
    PopQueued(live, x.done, Done, r);
    OtherQueued(live, x.posted, Posted, x.done[0], r);
    assert OnDisk(live, disk, x.done[0]);
    OnDiskSet(live, disk, x.done[0], r);
  }

  lemma DropRings(x: RingPair, live: map<nat, Req>, disk: seq<int>, h: nat)
    requires Rings(x, live, disk) && h in live && live[h].phase == Seen
    ensures Rings(x, live - {h}, disk)
  {
    DropQueued(live, x.posted, Posted, h);
    DropQueued(live, x.done, Done, h);
    var l := live - {h};
    forall k: nat ensures OnDisk(l, disk, k) {
      assert OnDisk(live, disk, k);
    }
  }

  lemma DropQueued(live: map<nat, Req>, q: seq<nat>, phase: Phase, h: nat)
    requires Queued(live, q, phase) && h in live && live[h].phase != phase
    ensures Queued(live - {h}, q, phase)
  {
    var l := live - {h};
    forall k: nat ensures InQueue(l, q, phase, k) {
      assert InQueue(live, q, phase, k);
    }
  }

  lemma AddQueued(live: map<nat, Req>, q: seq<nat>, h: nat, r: Req)
    requires Queued(live, q, r.phase) && (h in live ==> live[h].phase != r.phase)
    ensures Queued(live[h := r], q + [h], r.phase)
  {
    var l, p := live[h := r], q + [h];
    forall k: nat ensures InQueue(l, p, r.phase, k) {
      assert InQueue(live, q, r.phase, k);
    }
  }

  lemma PopQueued(live: map<nat, Req>, q: seq<nat>, phase: Phase, r: Req)
    requires Queued(live, q, phase) && q != [] && r.phase != phase
    ensures q[0] in live && live[q[0]].phase == phase
    ensures Queued(live[q[0] := r], q[1..], phase)
  {
    var l, p := live[q[0] := r], q[1..];
    forall k: nat ensures InQueue(l, p, phase, k) {
      assert InQueue(live, q, phase, k);
      assert k in q ==> k == q[0] || k in p;
    }
  }

  lemma OtherQueued(live: map<nat, Req>, q: seq<nat>, phase: Phase, h: nat, r: Req)
    requires Queued(live, q, phase) && r.phase != phase && (h in live ==> live[h].phase != phase)
    ensures Queued(live[h := r], q, phase)
  {
    var l := live[h := r];
    forall k: nat ensures InQueue(l, q, phase, k) {
      assert InQueue(live, q, phase, k);
    }
  }

  /** A request just submitted. */
  ghost predicate New(r: Req, buf: nat, sector: nat, write: bool, data: seq<Block>) {
    buf < |data| && r == Req(r.mid, r.last, buf, sector, write, Posted, data[buf])
  }

  predicate LinkedAt(desc: seq<Desc>, chain: seq<nat>, k: nat)
    requires k < |chain| && chain[k] < |desc|
  {
    var d := desc[chain[k]];
    if k + 1 < |chain| then d.flags % 2 == NEXT && d.next == chain[k + 1] else d.flags % 2 != NEXT
  }

  ghost predicate Linked(desc: seq<Desc>, chain: seq<nat>) {
    && chain != []
    && (forall k: nat | k < |chain| :: chain[k] < |desc|)
    && (forall k: nat | k < |chain| :: LinkedAt(desc, chain, k))
  }

  ghost predicate Misses(h: nat, r: Req, idx: seq<nat>) {
    h !in idx && r.mid !in idx && r.last !in idx
  }

  lemma StillChain(before: seq<bool>, after: seq<bool>, idx: seq<nat>, h: nat, r: Req)
    requires Chain(before, h, r) && Took(before, after, idx)
    ensures Chain(after, h, r) && Misses(h, r, idx)
  {
    assert Kept(before, after, idx, h) && Kept(before, after, idx, r.mid) && Kept(before, after, idx, r.last);
  }

  lemma GiveMore(before: seq<bool>, after: seq<bool>, idx: seq<nat>, i: nat)
    requires Took(before, after, idx) && i < |before| && !before[i]
    ensures Took(before[i := true], after, idx + [i])
  {
    CountSet(before, i, true);
    var b, t := before[i := true], idx + [i];
    assert i !in idx && Kept(before, after, idx, i);
    forall k: nat | k < |t| ensures t[k] < |b| && b[t[k]] && !after[t[k]] {
      assert k < |idx| ==> t[k] == idx[k];
    }
    forall j: nat | j < |b| ensures Kept(b, after, t, j) {
      assert Kept(before, after, idx, j);
    }
  }

  ghost predicate Kept<T>(before: seq<T>, after: seq<T>, idx: seq<nat>, i: nat) {
    i < |before| && i < |after| && (i in idx || after[i] == before[i])
  }

  /** Taking the descriptors idx, all of them free, leads from before to after. */
  ghost predicate Took(before: seq<bool>, after: seq<bool>, idx: seq<nat>) {
    && |before| == |after| && Distinct(idx)
    && (forall k: nat | k < |idx| :: idx[k] < |before| && before[idx[k]] && !after[idx[k]])
    && (forall i: nat | i < |before| :: Kept(before, after, idx, i))
    && CountFree(after) + |idx| == CountFree(before)
  }

  lemma SameFree(before: seq<bool>, after: seq<bool>)
    requires Took(before, after, [])
    ensures after == before
  {
    assert forall i: nat | i < |before| :: Kept(before, after, [], i) ==> after[i] == before[i];
  }

  /** Giving the first of them back leaves the others taken. */
  lemma TookGive(before: seq<bool>, after: seq<bool>, idx: seq<nat>)
    requires Took(before, after, idx) && idx != []
    ensures Took(before, after[idx[0] := true], idx[1..])
  {
    CountSet(after, idx[0], true);
    var a, t := after[idx[0] := true], idx[1..];
    forall k: nat | k < |t| ensures t[k] < |before| && before[t[k]] && !a[t[k]] {
      assert t[k] == idx[k + 1];
    }
    forall i: nat | i < |before| ensures Kept(before, a, t, i) {
      assert Kept(before, after, idx, i);
      assert i in idx ==> i == idx[0] || i in t;
    }
  }

  lemma TookMore(before: seq<bool>, after: seq<bool>, idx: seq<nat>, i: nat)
    requires Took(before, after, idx) && i < |after| && after[i]
    ensures Took(before, after[i := false], idx + [i])
  {
    CountSet(after, i, false);
    var a, t := after[i := false], idx + [i];
    assert i !in idx && Kept(before, after, idx, i);
    forall k: nat | k < |t| ensures t[k] < |before| && before[t[k]] && !a[t[k]] {
      assert k < |idx| ==> t[k] == idx[k];
    }
    forall j: nat | j < |before| ensures Kept(before, a, t, j) {
      assert Kept(before, after, idx, j);
    }
  }

  // ---------- Between any two steps ----------

  /** What holds between any two steps of driver and device, in every interleaving: descriptors are conserved, so at
      most two requests are on their way; chains are disjoint; and every pending ring entry is where its index says. */
  lemma RingSafety(q: Queue)
    requires q.Valid()
    ensures CountFree(q.free) + 3 * |q.live| == NUM && |q.live| <= 2
    ensures |q.posted| <= 2 && |q.done| <= 2
    ensures forall h1, h2 | h1 in q.live && h2 in q.live && h1 != h2 ::
      {h1, q.live[h1].mid, q.live[h1].last} !! {h2, q.live[h2].mid, q.live[h2].last}
    ensures forall k: nat | k < |q.posted| :: q.avail[(q.taken + k) % NUM] == q.posted[k]
    ensures forall k: nat | k < |q.done| :: q.used[(q.seen + k) % NUM] == q.done[k]
  {
    FewEntries(q.posted, q.live.Keys);
    FewEntries(q.done, q.live.Keys);
    assert |q.live.Keys| == |q.live|;
    forall h1, h2 | h1 in q.live && h2 in q.live && h1 != h2
      ensures {h1, q.live[h1].mid, q.live[h1].last} !! {h2, q.live[h2].mid, q.live[h2].last}
    {
      assert ApartAt(q.live, h1, h2);
    }
    forall k: nat | k < |q.posted| ensures q.avail[(q.taken + k) % NUM] == q.posted[k] {
      assert InRing(q.avail, q.taken, q.posted, k);
    }
    forall k: nat | k < |q.done| ensures q.used[(q.seen + k) % NUM] == q.done[k] {
      assert InRing(q.used, q.seen, q.done, k);
    }
  }
}
