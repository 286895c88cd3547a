/** The buffer cache of kernel/bio.c.

    Buffers hold copies of disk blocks and sit on a doubly linked ring that is
    sorted by recency of use.  The cache is specified by four abstract values:
    the disk, the latest contents of every block (`View`), the set of locked
    blocks and the multiset of pinned blocks.
 */
module BufferCache {
  import opened Common

  const NBUF: nat := 30

  /** A block is a sequence of 32-bit words. */
  type Block = seq<int>
  type Disk = map<nat, Block>

  datatype Buf = Buf(valid: bool, dev: nat, blockno: nat, locked: bool, refcnt: nat, data: Block)

  /** What bread comes to: a locked buffer, no buffer left, or sleep on a buffer that is locked. */
  datatype Acquired = Taken(value: nat) | Full | Asleep(value: nat)

  // ---------- The ring ----------

  /** The i-th listed buffer, or the list head when i is past either end. */
  ghost function At(n: nat, order: seq<nat>, i: int): nat {
    if 0 <= i < |order| then order[i] else n
  }

  /** The i-th listed buffer points at its neighbours. */
  ghost predicate LinkedAt(n: nat, order: seq<nat>, next: seq<nat>, prev: seq<nat>, i: nat) {
    && i < |order| && order[i] < n < |next| && n < |prev|
    && next[order[i]] == At(n, order, i + 1)
    && prev[order[i]] == At(n, order, i - 1)
  }

  /** The listed buffers, most recently used first, form a ring through the list head, slot n. */
  ghost predicate Linked(n: nat, order: seq<nat>, next: seq<nat>, prev: seq<nat>) {
    && |next| == n + 1 && |prev| == n + 1
    && (forall i | 0 <= i < |order| :: order[i] < n)
    && (forall i, j | 0 <= i < j < |order| :: order[i] != order[j])
    && (forall i | 0 <= i < |order| :: LinkedAt(n, order, next, prev, i))
    && next[n] == At(n, order, 0)
    && prev[n] == At(n, order, |order| - 1)
  }

  /** The ring holds every buffer exactly once. */
  ghost predicate Ring(n: nat, order: seq<nat>, next: seq<nat>, prev: seq<nat>) {
    && Linked(n, order, next, prev)
    && |order| == n
    && (forall b: nat | b < n :: b in order)
  }

  lemma PushFront(n: nat, order: seq<nat>, next: seq<nat>, prev: seq<nat>, b: nat)
    requires Linked(n, order, next, prev) && b < n && b !in order
    ensures Linked(n, [b] + order, next[b := next[n]][n := b], prev[b := n][next[n] := b])
  {
    var o, next', prev' := [b] + order, next[b := next[n]][n := b], prev[b := n][next[n] := b];
    forall i | 0 <= i < |o| ensures LinkedAt(n, o, next', prev', i) {
      assert i > 0 ==> LinkedAt(n, order, next, prev, i - 1);
    }
  }

  /** o lists what `order` lists, without its k-th entry. */
  ghost predicate Without(order: seq<nat>, k: nat, o: seq<nat>) {
    && k < |order| == |o| + 1
    && forall i {:trigger o[i]} | 0 <= i < |o| :: o[i] == order[if i < k then i else i + 1]
  }

  lemma UnlinkAt(n: nat, order: seq<nat>, next: seq<nat>, prev: seq<nat>, k: nat, o: seq<nat>, i: nat)
    requires Linked(n, order, next, prev) && Without(order, k, o) && i < |o|
    ensures var b := order[k];
            && next[b] <= n && prev[b] <= n
            && LinkedAt(n, o, next[prev[b] := next[b]], prev[next[b] := prev[b]], i)
  {
    assert LinkedAt(n, order, next, prev, k);
    assert LinkedAt(n, order, next, prev, if i < k then i else i + 1);
  }

  /** Unlinking the k-th buffer leaves a ring of the others. */
  lemma Unlink(n: nat, order: seq<nat>, next: seq<nat>, prev: seq<nat>, k: nat, o: seq<nat>)
    requires Linked(n, order, next, prev) && Without(order, k, o)
    ensures var b := order[k];
            && next[b] <= n && prev[b] <= n
            && Linked(n, o, next[prev[b] := next[b]], prev[next[b] := prev[b]])
  {
    var b := order[k];
    assert LinkedAt(n, order, next, prev, k);
    var next', prev' := next[prev[b] := next[b]], prev[next[b] := prev[b]];
    forall i | 0 <= i < |o| ensures LinkedAt(n, o, next', prev', i) {
      UnlinkAt(n, order, next, prev, k, o, i);
    }
  }

  ghost function MoveToFront(order: seq<nat>, k: nat): (r: seq<nat>)
    requires k < |order|
  {
    [order[k]] + (order[..k] + order[k + 1..])
  }

  lemma MoveToFrontSame(n: nat, order: seq<nat>, k: nat)
    requires k < |order| == n && forall b: nat | b < n :: b in order
    ensures forall b: nat | b < n :: b in MoveToFront(order, k)
  {
    var o := MoveToFront(order, k);
    forall b: nat | b < n ensures b in o {
      assert b in order;
      var j :| 0 <= j < n && order[j] == b;
      assert o[if j < k then j + 1 else if j == k then 0 else j] == b;
    }
  }

  // ---------- Contents ----------

  /** One buffer's invariant: lookup, reference counting, locking, and where its data stands. */
  ghost predicate GoodBuf(i: nat, b: Buf, slot: map<nat, nat>, a: Abs) {
    if b.dev == ROOTDEV then
      && b.blockno in slot && slot[b.blockno] == i
      && b.blockno in a.disk && b.blockno in a.view
      && b.refcnt == (if b.locked then 1 else 0) + a.pins[b.blockno]
      && (b.locked <==> b.blockno in a.held)
      && (b.refcnt > 0 ==> b.valid)
      && (b.valid ==> b.data == a.view[b.blockno])
      && (b.refcnt == 0 ==> a.view[b.blockno] == a.disk[b.blockno])
    else
      !b.valid && !b.locked && b.refcnt == 0
  }

  /** The abstract cache: the disk, the latest contents of every block, the locked blocks, and
      the references besides the locks: those of bpin and of processes asleep on a lock. */
  datatype Abs = Abs(disk: Disk, view: Disk, held: set<nat>, pins: multiset<nat>)

  ghost predicate GoodBlock(bno: nat, bufs: seq<Buf>, slot: map<nat, nat>, a: Abs) {
    if bno in slot then
      slot[bno] < |bufs| && bufs[slot[bno]].dev == ROOTDEV && bufs[slot[bno]].blockno == bno
    else
      && bno !in a.held && bno !in a.pins
      && (bno in a.disk ==> bno in a.view && a.view[bno] == a.disk[bno])
  }

  ghost predicate Good(bufs: seq<Buf>, slot: map<nat, nat>, a: Abs) {
    && a.view.Keys == a.disk.Keys
    && (forall i | 0 <= i < |bufs| :: GoodBuf(i, bufs[i], slot, a))
    && (forall bno: nat :: GoodBlock(bno, bufs, slot, a))
  }

  /** The block table after buffer i came to hold block bno. */
  ghost function Retarget(slot: map<nat, nat>, b: Buf, i: nat, bno: nat): map<nat, nat> {
    (if b.dev == ROOTDEV then slot - {b.blockno} else slot)[bno := i]
  }

  /** What bget makes of a buffer it hands out locked: kept if it holds bno, else recycled. */
  function Claimed(b: Buf, bno: nat): Buf {
    if b.dev == ROOTDEV && b.blockno == bno then b.(refcnt := b.refcnt + 1, locked := true)
    else b.(dev := ROOTDEV, blockno := bno, valid := false, refcnt := 1, locked := true)
  }

  /** Replacing buffer i by b' keeps the invariant, provided b' meets it, nobody else holds its
      block, an evicted buffer was unused, and only the block of b' changes abstractly. */
  lemma Replace(bufs: seq<Buf>, slot: map<nat, nat>, a: Abs, i: nat, b': Buf, a': Abs)
    requires Good(bufs, slot, a) && i < |bufs| && b'.dev == ROOTDEV
    requires b'.blockno in slot ==> slot[b'.blockno] == i
    requires b'.blockno !in slot ==> bufs[i].refcnt == 0
    requires a'.disk == a.disk && a'.view.Keys == a'.disk.Keys
    requires forall c: nat | c != b'.blockno ::
               && (c in a'.held <==> c in a.held) && a'.pins[c] == a.pins[c]
               && (c in a.view ==> a'.view[c] == a.view[c])
    requires GoodBuf(i, b', Retarget(slot, bufs[i], i, b'.blockno), a')
    ensures Good(bufs[i := b'], Retarget(slot, bufs[i], i, b'.blockno), a')
  {
    var slot', bufs' := Retarget(slot, bufs[i], i, b'.blockno), bufs[i := b'];
    assert GoodBuf(i, bufs[i], slot, a);
    assert GoodBlock(b'.blockno, bufs, slot, a);
    forall k | 0 <= k < |bufs| && k != i ensures GoodBuf(k, bufs[k], slot', a') {
      assert GoodBuf(k, bufs[k], slot, a);
    }
    forall c: nat ensures GoodBlock(c, bufs', slot', a') {
      assert GoodBlock(c, bufs, slot, a);
      assert c in a.disk ==> c in a'.view.Keys;
    }
  }

  /** bread: a claimed buffer, filled from disk if it was recycled, shows the latest contents. */
  lemma ReadKeeps(bufs: seq<Buf>, slot: map<nat, nat>, a: Abs, i: nat, bno: nat, b': Buf)
    requires Good(bufs, slot, a) && i < |bufs| && bno in a.disk && bno !in a.held
    requires if bno in slot then slot[bno] == i else bufs[i].refcnt == 0
    requires var c := Claimed(bufs[i], bno); b' == if c.valid then c else c.(data := a.disk[bno], valid := true)
    ensures Good(bufs[i := b'], Retarget(slot, bufs[i], i, bno), a.(held := a.held + {bno}))
    ensures b'.blockno == bno && b'.data == a.view[bno] && !bufs[i].locked
  {
    assert GoodBlock(bno, bufs, slot, a);
    assert GoodBuf(i, bufs[i], slot, a);
    Replace(bufs, slot, a, i, b', a.(held := a.held + {bno}));
  }

  /** bread of a locked block: the sleeper's reference keeps the buffer from being recycled. */
  lemma SleepKeeps(bufs: seq<Buf>, slot: map<nat, nat>, a: Abs, i: nat, bno: nat)
    requires Good(bufs, slot, a) && i < |bufs| && bufs[i].locked
    requires if bno in slot then slot[bno] == i else bufs[i].refcnt == 0
    ensures Good(bufs[i := Claimed(bufs[i], bno)], slot, a.(pins := a.pins + multiset{bno}))
    ensures bno in a.held && bufs[i].blockno == bno && Retarget(slot, bufs[i], i, bno) == slot
  {
    assert GoodBlock(bno, bufs, slot, a);
    assert GoodBuf(i, bufs[i], slot, a);
    assert Retarget(slot, bufs[i], i, bno) == slot;
    Replace(bufs, slot, a, i, Claimed(bufs[i], bno), a.(pins := a.pins + multiset{bno}));
  }

  // ---------- Running out of buffers ----------

  /** A block that no buffer on the ring holds is not cached. */
  lemma NotCached(bufs: seq<Buf>, slot: map<nat, nat>, a: Abs, order: seq<nat>, bno: nat)
    requires Good(bufs, slot, a) && forall b: nat | b < |bufs| :: b in order
    requires forall k | 0 <= k < |order| ::
      order[k] < |bufs| && !(bufs[order[k]].dev == ROOTDEV && bufs[order[k]].blockno == bno)
    ensures bno !in slot
  {
    assert GoodBlock(bno, bufs, slot, a);
    assert forall b: nat | b < |bufs| :: b in order ==> !(bufs[b].dev == ROOTDEV && bufs[b].blockno == bno);
  }

  /** The blocks that keep a buffer from being recycled. */
  ghost function Busy(a: Abs): set<nat> {
    a.held + set b | b in a.pins
  }

  ghost function BusyUpTo(bufs: seq<Buf>, k: nat): set<nat>
    requires k <= |bufs|
  {
    set i | 0 <= i < k && bufs[i].refcnt > 0 :: bufs[i].blockno
  }

  /** Two busy buffers hold different blocks. */
  lemma OwnBuffer(bufs: seq<Buf>, slot: map<nat, nat>, a: Abs, i: nat, j: nat)
    requires Good(bufs, slot, a) && i < j < |bufs| && bufs[i].refcnt > 0 && bufs[j].refcnt > 0
    ensures bufs[i].blockno != bufs[j].blockno
  {
    assert GoodBuf(i, bufs[i], slot, a) && GoodBuf(j, bufs[j], slot, a);
  }

  lemma {:induction false} CountBusy(bufs: seq<Buf>, slot: map<nat, nat>, a: Abs, k: nat)
    requires Good(bufs, slot, a) && k <= |bufs|
    ensures |BusyUpTo(bufs, k)| <= k
    ensures |BusyUpTo(bufs, k)| == k <==> forall i | 0 <= i < k :: bufs[i].refcnt > 0
  {
    if k > 0 {
      CountBusy(bufs, slot, a, k - 1);
      var less, bno := BusyUpTo(bufs, k - 1), bufs[k - 1].blockno;
      if bufs[k - 1].refcnt > 0 {
        forall i | 0 <= i < k - 1 && bufs[i].refcnt > 0 ensures bufs[i].blockno != bno {
          OwnBuffer(bufs, slot, a, i, k - 1);
        }
        assert bno !in less;
        assert BusyUpTo(bufs, k) == less + {bno};
      } else {
        assert BusyUpTo(bufs, k) == less;
      }
    }
  }

  /** Every busy block occupies its own buffer, so all buffers are taken exactly when there
      are as many busy blocks as buffers; and then no other block is cached. */
  lemma AllTaken(bufs: seq<Buf>, slot: map<nat, nat>, a: Abs)
    requires Good(bufs, slot, a)
    ensures |Busy(a)| <= |bufs|
    ensures |Busy(a)| == |bufs| <==> forall i | 0 <= i < |bufs| :: bufs[i].refcnt > 0
    ensures |Busy(a)| == |bufs| ==> slot.Keys == Busy(a)
    ensures Busy(a) <= slot.Keys
  {
    CountBusy(bufs, slot, a, |bufs|);
    forall c ensures c in BusyUpTo(bufs, |bufs|) <==> c in Busy(a) {
      assert c >= 0 ==> GoodBlock(c, bufs, slot, a);
      assert forall i | 0 <= i < |bufs| :: GoodBuf(i, bufs[i], slot, a);
    }
    assert BusyUpTo(bufs, |bufs|) == Busy(a);
    forall c: nat ensures c in Busy(a) ==> c in slot {
      assert GoodBlock(c, bufs, slot, a);
    }
    if |Busy(a)| == |bufs| {
      forall c: nat ensures c in slot ==> c in Busy(a) {
        assert GoodBlock(c, bufs, slot, a);
        assert c in slot ==> bufs[slot[c]].blockno in BusyUpTo(bufs, |bufs|);
      }
    }
  }

  /** b is unreferenced, and every buffer used less recently is referenced. */
  ghost predicate Oldest(bufs: seq<Buf>, order: seq<nat>, b: nat) {
    exists i: nat :: OldestAt(bufs, order, i, b)
  }

  ghost predicate OldestAt(bufs: seq<Buf>, order: seq<nat>, i: nat, b: nat) {
    && i < |order| && order[i] == b < |bufs| && bufs[b].refcnt == 0
    && forall k | i < k < |order| && order[k] < |bufs| :: bufs[order[k]].refcnt > 0
  }

  class Bcache {
    const n: nat
    var bufs: seq<Buf>
    var next: seq<nat>
    var prev: seq<nat>
    var disk: Disk
    ghost var order: seq<nat>
    ghost var slot: map<nat, nat>
    ghost var abs: Abs
    /** Every disk state so far, oldest first: the states a crash can leave behind. */
    ghost var history: seq<Disk>

    ghost predicate Valid()
      reads this
    {
      && |bufs| == n
      && Ring(n, order, next, prev)
      && Good(bufs, slot, abs)
      && abs.disk == disk
      && |history| > 0 && history[|history| - 1] == disk
    }

    /** Buffer b is locked by a client and holds block bno. */
    ghost predicate Locked(b: nat, bno: nat)
      reads this
    {
      b < |bufs| && bufs[b].dev == ROOTDEV && bufs[b].blockno == bno && bufs[b].locked
    }

    /** binit: link n empty buffers, each at the front. */
    constructor (n: nat, disk: Disk)
      ensures Valid() && this.n == n && abs == Abs(disk, disk, {}, multiset{}) && history == [disk]
    {
      this.n := n;
      this.disk := disk;
      bufs := seq(n, _ => Buf(false, 0, 0, false, 0, []));
      next := seq(n + 1, _ => n);
      prev := seq(n + 1, _ => n);
      order, slot, abs, history := [], map[], Abs(disk, disk, {}, multiset{}), [disk];
      new;
      var b := 0;
      while b < n
        invariant b <= n && Linked(n, order, next, prev) && |order| == b
        invariant forall c: nat | c < n :: c in order <==> c < b
        invariant bufs == seq(n, _ => Buf(false, 0, 0, false, 0, [])) && slot == map[]
        invariant abs == Abs(disk, disk, {}, multiset{}) && history == [disk] && this.disk == disk
      {
        PushFront(n, order, next, prev, b);
        next := next[b := next[n]];
        prev := prev[b := n];
        prev := prev[next[n] := b];
        next := next[n := b];
        order := [b] + order;
        b := b + 1;
      }
    }

    /** Find block bno in the ring, or recycle the least recently used free buffer. */
    method Bget(bno: nat) returns (r: Option<nat>)
      requires Valid()
      modifies this`bufs
      ensures r.None? <==> bno !in slot && |Busy(abs)| == n
      ensures r.None? ==> bufs == old(bufs)
      ensures r.Some? ==> r.value < n
      ensures r.Some? && bno in slot ==> slot[bno] == r.value
      ensures r.Some? && bno !in slot ==> Oldest(old(bufs), order, r.value)
      ensures r.Some? ==> bufs == old(bufs)[r.value := Claimed(old(bufs)[r.value], bno)]
    {
      AllTaken(bufs, slot, abs);
      var b := next[n];
      ghost var i := 0;
      while b != n
        invariant 0 <= i <= n && b == At(n, order, i)
        invariant bufs == old(bufs)
        invariant forall k | 0 <= k < i :: !(bufs[order[k]].dev == ROOTDEV && bufs[order[k]].blockno == bno)
        decreases n - i
      {
        assert GoodBuf(b, bufs[b], slot, abs);
        if bufs[b].dev == ROOTDEV && bufs[b].blockno == bno {
          bufs := bufs[b := Claimed(bufs[b], bno)];
          return Some(b);
        }
        assert LinkedAt(n, order, next, prev, i);
        b := next[b];
        i := i + 1;
      }
      NotCached(bufs, slot, abs, order, bno);
      r := LeastRecent();
      if r.Some? {
        bufs := bufs[r.value := Claimed(bufs[r.value], bno)];
      }
    }

    /** The second loop of bget: from the back of the ring, the first buffer without a reference. */
    method LeastRecent() returns (r: Option<nat>)
      requires Valid()
      ensures r.None? <==> forall k | 0 <= k < n :: bufs[k].refcnt > 0
      ensures r.Some? ==> r.value < n && bufs[r.value].refcnt == 0 && Oldest(bufs, order, r.value)
    {
      var b := prev[n];
      ghost var i := n;
      while b != n
        invariant 0 <= i <= n && b == At(n, order, i - 1)
        invariant forall k | i <= k < n :: bufs[order[k]].refcnt > 0
        decreases i
      {
        if bufs[b].refcnt == 0 {
          assert OldestAt(bufs, order, i - 1, b);
          return Some(b);
        }
        assert LinkedAt(n, order, next, prev, i - 1);
        b := prev[b];
        i := i - 1;
      }
      forall k | 0 <= k < n ensures bufs[k].refcnt > 0 {
        assert k in order;
      }
      return None;
    }

    /** Lock the buffer of block bno, with its latest contents; or find no buffer, which is the
        "no buffers" panic; or fall asleep on another process's lock, holding a reference. */
    method Bread(bno: nat) returns (r: Acquired)
      requires Valid() && bno in disk
      modifies this`bufs, this`abs, this`slot
      ensures Valid()
      ensures r.Full? <==> bno !in old(slot) && |Busy(old(abs))| == n
      ensures r.Full? ==> bufs == old(bufs) && abs == old(abs) && slot == old(slot)
      ensures r.Asleep? <==> bno in old(abs.held)
      ensures r.Asleep? ==> Locked(r.value, bno) && slot == old(slot)
      ensures r.Asleep? ==> abs == old(abs).(pins := old(abs.pins) + multiset{bno})
      ensures r.Taken? ==> abs == old(abs).(held := old(abs.held) + {bno})
      ensures r.Taken? ==> Locked(r.value, bno) && bufs[r.value].data == abs.view[bno]
      ensures r.Taken? ==> !old(bufs)[r.value].locked
      ensures !r.Full? ==> bufs == old(bufs)[r.value := bufs[r.value]]
    {
      var before := bufs;
      var found := Bget(bno);
      assert GoodBlock(bno, before, slot, abs);
      match found
      case None => r := Full;
      case Some(b) =>
        assert GoodBuf(b, before[b], slot, abs);
        if before[b].locked {
          SleepKeeps(before, slot, abs, b, bno);
          slot := Retarget(slot, before[b], b, bno);
          abs := abs.(pins := abs.pins + multiset{bno});
          r := Asleep(b);
        } else {
          if !bufs[b].valid {
            bufs := bufs[b := bufs[b].(data := disk[bno], valid := true)];
          }
          ReadKeeps(before, slot, abs, b, bno, bufs[b]);
          slot := Retarget(slot, before[b], b, bno);
          abs := abs.(held := abs.held + {bno});
          r := Taken(b);
        }
        assert bufs == old(bufs)[b := bufs[b]];
    }

    /** A sleeper on buffer b is woken: it takes the lock and finds the latest contents, in the
        buffer it slept on, exactly when the lock is free; otherwise it sleeps on. */
    method Wake(b: nat) returns (ok: bool)
      requires Valid() && b < n && bufs[b].dev == ROOTDEV && bufs[b].blockno in abs.pins
      modifies this`bufs, this`abs
      ensures Valid()
      ensures ok <==> !old(bufs)[b].locked
      ensures !ok ==> bufs == old(bufs) && abs == old(abs)
      ensures ok ==> var bno := bufs[b].blockno;
        && abs == old(abs).(held := old(abs.held) + {bno}, pins := old(abs.pins) - multiset{bno})
        && Locked(b, bno) && bufs[b].data == abs.view[bno]
      ensures ok ==> bufs == old(bufs)[b := old(bufs)[b].(locked := true)]
    {
      ok := !bufs[b].locked;
      if ok {
        assert GoodBuf(b, bufs[b], slot, abs);
        ghost var bno := bufs[b].blockno;
        Update(b, bufs[b].(locked := true), abs.(held := abs.held + {bno}, pins := abs.pins - multiset{bno}));
      }
    }

    /** The client that locked a buffer overwrites its contents. */
    method SetData(b: nat, data: Block)
      requires Valid() && b < n && Locked(b, bufs[b].blockno)
      modifies this`bufs, this`abs
      ensures Valid() && abs == old(abs).(view := old(abs.view)[bufs[b].blockno := data])
      ensures bufs == old(bufs)[b := old(bufs)[b].(data := data)]
    {
      Update(b, bufs[b].(data := data), abs.(view := abs.view[bufs[b].blockno := data]));
    }

    /** Write a locked buffer through to disk. */
    method Bwrite(b: nat)
      requires Valid() && b < n && Locked(b, bufs[b].blockno)
      modifies this`disk, this`history, this`abs
      ensures Valid() && abs == old(abs).(disk := disk)
      ensures disk == old(disk)[bufs[b].blockno := bufs[b].data]
      ensures history == old(history) + [disk]
    {
      disk := disk[bufs[b].blockno := bufs[b].data];
      abs := abs.(disk := disk);
      history := history + [disk];
      assert GoodBuf(b, bufs[b], slot, old(abs));
      forall k | 0 <= k < n ensures GoodBuf(k, bufs[k], slot, abs) {
        assert GoodBuf(k, bufs[k], slot, old(abs));
      }
      forall c: nat ensures GoodBlock(c, bufs, slot, abs) {
        assert GoodBlock(c, bufs, slot, old(abs));
      }
    }

    /** Change a buffer in place without changing which block it holds. */
    method Update(b: nat, b': Buf, ghost a': Abs)
      requires Valid() && b < n && bufs[b].dev == ROOTDEV
      requires b'.dev == ROOTDEV && b'.blockno == bufs[b].blockno
      requires a'.disk == abs.disk && a'.view.Keys == a'.disk.Keys
      requires forall c: nat | c != b'.blockno ::
                 && (c in a'.held <==> c in abs.held) && a'.pins[c] == abs.pins[c]
                 && (c in abs.view ==> a'.view[c] == abs.view[c])
      requires GoodBuf(b, b', slot, a')
      modifies this`bufs, this`abs
      ensures Valid() && bufs == old(bufs)[b := b'] && abs == a'
    {
      assert GoodBuf(b, bufs[b], slot, abs);
      assert Retarget(slot, bufs[b], b, b'.blockno) == slot;
      Replace(bufs, slot, abs, b, b', a');
      bufs := bufs[b := b'];
      abs := a';
    }

    /** Unlock; an unused buffer moves to the front of the ring.  A caller that changed the
        buffer must have pinned it or written it. */
    method Brelse(b: nat)
      requires Valid() && b < n && Locked(b, bufs[b].blockno)
      requires bufs[b].blockno !in abs.pins ==> abs.view[bufs[b].blockno] == disk[bufs[b].blockno]
      modifies this`bufs, this`next, this`prev, this`order, this`abs
      ensures Valid() && abs == old(abs).(held := old(abs.held) - {bufs[b].blockno})
      ensures bufs == old(bufs)[b := old(bufs)[b].(locked := false, refcnt := old(bufs)[b].refcnt - 1)]
      ensures bufs[b].refcnt > 0 ==> order == old(order)
      ensures bufs[b].refcnt == 0 ==>
        exists k :: 0 <= k < n && old(order)[k] == b && order == MoveToFront(old(order), k)
    {
      assert GoodBuf(b, bufs[b], slot, abs);
      Update(b, bufs[b].(locked := false, refcnt := bufs[b].refcnt - 1), abs.(held := abs.held - {bufs[b].blockno}));
      if bufs[b].refcnt == 0 {
        Splice(b);
      }
    }

    /** Take buffer b out of the ring and put it back at the front. */
    method Splice(b: nat)
      requires Ring(n, order, next, prev) && b < n
      modifies this`next, this`prev, this`order
      ensures Ring(n, order, next, prev)
      ensures exists k :: 0 <= k < n && old(order)[k] == b && order == MoveToFront(old(order), k)
    {
      assert b in order;
      ghost var k :| 0 <= k < n && order[k] == b;
      ghost var rest := order[..k] + order[k + 1..];
      Unlink(n, order, next, prev, k, rest);
      prev := prev[next[b] := prev[b]];
      next := next[prev[b] := next[b]];
      PushFront(n, rest, next, prev, b);
      next := next[b := next[n]];
      prev := prev[b := n];
      prev := prev[next[n] := b];
      next := next[n := b];
      order := MoveToFront(order, k);
      MoveToFrontSame(n, old(order), k);
    }

    method Bpin(b: nat)
      requires Valid() && b < n && Locked(b, bufs[b].blockno)
      modifies this`bufs, this`abs
      ensures Valid() && abs == old(abs).(pins := old(abs.pins) + multiset{bufs[b].blockno})
      ensures bufs == old(bufs)[b := old(bufs)[b].(refcnt := old(bufs)[b].refcnt + 1)]
    {
      Update(b, bufs[b].(refcnt := bufs[b].refcnt + 1), abs.(pins := abs.pins + multiset{bufs[b].blockno}));
    }

    method Bunpin(b: nat)
      requires Valid() && b < n && Locked(b, bufs[b].blockno) && bufs[b].blockno in abs.pins
      modifies this`bufs, this`abs
      ensures Valid() && abs == old(abs).(pins := old(abs.pins) - multiset{bufs[b].blockno})
      ensures bufs == old(bufs)[b := old(bufs)[b].(refcnt := old(bufs)[b].refcnt - 1)]
    {
      assert GoodBuf(b, bufs[b], slot, abs);
      Update(b, bufs[b].(refcnt := bufs[b].refcnt - 1), abs.(pins := abs.pins - multiset{bufs[b].blockno}));
    }
  }
}
