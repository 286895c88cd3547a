/** The write-ahead log of kernel/log.c, running over the buffer cache. */
module Log {
  import opened BufferCache
  import opened LogSpec

  /** Every logged block is pinned; the other references are those of processes asleep on a lock, and
      nobody but the log reads log blocks. */
  ghost predicate Pinned(a: Abs, start: nat, size: nat, lh: seq<nat>) {
    multiset(lh) <= a.pins && forall b: nat :: Outside(a, start, size, b)
  }

  ghost predicate Outside(a: Abs, start: nat, size: nat, b: nat) {
    b in Busy(a) ==> !InLog(start, size, b)
  }

  lemma StillOutside(a: Abs, a': Abs, start: nat, size: nat)
    requires Busy(a') <= Busy(a) && forall b: nat :: Outside(a, start, size, b)
    ensures forall b: nat :: Outside(a', start, size, b)
  {
    forall b: nat ensures Outside(a', start, size, b) {
      assert Outside(a, start, size, b);
    }
  }

  /** A further reference to a block outside the log. */
  lemma PinMore(a: Abs, a': Abs, start: nat, size: nat, lh: seq<nat>, b: nat)
    requires Pinned(a, start, size, lh) && !InLog(start, size, b) && Busy(a') <= Busy(a) + {b}
    requires multiset(lh) <= a'.pins
    ensures Pinned(a', start, size, lh)
    ensures a'.pins == a.pins + multiset{b} ==> Pinned(a', start, size, lh + [b])
  {
    forall c: nat ensures Outside(a', start, size, c) {
      assert Outside(a, start, size, c);
    }
  }

  /** A block that is neither locked nor pinned has nothing in the cache the disk lacks. */
  lemma IdleIsClean(bufs: seq<Buf>, slot: map<nat, nat>, a: Abs, bno: nat)
    requires Good(bufs, slot, a) && bno in a.disk && bno !in Busy(a)
    ensures bno in a.view && a.view[bno] == a.disk[bno]
  {
    assert GoodBlock(bno, bufs, slot, a);
    if bno in slot {
      assert GoodBuf(slot[bno], bufs[slot[bno]], slot, a);
    }
  }

  /** Block f's cached contents can be copied to log block t. */
  ghost predicate CanLog(a: Abs, t: nat, f: nat) {
    && a.view.Keys == a.disk.Keys
    && t in a.disk && t !in Busy(a) && f in a.disk && f !in a.held && f in a.pins
  }

  ghost function LogOne(a: Abs, t: nat, f: nat): Abs
    requires CanLog(a, t, f)
  {
    a.(disk := a.disk[t := a.view[f]], view := a.view[t := a.view[f]])
  }

  /** Log block l can be copied to its home h with n buffers. */
  ghost predicate CanInstall(a: Abs, l: nat, h: nat, recovering: bool, n: nat) {
    && a.view.Keys == a.disk.Keys
    && l in a.disk && l !in Busy(a) && l != h && h in a.disk && h !in a.held
    && (h in a.pins <==> !recovering)
    && |Busy(a)| + (if recovering then 1 else 0) < n
  }

  ghost function InstallOne(a: Abs, l: nat, h: nat, recovering: bool): Abs
    requires l in a.view
  {
    Abs(a.disk[h := a.view[l]], a.view[h := a.view[l]], a.held, if recovering then a.pins else a.pins - multiset{h})
  }

  /** read_head's loop: the block numbers in a header block. */
  method CopyHead(data: Block) returns (lh: seq<nat>)
    requires GoodHead(data)
    ensures lh == HeadOf(data)
  {
    lh := [];
    var i := 0;
    while i < data[0]
      invariant 0 <= i <= data[0] && |lh| == i
      invariant forall j | 0 <= j < i :: lh[j] == data[j + 1]
    {
      lh := lh + [data[i + 1]];
      i := i + 1;
    }
  }

  /** write_head's loop: the block numbers go over the start of the header block. */
  method FillHead(before: Block, lh: seq<nat>) returns (hb: Block)
    requires |before| > LOGSIZE >= |lh|
    ensures hb == WithHead(before, lh)
  {
    hb := before[0 := |lh|];
    var i := 0;
    while i < |lh|
      invariant 0 <= i <= |lh| && |hb| == |before|
      invariant forall j | 0 <= j < |hb| :: hb[j] == if j == 0 then |lh| else if j <= i then lh[j - 1] else before[j]
    {
      hb := hb[i + 1 := lh[i]];
      i := i + 1;
    }
    assert hb == WithHead(before, lh);
  }

  class Log {
    const cache: Bcache
    const start: nat
    const size: nat
    /** log.lh.block[0 .. log.lh.n] */
    var lh: seq<nat>
    var outstanding: nat
    var committing: bool

    /** Between operations: the on-disk log is empty and the logged blocks are pinned. */
    ghost predicate Valid()
      reads this, cache
    {
      && cache.Valid()
      && Loggable(cache.disk.Keys, start, size, lh)
      && start in cache.disk && GoodHead(cache.disk[start]) && cache.disk[start][0] == 0
      && Pinned(cache.abs, start, size, lh)
    }

    /** initlog at boot: recover from whatever a crash left on the disk. */
    constructor (cache: Bcache, start: nat, size: nat)
      requires cache.Valid() && cache.abs.held == {} && cache.abs.pins == multiset{} && cache.n >= 2
      requires Recoverable(cache.disk, start, size)
      modifies cache
      ensures this.cache == cache && this.start == start && this.size == size
      ensures Valid() && lh == [] && outstanding == 0 && !committing
      ensures cache.disk == Recovered(old(cache.disk), start, size)
      ensures old(cache.history) <= cache.history
      ensures |cache.history| == |old(cache.history)| + RecoveryWrites(old(cache.disk), start)
      ensures forall j | |old(cache.history)| <= j < |cache.history| ::
                RecoveryDisk(old(cache.disk), old(cache.history), cache.history, start, size, j)
    {
      this.cache := cache;
      this.start := start;
      this.size := size;
      lh := [];
      outstanding := 0;
      committing := false;
      new;
      RecoverFromLog();
    }

    /** Read the header block into memory. */
    method ReadHead()
      requires cache.Valid() && start in cache.disk && GoodHead(cache.disk[start])
      requires cache.abs.held == {} && cache.abs.pins == multiset{} && cache.n >= 1
      modifies this`lh, cache
      ensures cache.Valid() && cache.abs == old(cache.abs) && cache.history == old(cache.history)
      ensures lh == HeadOf(cache.disk[start])
    {
      IdleIsClean(cache.bufs, cache.slot, cache.abs, start);
      var buf := cache.Bread(start);
      lh := CopyHead(cache.bufs[buf.value].data);
      cache.Brelse(buf.value);
      assert cache.abs.held == {};
    }

    method RecoverFromLog()
      requires cache.Valid() && cache.abs.held == {} && cache.abs.pins == multiset{} && cache.n >= 2
      requires Recoverable(cache.disk, start, size)
      modifies this`lh, cache
      ensures Valid() && lh == []
      ensures cache.disk == Recovered(old(cache.disk), start, size)
      ensures old(cache.history) <= cache.history
      ensures |cache.history| == |old(cache.history)| + RecoveryWrites(old(cache.disk), start)
      ensures forall j | |old(cache.history)| <= j < |cache.history| ::
                RecoveryDisk(old(cache.disk), old(cache.history), cache.history, start, size, j)
    {
      ghost var a, h0 := cache.abs, cache.history;
      ReadHead();
      IdleInstallable(cache.bufs, cache.slot, a, start, size);
      ghost var xs := InstallTrans(true);
      ghost var h1 := cache.history;
      RecoveryPlanned(a, start, size, lh, h0, h1, xs);
      lh := [];
      WriteHead();
      RecoveryEnds(a.disk, start, size, h0, h1, cache.history);
    }

    /** memmove between two locked buffers, then write the target to disk. */
    method CopyData(to: nat, from: nat)
      requires cache.Valid() && to < cache.n && from < cache.n && to != from
      requires cache.Locked(to, cache.bufs[to].blockno) && cache.Locked(from, cache.bufs[from].blockno)
      modifies cache`bufs, cache`abs, cache`disk, cache`history
      ensures cache.Valid()
      ensures cache.bufs == old(cache.bufs)[to := old(cache.bufs)[to].(data := old(cache.bufs)[from].data)]
      ensures cache.disk == old(cache.disk)[cache.bufs[to].blockno := cache.bufs[from].data]
      ensures cache.abs == old(cache.abs).(disk := cache.disk,
        view := old(cache.abs.view)[cache.bufs[to].blockno := cache.bufs[from].data])
      ensures cache.history == old(cache.history) + [cache.disk]
    {
      cache.SetData(to, cache.bufs[from].data);
      cache.Bwrite(to);
    }

    /** Lock two buffers, one after the other; false is the cache's "no buffers" panic. */
    method ReadPair(x: nat, y: nat) returns (ok: bool, a: nat, b: nat)
      requires cache.Valid() && x in cache.disk && y in cache.disk && x != y
      requires x !in Busy(cache.abs) && y !in cache.abs.held
      requires y in cache.abs.pins || |Busy(cache.abs)| + 1 < cache.n
      modifies cache
      ensures cache.Valid() && cache.history == old(cache.history) && cache.disk == old(cache.disk)
      ensures ok <==> x in old(cache.slot) || |Busy(old(cache.abs))| < cache.n
      ensures !ok ==> cache.abs == old(cache.abs)
      ensures ok ==> cache.abs == old(cache.abs).(held := old(cache.abs.held) + {x} + {y})
      ensures ok ==> a != b && cache.Locked(a, x) && cache.Locked(b, y)
      ensures ok ==> cache.bufs[a].data == old(cache.abs.view)[x] && cache.bufs[b].data == old(cache.abs.view)[y]
    {
      assert |Busy(cache.abs)| <= cache.n by {
        AllTaken(cache.bufs, cache.slot, cache.abs);
      }
      var r := cache.Bread(x);
      if r.Full? {
        return false, 0, 0;
      }
      assert Busy(cache.abs) == Busy(old(cache.abs)) + {x};
      assert y in cache.abs.pins ==> y in cache.slot by {
        assert y in cache.abs.pins ==> GoodBlock(y, cache.bufs, cache.slot, cache.abs);
      }
      var q := cache.Bread(y);
      return true, r.value, q.value;
    }

    /** Unlock two buffers, each pinned or unchanged since it was last on disk. */
    method ReleasePair(a: nat, b: nat)
      requires cache.Valid() && a < cache.n && b < cache.n && a != b
      requires cache.Locked(a, cache.bufs[a].blockno) && cache.Locked(b, cache.bufs[b].blockno)
      requires forall c | c in {cache.bufs[a].blockno, cache.bufs[b].blockno} && c !in cache.abs.pins ::
                 c in cache.disk && c in cache.abs.view && cache.abs.view[c] == cache.disk[c]
      modifies cache
      ensures cache.Valid() && cache.history == old(cache.history) && cache.disk == old(cache.disk)
      ensures cache.abs == old(cache.abs).(
        held := old(cache.abs.held) - {old(cache.bufs)[a].blockno} - {old(cache.bufs)[b].blockno})
    {
      cache.Brelse(a);
      cache.Brelse(b);
    }

    /** One iteration of write_log; false is the cache's "no buffers" panic. */
    method LogBlock(tail: nat) returns (ok: bool)
      requires cache.Valid() && tail < |lh|
      requires CanLog(cache.abs, start + tail + 1, lh[tail])
      modifies cache
      ensures cache.Valid()
      ensures ok <==> start + tail + 1 in old(cache.slot) || |Busy(old(cache.abs))| < cache.n
      ensures !ok ==> cache.abs == old(cache.abs) && cache.history == old(cache.history)
      ensures ok ==> cache.abs == LogOne(old(cache.abs), start + tail + 1, lh[tail])
      ensures ok ==> cache.history == old(cache.history) + [cache.disk]
    {
      var to, from;
      ok, to, from := ReadPair(start + tail + 1, lh[tail]);
      if ok {
        CopyData(to, from);
        ReleasePair(from, to);
        assert cache.abs.held == old(cache.abs.held);
      }
    }

    /** Write the in-memory header over the header block. */
    method WriteHead()
      requires cache.Valid() && start in cache.disk && start !in Busy(cache.abs)
      requires |cache.disk[start]| > LOGSIZE >= |lh|
      requires |Busy(cache.abs)| < cache.n
      modifies cache
      ensures cache.Valid() && cache.abs == HeadedAbs(old(cache.abs), start, lh)
      ensures cache.history == old(cache.history) + [cache.disk]
    {
      IdleIsClean(cache.bufs, cache.slot, cache.abs, start);
      var buf := cache.Bread(start);
      var hb := FillHead(cache.bufs[buf.value].data, lh);
      cache.SetData(buf.value, hb);
      cache.Bwrite(buf.value);
      cache.Brelse(buf.value);
      assert cache.abs.held == old(cache.abs.held);
    }

    /** One iteration of install_trans. */
    method InstallBlock(tail: nat, recovering: bool)
      requires cache.Valid() && tail < |lh|
      requires CanInstall(cache.abs, start + tail + 1, lh[tail], recovering, cache.n)
      modifies cache
      ensures cache.Valid()
      ensures cache.abs == InstallOne(old(cache.abs), start + tail + 1, lh[tail], recovering)
      ensures cache.history == old(cache.history) + [cache.disk]
    {
      var l, h := start + tail + 1, lh[tail];
      ghost var held := cache.abs.held;
      assert held + {l} + {h} - {l} - {h} == held;
      IdleIsClean(cache.bufs, cache.slot, cache.abs, l);
      var _, lbuf, dbuf := ReadPair(l, h);
      CopyData(dbuf, lbuf);
      if !recovering {
        cache.Bunpin(dbuf);
      }
      ReleasePair(lbuf, dbuf);
    }

    /** write_log's loop, along planned cache states xs. */
    method LogLoop(ghost xs: seq<Abs>) returns (ok: bool)
      requires cache.Valid() && |xs| == |lh| + 1 && cache.abs == xs[0] && lh != []
      requires forall k | 0 <= k < |lh| :: LogStep(xs, k, start, lh)
      modifies cache
      ensures cache.Valid()
      ensures ok <==> |Busy(xs[0])| < cache.n
      ensures !ok ==> cache.abs == xs[0] && cache.history == old(cache.history)
      ensures ok ==> cache.abs == xs[|lh|] && Grown(old(cache.history), cache.history, xs)
    {
      ghost var h0 := cache.history;
      var tail := 0;
      while tail < |lh|
        invariant 0 <= tail <= |lh| && cache.Valid() && cache.abs == xs[tail]
        invariant tail > 0 ==> |Busy(xs[0])| < cache.n
        invariant Busy(xs[tail]) == Busy(xs[0])
        invariant Grown(h0, cache.history, xs[..tail + 1])
      {
        assert LogStep(xs, tail, start, lh);
        assert start + tail + 1 in cache.slot ==> |Busy(cache.abs)| < cache.n by {
          AllTaken(cache.bufs, cache.slot, cache.abs);
        }
        ok := LogBlock(tail);
        if !ok {
          return;
        }
        tail := tail + 1;
      }
      ok := true;
    }

    /** install_trans, along planned cache states xs. */
    method InstallLoop(recovering: bool, ghost xs: seq<Abs>)
      requires cache.Valid() && |xs| == |lh| + 1 && cache.abs == xs[0]
      requires forall k | 0 <= k < |lh| :: InstallStep(xs, k, start, lh, recovering, cache.n)
      modifies cache
      ensures cache.Valid() && cache.abs == xs[|lh|] && Grown(old(cache.history), cache.history, xs)
    {
      ghost var h0 := cache.history;
      var tail := 0;
      while tail < |lh|
        invariant 0 <= tail <= |lh| && cache.Valid() && cache.abs == xs[tail]
        invariant Grown(h0, cache.history, xs[..tail + 1])
      {
        assert InstallStep(xs, tail, start, lh, recovering, cache.n);
        InstallBlock(tail, recovering);
        tail := tail + 1;
      }
    }

    /** Copy the logged blocks from the log to their homes, unpinning them after a commit. */
    method InstallTrans(recovering: bool) returns (ghost xs: seq<Abs>)
      requires cache.Valid() && Installable(cache.abs, start, size, lh, recovering)
      requires |Busy(cache.abs)| + (if recovering then 1 else 0) < cache.n
      modifies cache
      ensures cache.Valid() && cache.abs == InstalledAbs(old(cache.abs), start, size, lh, |lh|, recovering)
      ensures InstallPlan(xs, old(cache.abs), start, size, lh, recovering)
      ensures Grown(old(cache.history), cache.history, xs)
    {
      ghost var a := cache.abs;
      xs := PlanInstall(a, start, size, lh, |lh|, recovering);
      InstallPhase(a, start, size, lh, recovering, xs, cache.n);
      InstallLoop(recovering, xs);
    }

    /** The four phases of commit, along planned cache states: xs while logging, p at the commit
        point, ys while installing, r at the end. */
    method CommitPhases(ghost xs: seq<Abs>, ghost p: Abs, ghost ys: seq<Abs>, ghost r: Abs) returns (ok: bool)
      requires cache.Valid() && |xs| == |ys| == |lh| + 1 && cache.abs == xs[0] && lh != []
      requires forall k | 0 <= k < |lh| :: LogStep(xs, k, start, lh)
      requires CanHead(xs[|lh|], start, lh) && p == ys[0] == HeadedAbs(xs[|lh|], start, lh)
      requires forall k | 0 <= k < |lh| && |Busy(xs[0])| < cache.n :: InstallStep(ys, k, start, lh, false, cache.n)
      requires CanHead(ys[|lh|], start, []) && r == HeadedAbs(ys[|lh|], start, [])
      requires |Busy(xs[|lh|])| == |Busy(xs[0])| >= |Busy(ys[|lh|])|
      modifies this`lh, cache
      ensures cache.Valid()
      ensures ok <==> |Busy(xs[0])| < cache.n
      ensures !ok ==> lh == old(lh) && cache.abs == xs[0] && cache.history == old(cache.history)
      ensures ok ==> lh == [] && cache.abs == r
      ensures ok ==>
        |cache.history| == |old(cache.history)| + CommitWrites(old(lh)) && old(cache.history) <= cache.history
      ensures ok ==> forall j | |old(cache.history)| <= j < |cache.history| ::
                       PhaseAt(xs, ys, r, |old(lh)|, old(cache.history), cache.history, j)
    {
      ghost var n := |lh|;
      ok := LogLoop(xs);
      if ok {
        ghost var logged := cache.history;
        WriteHead();
        ghost var headed := cache.history;
        InstallLoop(false, ys);
        ghost var installed := cache.history;
        lh := [];
        WriteHead();
        PhasesJoin(xs, ys, r, n, old(cache.history), logged, headed, installed, cache.history);
      }
    }

    method CommitTransaction() returns (ok: bool)
      requires cache.Valid() && CanCommit(cache.abs, start, size, lh)
      modifies this`lh, cache
      ensures cache.Valid()
      ensures ok <==> |Busy(old(cache.abs))| < cache.n
      ensures !ok ==> lh == old(lh) && cache.abs == old(cache.abs) && cache.history == old(cache.history)
      ensures ok ==> lh == []
      ensures ok ==> Committed(old(cache.abs), cache.abs, old(cache.history), cache.history, start, size, old(lh))
    {
      ghost var a := cache.abs;
      ghost var xs, p, ys, r := PlanCommit(a, start, size, lh, cache.n);
      ok := CommitPhases(xs, p, ys, r);
      if ok {
        CommitHistory(a, start, size, old(lh), xs, ys, r, old(cache.history), cache.history);
      }
    }

    /** Commit the transaction.  Panics exactly when the transaction and the blocks other
        processes hold fill the cache, and then before anything is written.  Otherwise the
        disk goes through the states of `CommitState`, one per write. */
    method Commit() returns (ok: bool)
      requires Valid() && (forall b | b in cache.abs.held :: b !in lh)
      modifies this`lh, cache
      ensures Valid()
      ensures ok <==> old(lh) == [] || |Busy(old(cache.abs))| < cache.n
      ensures !ok || old(lh) == [] ==>
        lh == old(lh) && cache.abs == old(cache.abs) && cache.history == old(cache.history)
      ensures old(lh) != [] ==> CanCommit(old(cache.abs), start, size, old(lh))
      ensures ok && old(lh) != [] ==> lh == []
      ensures ok && old(lh) != [] ==>
                Committed(old(cache.abs), cache.abs, old(cache.history), cache.history, start, size, old(lh))
    {
      if lh == [] {
        return true;
      }
      forall b | InLog(start, size, b) ensures cache.abs.view[b] == cache.abs.disk[b] {
        assert Outside(cache.abs, start, size, b);
        IdleIsClean(cache.bufs, cache.slot, cache.abs, b);
      }
      ghost var a := cache.abs;
      ok := CommitTransaction();
      if ok {
        assert Busy(cache.abs) <= Busy(a);
        StillOutside(a, cache.abs, start, size);
      }
    }

    /** Record that the holder of buffer b changed it; false is a panic.  The size check comes
        before the lookup, so it also stops a block that is already in the log. */
    method LogWrite(b: nat) returns (ok: bool)
      requires Valid() && b < cache.n && cache.Locked(b, cache.bufs[b].blockno)
      modifies this`lh, cache
      ensures Valid() && cache.history == old(cache.history) && cache.disk == old(cache.disk)
      ensures ok <==> |old(lh)| < LOGSIZE && |old(lh)| < size - 1 && outstanding >= 1
      ensures !ok ==> lh == old(lh) && cache.abs == old(cache.abs)
      ensures ok ==> var bno := old(cache.bufs)[b].blockno;
                     if bno in old(lh) then lh == old(lh) && cache.abs == old(cache.abs)
                     else
                       && lh == old(lh) + [bno]
                       && cache.abs == old(cache.abs).(pins := old(cache.abs.pins) + multiset{bno})
      ensures ok ==> cache.bufs[b].blockno in cache.abs.pins && cache.Locked(b, old(cache.bufs)[b].blockno)
    {
      if |lh| >= LOGSIZE || |lh| >= size - 1 || outstanding < 1 {
        return false;
      }
      var bno := cache.bufs[b].blockno;
      var i := 0;
      while i < |lh| && lh[i] != bno
        invariant 0 <= i <= |lh| && bno !in lh[..i]
      {
        i := i + 1;
      }
      assert GoodBuf(b, cache.bufs[b], cache.slot, cache.abs);
      if i == |lh| {
        assert bno !in lh;
        PinNew(b, bno);
      } else {
        assert lh[i] in cache.abs.pins && lh[i := bno] == lh;
        lh := lh[i := bno];
      }
      return true;
    }

    /** A block comes to the log: pinned and listed. */
    method PinNew(b: nat, bno: nat)
      requires Valid() && b < cache.n && cache.Locked(b, bno) && bno !in lh && |lh| < LOGSIZE && |lh| < size - 1
      modifies this`lh, cache`bufs, cache`abs
      ensures Valid() && lh == old(lh) + [bno]
      ensures cache.abs == old(cache.abs).(pins := old(cache.abs.pins) + multiset{bno}) && cache.Locked(b, bno)
    {
      ghost var a := cache.abs;
      assert GoodBuf(b, cache.bufs[b], cache.slot, a);
      assert Outside(a, start, size, bno);
      AppendNew(lh, bno);
      cache.Bpin(b);
      PinMore(a, cache.abs, start, size, lh, bno);
      lh := lh + [bno];
    }

    /** begin_op once: false means that the caller has to sleep. */
    method BeginOp() returns (admitted: bool)
      modifies this`outstanding
      ensures admitted <==> !committing && |lh| + (old(outstanding) + 1) * MAXOPBLOCKS <= LOGSIZE
      ensures outstanding == old(outstanding) + if admitted then 1 else 0
    {
      if committing || |lh| + (outstanding + 1) * MAXOPBLOCKS > LOGSIZE {
        return false;
      }
      outstanding := outstanding + 1;
      return true;
    }

    /** end_op: the last operation to end commits; false is a panic. */
    method EndOp() returns (ok: bool)
      requires Valid() && outstanding >= 1
      requires outstanding == 1 ==> forall b | b in cache.abs.held :: b !in lh
      modifies this, cache
      ensures Valid() && outstanding == old(outstanding) - 1
      ensures ok <==> !old(committing) && (outstanding > 0 || old(lh) == [] || |Busy(old(cache.abs))| < cache.n)
      ensures ok ==> !committing
      ensures !ok ==> lh == old(lh) && cache.abs == old(cache.abs) && cache.history == old(cache.history)
      ensures ok && (outstanding > 0 || old(lh) == []) ==>
        lh == old(lh) && cache.abs == old(cache.abs) && cache.history == old(cache.history)
      ensures ok && outstanding == 0 && old(lh) != [] ==>
                && lh == [] && CanCommit(old(cache.abs), start, size, old(lh))
                && Committed(old(cache.abs), cache.abs, old(cache.history), cache.history, start, size, old(lh))
    {
      outstanding := outstanding - 1;
      if committing {
        return false;
      }
      if outstanding > 0 {
        return true;
      }
      committing := true;
      ok := Commit();
      if ok {
        committing := false;
      }
    }
  }

  // ---------- Crash atomicity of a commit over the cache ----------

  /** The blocks that processes hold or wait for are clean unless they are logged: every changed block
      has been logged. */
  ghost predicate Quiet(a: Abs, lh: seq<nat>) {
    forall b: nat :: QuietAt(a, lh, b)
  }

  ghost predicate QuietAt(a: Abs, lh: seq<nat>, b: nat) {
    b in Busy(a) && b !in lh ==> b in a.disk && b in a.view && a.view[b] == a.disk[b]
  }

  lemma QuietDiffers(bufs: seq<Buf>, slot: map<nat, nat>, a: Abs, start: nat, size: nat, lh: seq<nat>)
    requires Good(bufs, slot, a) && Quiet(a, lh)
    ensures SameHome(After(a.disk, lh, a.view), a.view, start, size)
  {
    var e, v := After(a.disk, lh, a.view), a.view;
    forall b: nat ensures SameAt(e, v, start, size, b) {
      assert QuietAt(a, lh, b);
      if b in a.disk && b !in lh && b !in Busy(a) {
        IdleIsClean(bufs, slot, a, b);
      }
    }
  }

  /** A crash at any point of a commit recovers, outside the log, to exactly what was on disk
      before it, or to exactly what the cache showed its readers; the latter precisely from
      the write of the header on. */
  lemma CommitIsAtomic(bufs: seq<Buf>, slot: map<nat, nat>, a: Abs, r: Abs, h0: seq<Disk>, h: seq<Disk>,
                       start: nat, size: nat, lh: seq<nat>, j: nat)
    requires Good(bufs, slot, a) && Quiet(a, lh) && CanCommit(a, start, size, lh)
    requires Committed(a, r, h0, h, start, size, lh) && |h0| <= j < |h|
    ensures RecoversTo(h[j], if j < |h0| + |lh| then a.disk else a.view, start, size)
  {
    CommitRecovers(a, r, h0, h, start, size, lh, j);
    QuietDiffers(bufs, slot, a, start, size, lh);
    if j >= |h0| + |lh| {
      RecoversSame(h[j], After(a.disk, lh, a.view), a.view, start, size);
    }
  }

  lemma CommitRecovers(a: Abs, r: Abs, h0: seq<Disk>, h: seq<Disk>, start: nat, size: nat, lh: seq<nat>, j: nat)
    requires CanCommit(a, start, size, lh) && Committed(a, r, h0, h, start, size, lh) && |h0| <= j < |h|
    ensures RecoversTo(h[j], if j < |h0| + |lh| then a.disk else After(a.disk, lh, a.view), start, size)
  {
    var k := j - |h0| + 1;
    CommitDiskAt(a, r, h0, h, start, size, lh, j, k);
    CrashAtomicity(a.disk, start, size, lh, a.view, k);
  }

  lemma CommitDiskAt(a: Abs, r: Abs, h0: seq<Disk>, h: seq<Disk>, start: nat, size: nat, lh: seq<nat>, j: nat, k: nat)
    requires CanCommit(a, start, size, lh) && Committed(a, r, h0, h, start, size, lh) && |h0| <= j < |h|
    requires k == j - |h0| + 1
    ensures k <= CommitWrites(lh) && h[j] == CommitState(a.disk, start, size, lh, a.view, k)
  {
    assert CommitDisk(a, h0, h, start, size, lh, j);
  }

  lemma RecoversSame(e: Disk, d: Disk, d': Disk, start: nat, size: nat)
    requires RecoversTo(e, d, start, size) && SameHome(d, d', start, size)
    ensures RecoversTo(e, d', start, size)
  {
    SameHomeTrans(Recovered(e, start, size), d, d', start, size);
  }

  // ---------- Planned cache states ----------

  ghost predicate LogStep(xs: seq<Abs>, k: nat, start: nat, lh: seq<nat>) {
    && k < |lh| < |xs|
    && CanLog(xs[k], start + k + 1, lh[k]) && xs[k + 1] == LogOne(xs[k], start + k + 1, lh[k])
  }

  ghost predicate InstallStep(xs: seq<Abs>, k: nat, start: nat, lh: seq<nat>, recovering: bool, n: nat) {
    && k < |lh| < |xs|
    && CanInstall(xs[k], start + k + 1, lh[k], recovering, n)
    && xs[k + 1] == InstallOne(xs[k], start + k + 1, lh[k], recovering)
  }

  /** History h0 grew to h by the disks of xs, whose first state was already there. */
  ghost predicate Grown(h0: seq<Disk>, h: seq<Disk>, xs: seq<Abs>) {
    && |xs| > 0 && |h| == |h0| + |xs| - 1 && h0 <= h
    && forall j | |h0| <= j < |h| :: h[j] == xs[j - |h0| + 1].disk
  }

  lemma RecoveryPlanned(a: Abs, start: nat, size: nat, lh: seq<nat>, h0: seq<Disk>, h1: seq<Disk>, xs: seq<Abs>)
    requires Recoverable(a.disk, start, size) && lh == HeadOf(a.disk[start])
    requires Installable(a, start, size, lh, true)
    requires InstallPlan(xs, a, start, size, lh, true) && Grown(h0, h1, xs)
    ensures h0 <= h1 && |h1| == |h0| + |lh|
    ensures forall j | |h0| <= j < |h1| :: RecoveryDisk(a.disk, h0, h1, start, size, j)
  {
    forall j | |h0| <= j < |h1| ensures RecoveryDisk(a.disk, h0, h1, start, size, j) {
      assert PlannedAt(xs, a, start, size, lh, j - |h0| + 1, true);
    }
  }

  /** With nothing held or pinned, the cache shows the disk, and recovery can install. */
  lemma IdleInstallable(bufs: seq<Buf>, slot: map<nat, nat>, a: Abs, start: nat, size: nat)
    requires Good(bufs, slot, a) && a.held == {} && a.pins == multiset{} && Recoverable(a.disk, start, size)
    ensures a.view == a.disk && Installable(a, start, size, HeadOf(a.disk[start]), true) && Busy(a) == {}
  {
    forall b | b in a.disk ensures b in a.view && a.view[b] == a.disk[b] {
      IdleIsClean(bufs, slot, a, b);
    }
  }

  /** The last write of recovery clears the header. */
  lemma RecoveryEnds(d: Disk, start: nat, size: nat, h0: seq<Disk>, h1: seq<Disk>, h: seq<Disk>)
    requires Recoverable(d, start, size) && h0 <= h1 && |h1| == |h0| + |HeadOf(d[start])|
    requires forall j | |h0| <= j < |h1| :: RecoveryDisk(d, h0, h1, start, size, j)
    requires h == h1 + [Recovered(d, start, size)]
    ensures h0 <= h && |h| == |h0| + RecoveryWrites(d, start)
    ensures forall j | |h0| <= j < |h| :: RecoveryDisk(d, h0, h, start, size, j)
  {
    forall j | |h0| <= j < |h| ensures RecoveryDisk(d, h0, h, start, size, j) {
      assert j < |h1| ==> RecoveryDisk(d, h0, h1, start, size, j);
    }
  }

  /** The logged blocks are pinned, and nobody has the blocks that commit touches locked. */
  ghost predicate CanCommit(a: Abs, start: nat, size: nat, lh: seq<nat>) {
    && Committable(a.disk, start, size, lh, a.view)
    && Pinned(a, start, size, lh)
    && (forall b | b in a.held :: b !in lh)
    && (forall b | InLog(start, size, b) :: a.view[b] == a.disk[b])
  }

  /** The cache after k iterations of write_log. */
  ghost function LoggedAbs(a: Abs, start: nat, size: nat, lh: seq<nat>, k: nat): Abs
    requires CanCommit(a, start, size, lh) && k <= |lh|
  {
    a.(disk := Logged(a.disk, start, lh, a.view, k), view := Logged(a.view, start, lh, a.view, k))
  }

  ghost function LogPlan(a: Abs, start: nat, size: nat, lh: seq<nat>): seq<Abs>
    requires CanCommit(a, start, size, lh)
  {
    seq(|lh| + 1, k requires 0 <= k <= |lh| => LoggedAbs(a, start, size, lh, k))
  }

  lemma LogPlanned(a: Abs, start: nat, size: nat, lh: seq<nat>, k: nat, xs: seq<Abs>)
    requires CanCommit(a, start, size, lh) && k < |lh| < |xs|
    requires xs[k] == LoggedAbs(a, start, size, lh, k) && xs[k + 1] == LoggedAbs(a, start, size, lh, k + 1)
    ensures LogStep(xs, k, start, lh)
  {
    var x := LoggedAbs(a, start, size, lh, k);
    LoggedKeys(a.disk, start, size, lh, a.view, k);
    forall b: nat ensures b in x.view <==> b in a.view {
      LoggedAt(a.view, start, lh, a.view, k, b);
      assert start < b <= start + k ==> InLog(start, size, b);
    }
    LoggedAt(a.view, start, lh, a.view, k, lh[k]);
    assert InLog(start, size, start + k + 1) && Outside(a, start, size, start + k + 1);
    assert Busy(x) == Busy(a);
  }

  /** A cache from which the logged blocks can be installed. */
  ghost predicate Installable(a: Abs, start: nat, size: nat, lh: seq<nat>, recovering: bool) {
    && a.view.Keys == a.disk.Keys
    && Loggable(a.disk.Keys, start, size, lh)
    && (forall b | b in a.held :: b !in lh)
    && (forall b: nat :: Outside(a, start, size, b))
    && (if recovering then a.pins == multiset{} else multiset(lh) <= a.pins)
    && (forall b | InLog(start, size, b) :: a.view[b] == a.disk[b])
  }

  /** The cache after k iterations of install_trans. */
  ghost function InstalledAbs(a: Abs, start: nat, size: nat, lh: seq<nat>, k: nat, recovering: bool): Abs
    requires Installable(a, start, size, lh, recovering) && k <= |lh|
  {
    Abs(Installed(a.disk, start, size, lh, k), Installed(a.view, start, size, lh, k), a.held,
        if recovering then multiset{} else a.pins - multiset(lh[..k]))
  }

  /** xs are the cache states that install_trans goes through from a. */
  ghost predicate InstallPlan(xs: seq<Abs>, a: Abs, start: nat, size: nat, lh: seq<nat>, recovering: bool)
    requires Installable(a, start, size, lh, recovering)
  {
    |xs| == |lh| + 1 && forall k: nat :: PlannedAt(xs, a, start, size, lh, k, recovering)
  }

  ghost predicate PlannedAt(xs: seq<Abs>, a: Abs, start: nat, size: nat, lh: seq<nat>, k: nat, recovering: bool)
    requires Installable(a, start, size, lh, recovering)
  {
    k <= |lh| && k < |xs| ==> xs[k] == InstalledAbs(a, start, size, lh, k, recovering)
  }

  /** The states up to the k-th. */
  lemma {:induction false} PlanInstall(a: Abs, start: nat, size: nat, lh: seq<nat>, k: nat, recovering: bool)
    returns (xs: seq<Abs>)
    requires Installable(a, start, size, lh, recovering) && k <= |lh|
    ensures |xs| == k + 1 && forall i: nat :: PlannedAt(xs, a, start, size, lh, i, recovering)
    decreases k
  {
    xs := [];
    if k > 0 {
      xs := PlanInstall(a, start, size, lh, k - 1, recovering);
    }
    xs := PlanMore(a, start, size, lh, k, recovering, xs);
  }

  lemma PlanMore(a: Abs, start: nat, size: nat, lh: seq<nat>, k: nat, recovering: bool, xs: seq<Abs>)
    returns (ys: seq<Abs>)
    requires Installable(a, start, size, lh, recovering) && k <= |lh|
    requires |xs| == k && forall i: nat :: PlannedAt(xs, a, start, size, lh, i, recovering)
    ensures |ys| == k + 1 && forall i: nat :: PlannedAt(ys, a, start, size, lh, i, recovering)
  {
    ys := xs + [InstalledAbs(a, start, size, lh, k, recovering)];
    forall i: nat ensures PlannedAt(ys, a, start, size, lh, i, recovering) {
      assert PlannedAt(xs, a, start, size, lh, i, recovering);
    }
  }

  lemma CanInstallNext(a: Abs, start: nat, size: nat, lh: seq<nat>, k: nat, recovering: bool, n: nat)
    requires Installable(a, start, size, lh, recovering) && k < |lh|
    requires |Busy(a)| + (if recovering then 1 else 0) < n
    ensures CanInstall(InstalledAbs(a, start, size, lh, k, recovering), start + k + 1, lh[k], recovering, n)
  {
    var x := InstalledAbs(a, start, size, lh, k, recovering);
    assert InLog(start, size, start + k + 1) && Outside(a, start, size, start + k + 1);
    assert lh == lh[..k] + lh[k..] && lh[k] in lh[k..];
    assert Busy(x) <= Busy(a);
    SetSize(Busy(x), Busy(a));
  }

  lemma InstallsNext(a: Abs, start: nat, size: nat, lh: seq<nat>, k: nat, recovering: bool)
    requires Installable(a, start, size, lh, recovering) && k < |lh|
    ensures start + k + 1 in a.disk
    ensures InstalledAbs(a, start, size, lh, k + 1, recovering)
         == InstallOne(InstalledAbs(a, start, size, lh, k, recovering), start + k + 1, lh[k], recovering)
  {
    assert InLog(start, size, start + k + 1);
    UnpinNext(a.pins, lh, k);
  }

  lemma UnpinNext(pins: multiset<nat>, lh: seq<nat>, k: nat)
    requires k < |lh|
    ensures pins - multiset(lh[..k + 1]) == pins - multiset(lh[..k]) - multiset{lh[k]}
  {
    assert lh[..k + 1] == lh[..k] + [lh[k]];
  }

  lemma InstallPlanned(a: Abs, start: nat, size: nat, lh: seq<nat>, k: nat, recovering: bool, n: nat, xs: seq<Abs>)
    requires Installable(a, start, size, lh, recovering) && k < |lh|
    requires |Busy(a)| + (if recovering then 1 else 0) < n
    requires InstallPlan(xs, a, start, size, lh, recovering)
    ensures InstallStep(xs, k, start, lh, recovering, n)
  {
    assert PlannedAt(xs, a, start, size, lh, k, recovering);
    assert PlannedAt(xs, a, start, size, lh, k + 1, recovering);
    InstallStepAt(a, start, size, lh, k, recovering, n, xs);
  }

  lemma InstallStepAt(a: Abs, start: nat, size: nat, lh: seq<nat>, k: nat, recovering: bool, n: nat, xs: seq<Abs>)
    requires Installable(a, start, size, lh, recovering) && k < |lh| < |xs|
    requires |Busy(a)| + (if recovering then 1 else 0) < n
    requires xs[k] == InstalledAbs(a, start, size, lh, k, recovering)
    requires xs[k + 1] == InstalledAbs(a, start, size, lh, k + 1, recovering)
    ensures InstallStep(xs, k, start, lh, recovering, n)
  {
    CanInstallNext(a, start, size, lh, k, recovering, n);
    InstallsNext(a, start, size, lh, k, recovering);
  }

  /** The cache after write_head. */
  ghost function HeadedAbs(a: Abs, start: nat, lh: seq<nat>): Abs
    requires start in a.disk && |a.disk[start]| > LOGSIZE >= |lh|
  {
    a.(disk := Headed(a.disk, start, lh), view := a.view[start := WithHead(a.disk[start], lh)])
  }

  /** After write_log the header block is still the empty one. */
  lemma ReadyForHead(a: Abs, start: nat, size: nat, lh: seq<nat>)
    requires CanCommit(a, start, size, lh)
    ensures var x := LoggedAbs(a, start, size, lh, |lh|);
            start in x.disk && start !in Busy(x) && x.disk[start] == a.disk[start] && Busy(x) == Busy(a)
  {
    LoggedKeys(a.disk, start, size, lh, a.view, |lh|);
    assert InLog(start, size, start) && Outside(a, start, size, start);
  }

  /** The cache at the commit point. */
  ghost function PointAbs(a: Abs, start: nat, size: nat, lh: seq<nat>): (r: Abs)
    requires CanCommit(a, start, size, lh)
    ensures r.disk == Point(a.disk, start, size, lh, a.view)
    ensures Installable(r, start, size, lh, false) && Busy(r) == Busy(a)
  {
    ReadyForHead(a, start, size, lh);
    PointInstallable(a, start, size, lh);
    HeadedAbs(LoggedAbs(a, start, size, lh, |lh|), start, lh)
  }

  lemma PointInstallable(a: Abs, start: nat, size: nat, lh: seq<nat>)
    requires CanCommit(a, start, size, lh)
    requires start in LoggedAbs(a, start, size, lh, |lh|).disk
      && LoggedAbs(a, start, size, lh, |lh|).disk[start] == a.disk[start]
    ensures Installable(HeadedAbs(LoggedAbs(a, start, size, lh, |lh|), start, lh), start, size, lh, false)
  {
    var x := LoggedAbs(a, start, size, lh, |lh|);
    forall b: nat ensures (b in x.disk <==> b in a.disk) && (b in x.view <==> b in a.disk)
    {
      LoggedAt(a.disk, start, lh, a.view, |lh|, b);
      LoggedAt(a.view, start, lh, a.view, |lh|, b);
      assert start < b <= start + |lh| ==> InLog(start, size, b);
    }
    assert x.disk.Keys == a.disk.Keys && x.view.Keys == a.disk.Keys;
    StillOutside(a, HeadedAbs(x, start, lh), start, size);
    forall b | InLog(start, size, b) ensures x.view[b] == x.disk[b] {
      LoggedAt(a.disk, start, lh, a.view, |lh|, b);
      LoggedAt(a.view, start, lh, a.view, |lh|, b);
    }
  }

  /** After install_trans the header still holds the transaction, and none of its blocks is pinned. */
  lemma ReadyToClear(a: Abs, start: nat, size: nat, lh: seq<nat>)
    requires CanCommit(a, start, size, lh)
    ensures var x := InstalledAbs(PointAbs(a, start, size, lh), start, size, lh, |lh|, false);
            && start in x.disk && start !in Busy(x) && |x.disk[start]| > LOGSIZE
            && |Busy(x)| <= |Busy(a)| && x.held == a.held && x.pins == a.pins - multiset(lh)
  {
    assert InLog(start, size, start) && Outside(a, start, size, start);
    var x := InstalledAbs(PointAbs(a, start, size, lh), start, size, lh, |lh|, false);
    assert lh[..|lh|] == lh;
    SetSize(Busy(x), Busy(a));
  }

  /** The cache after the whole commit. */
  ghost function DoneAbs(a: Abs, start: nat, size: nat, lh: seq<nat>): (r: Abs)
    requires CanCommit(a, start, size, lh)
  {
    ReadyToClear(a, start, size, lh);
    HeadedAbs(InstalledAbs(PointAbs(a, start, size, lh), start, size, lh, |lh|, false), start, [])
  }

  /** write_head can run and find the header block as the disk has it. */
  ghost predicate CanHead(a: Abs, start: nat, lh: seq<nat>) {
    start in a.disk && start !in Busy(a) && |a.disk[start]| > LOGSIZE >= |lh|
  }

  /** What commit leaves: the same contents outside the log, an empty log, its blocks unpinned; and
      on the way the disks of `CommitState`. */
  ghost predicate Committed(a: Abs, r: Abs, h0: seq<Disk>, h: seq<Disk>, start: nat, size: nat, lh: seq<nat>)
    requires CanCommit(a, start, size, lh)
  {
    && Cleared(a, r, start, size, lh)
    && SameHome(r.view, a.view, start, size)
    && |h| == |h0| + CommitWrites(lh) && h0 <= h
    && forall j | |h0| <= j < |h| :: CommitDisk(a, h0, h, start, size, lh, j)
  }

  /** Disk j of history h is the one after write j - |h0| + 1 of the commit. */
  ghost predicate CommitDisk(a: Abs, h0: seq<Disk>, h: seq<Disk>, start: nat, size: nat, lh: seq<nat>, j: nat)
    requires CanCommit(a, start, size, lh) && |h0| <= j < |h| == |h0| + CommitWrites(lh)
  {
    h[j] == CommitState(a.disk, start, size, lh, a.view, j - |h0| + 1)
  }

  /** Disk j of history h is the one after write j - |h0| + 1 of the recovery from d. */
  ghost predicate RecoveryDisk(d: Disk, h0: seq<Disk>, h: seq<Disk>, start: nat, size: nat, j: nat)
    requires Recoverable(d, start, size) && |h0| <= j < |h| <= |h0| + RecoveryWrites(d, start)
  {
    h[j] == RecoveryState(d, start, size, j - |h0| + 1)
  }

  /** The i-th disk that commit writes, by its planned states. */
  ghost function PhaseDisk(xs: seq<Abs>, ys: seq<Abs>, r: Abs, n: nat, i: nat): Disk
    requires |xs| == |ys| == n + 1
  {
    if i < n then xs[i + 1].disk else if i <= n + n then ys[i - n].disk else r.disk
  }

  ghost predicate PhaseAt(xs: seq<Abs>, ys: seq<Abs>, r: Abs, n: nat, h0: seq<Disk>, h: seq<Disk>, j: nat)
    requires |xs| == |ys| == n + 1 && |h0| <= j < |h|
  {
    h[j] == PhaseDisk(xs, ys, r, n, j - |h0|)
  }

  /** The four phases of a commit, one after the other. */
  lemma PhasesJoin(xs: seq<Abs>, ys: seq<Abs>, r: Abs, n: nat, h0: seq<Disk>, h1: seq<Disk>, h2: seq<Disk>,
      h3: seq<Disk>, h: seq<Disk>)
    requires |xs| == |ys| == n + 1 && Grown(h0, h1, xs) && h2 == h1 + [ys[0].disk] && Grown(h2, h3, ys)
      && h == h3 + [r.disk]
    ensures |h| == |h0| + 2 * n + 2 && h0 <= h
    ensures forall j | |h0| <= j < |h| :: PhaseAt(xs, ys, r, n, h0, h, j)
  {
    forall j | |h0| <= j < |h| ensures PhaseAt(xs, ys, r, n, h0, h, j) {
      if j < |h1| {
        assert h[j] == h1[j];
      } else if |h2| <= j < |h3| {
        assert h[j] == h3[j];
      }
    }
  }

  ghost predicate Cleared(a: Abs, r: Abs, start: nat, size: nat, lh: seq<nat>) {
    && r.held == a.held && r.pins == a.pins - multiset(lh) && r.disk.Keys == a.disk.Keys
    && start in r.disk && GoodHead(r.disk[start]) && r.disk[start][0] == 0
  }

  lemma LogPhase(a: Abs, start: nat, size: nat, lh: seq<nat>, xs: seq<Abs>)
    requires CanCommit(a, start, size, lh) && xs == LogPlan(a, start, size, lh)
    ensures a == xs[0] && xs[|lh|] == LoggedAbs(a, start, size, lh, |lh|)
    ensures forall k | 0 <= k < |lh| :: LogStep(xs, k, start, lh)
    ensures CanHead(xs[|lh|], start, lh) && Busy(xs[|lh|]) == Busy(a)
  {
    forall k | 0 <= k < |lh| ensures LogStep(xs, k, start, lh) {
      LogPlanned(a, start, size, lh, k, xs);
    }
    ReadyForHead(a, start, size, lh);
  }

  lemma InstallPhase(p: Abs, start: nat, size: nat, lh: seq<nat>, recovering: bool, ys: seq<Abs>, n: nat)
    requires Installable(p, start, size, lh, recovering) && InstallPlan(ys, p, start, size, lh, recovering)
    ensures p == ys[0] && ys[|lh|] == InstalledAbs(p, start, size, lh, |lh|, recovering)
    ensures |Busy(p)| + (if recovering then 1 else 0) < n ==>
      forall k | 0 <= k < |lh| :: InstallStep(ys, k, start, lh, recovering, n)
  {
    if |Busy(p)| + (if recovering then 1 else 0) < n {
      forall k | 0 <= k < |lh| ensures InstallStep(ys, k, start, lh, recovering, n) {
        InstallPlanned(p, start, size, lh, k, recovering, n, ys);
      }
    }
    assert PlannedAt(ys, p, start, size, lh, 0, recovering);
    assert PlannedAt(ys, p, start, size, lh, |lh|, recovering);
    assert lh[..0] == [];
  }

  lemma ClearPhase(a: Abs, start: nat, size: nat, lh: seq<nat>, y: Abs, r: Abs)
    requires CanCommit(a, start, size, lh)
    requires y == InstalledAbs(PointAbs(a, start, size, lh), start, size, lh, |lh|, false)
      && r == DoneAbs(a, start, size, lh)
    ensures CanHead(y, start, []) && r == HeadedAbs(y, start, []) && |Busy(y)| <= |Busy(a)|
    ensures Cleared(a, r, start, size, lh)
  {
    ReadyToClear(a, start, size, lh);
  }

  lemma PointCopy(a: Abs, start: nat, size: nat, lh: seq<nat>, i: nat)
    requires CanCommit(a, start, size, lh) && i < |lh|
    ensures LogCopy(a.view, start, lh, PointAbs(a, start, size, lh).view, i)
  {
    var e := LoggedAbs(a, start, size, lh, |lh|);
    ReadyForHead(a, start, size, lh);
    LoggedCopies(a.view, start, lh, i);
    CopyStays(a.view, start, lh, e.view, WithHead(e.disk[start], lh), i);
  }

  lemma LoggedCopies(v: Disk, start: nat, lh: seq<nat>, i: nat)
    requires i < |lh| && forall k | 0 <= k < |lh| :: lh[k] in v
    ensures LogCopy(v, start, lh, Logged(v, start, lh, v, |lh|), i)
  {
    LoggedAt(v, start, lh, v, |lh|, start + i + 1);
  }

  lemma CopyStays(v: Disk, start: nat, lh: seq<nat>, e: Disk, head: Block, i: nat)
    requires LogCopy(v, start, lh, e, i)
    ensures LogCopy(v, start, lh, e[start := head], i)
  {
  }

  lemma PointView(a: Abs, start: nat, size: nat, lh: seq<nat>, b: nat)
    requires CanCommit(a, start, size, lh) && b in a.view && !InLog(start, size, b)
    ensures b in PointAbs(a, start, size, lh).view && PointAbs(a, start, size, lh).view[b] == a.view[b]
  {
    LoggedAt(a.view, start, lh, a.view, |lh|, b);
    assert InLog(start, size, start);
    assert start < b <= start + |lh| ==> InLog(start, size, b);
  }

  lemma DoneViewAt(a: Abs, start: nat, size: nat, lh: seq<nat>, p: Abs, b: nat)
    requires CanCommit(a, start, size, lh) && p == PointAbs(a, start, size, lh)
    requires b in a.view && !InLog(start, size, b)
    ensures Installed(p.view, start, size, lh, |lh|)[b] == a.view[b]
  {
    forall i | 0 <= i < |lh| ensures LogCopy(a.view, start, lh, p.view, i) {
      PointCopy(a, start, size, lh, i);
    }
    PointView(a, start, size, lh, b);
    RoundTripAt(a.view, start, size, lh, p.view, b);
  }

  /** Installing copies back what logging copied out, so no contents change outside the log. */
  lemma DoneView(a: Abs, start: nat, size: nat, lh: seq<nat>)
    requires CanCommit(a, start, size, lh)
    ensures SameHome(DoneAbs(a, start, size, lh).view, a.view, start, size)
  {
    var p, r := PointAbs(a, start, size, lh), DoneAbs(a, start, size, lh);
    var rv, av := r.view, a.view;
    assert InLog(start, size, start);
    forall b: nat ensures SameAt(rv, av, start, size, b) {
      if b in rv && !InLog(start, size, b) {
        DoneViewAt(a, start, size, lh, p, b);
      }
    }
  }

  /** Installing after logging gives every home its own contents back. */
  lemma RoundTripAt(v: Disk, start: nat, size: nat, lh: seq<nat>, pv: Disk, b: nat)
    requires Loggable(v.Keys, start, size, lh) && pv.Keys == v.Keys
    requires forall i | 0 <= i < |lh| :: LogCopy(v, start, lh, pv, i)
    requires b in v && !InLog(start, size, b) && pv[b] == v[b]
    ensures Installed(pv, start, size, lh, |lh|)[b] == v[b]
  {
    InstalledAt(pv, start, size, lh, |lh|, b);
    if i :| 0 <= i < |lh| && lh[i] == b {
      assert LogCopy(v, start, lh, pv, i);
    }
  }

  /** Log block i of pv is what v has at its home. */
  ghost predicate LogCopy(v: Disk, start: nat, lh: seq<nat>, pv: Disk, i: nat) {
    i < |lh| && lh[i] in v && start + i + 1 in pv && pv[start + i + 1] == v[lh[i]]
  }

  /** The i-th planned disk is that of `CommitState`. */
  ghost predicate DiskOk(a: Abs, start: nat, size: nat, lh: seq<nat>, xs: seq<Abs>, ys: seq<Abs>, r: Abs, i: nat)
    requires CanCommit(a, start, size, lh) && |xs| == |ys| == |lh| + 1 && i < CommitWrites(lh)
  {
    PhaseDisk(xs, ys, r, |lh|, i) == CommitState(a.disk, start, size, lh, a.view, i + 1)
  }

  lemma CommitHistory(a: Abs, start: nat, size: nat, lh: seq<nat>, xs: seq<Abs>, ys: seq<Abs>, r: Abs, h0: seq<Disk>,
      h: seq<Disk>)
    requires CanCommit(a, start, size, lh) && |xs| == |ys| == |lh| + 1
    requires forall i | 0 <= i < CommitWrites(lh) :: DiskOk(a, start, size, lh, xs, ys, r, i)
    requires Cleared(a, r, start, size, lh) && SameHome(r.view, a.view, start, size)
    requires |h| == |h0| + CommitWrites(lh) && h0 <= h
    requires forall j | |h0| <= j < |h| :: PhaseAt(xs, ys, r, |lh|, h0, h, j)
    ensures Committed(a, r, h0, h, start, size, lh)
  {
    forall j | |h0| <= j < |h| ensures CommitDisk(a, h0, h, start, size, lh, j) {
      assert PhaseAt(xs, ys, r, |lh|, h0, h, j);
      assert DiskOk(a, start, size, lh, xs, ys, r, j - |h0|);
    }
  }

  lemma InstallDisk(p: Abs, start: nat, size: nat, lh: seq<nat>, i: nat, ys: seq<Abs>)
    requires Installable(p, start, size, lh, false) && i <= |lh| && InstallPlan(ys, p, start, size, lh, false)
    requires Recoverable(p.disk, start, size) && HeadOf(p.disk[start]) == lh
    ensures ys[i].disk == RecoveryState(p.disk, start, size, i)
  {
    assert PlannedAt(ys, p, start, size, lh, i, false);
  }

  /** The planned disks are those of `CommitState`. */
  lemma DiskPlanned(a: Abs, start: nat, size: nat, lh: seq<nat>, p: Abs, xs: seq<Abs>, ys: seq<Abs>, r: Abs, i: nat)
    requires CanCommit(a, start, size, lh) && p == PointAbs(a, start, size, lh) && i < CommitWrites(lh)
    requires xs == LogPlan(a, start, size, lh) && InstallPlan(ys, p, start, size, lh, false)
    requires r.disk == Recovered(p.disk, start, size)
    ensures DiskOk(a, start, size, lh, xs, ys, r, i)
  {
    if i < |lh| {
      DiskLogged(a, start, size, lh, i, xs[i + 1]);
    } else {
      PointGood(a.disk, start, size, lh, a.view);
      if i <= |lh| + |lh| {
        InstallDisk(p, start, size, lh, i - |lh|, ys);
      }
    }
  }

  lemma DiskLogged(a: Abs, start: nat, size: nat, lh: seq<nat>, i: nat, x: Abs)
    requires CanCommit(a, start, size, lh) && i < |lh| && x == LoggedAbs(a, start, size, lh, i + 1)
    ensures x.disk == CommitState(a.disk, start, size, lh, a.view, i + 1)
  {
  }

  lemma PlanCommit(a: Abs, start: nat, size: nat, lh: seq<nat>, n: nat)
    returns (xs: seq<Abs>, p: Abs, ys: seq<Abs>, r: Abs)
    requires CanCommit(a, start, size, lh)
    ensures |xs| == |ys| == |lh| + 1 && a == xs[0] && p == ys[0]
    ensures forall k | 0 <= k < |lh| :: LogStep(xs, k, start, lh)
    ensures CanHead(xs[|lh|], start, lh) && p == HeadedAbs(xs[|lh|], start, lh)
    ensures |Busy(a)| < n ==> forall k | 0 <= k < |lh| :: InstallStep(ys, k, start, lh, false, n)
    ensures CanHead(ys[|lh|], start, []) && r == HeadedAbs(ys[|lh|], start, [])
    ensures |Busy(xs[|lh|])| == |Busy(a)| >= |Busy(ys[|lh|])|
    ensures Cleared(a, r, start, size, lh) && SameHome(r.view, a.view, start, size)
    ensures forall i | 0 <= i < CommitWrites(lh) :: DiskOk(a, start, size, lh, xs, ys, r, i)
  {
    xs := LogPlan(a, start, size, lh);
    p := PointAbs(a, start, size, lh);
    ys := PlanInstall(p, start, size, lh, |lh|, false);
    r := DoneAbs(a, start, size, lh);
    LogPhase(a, start, size, lh, xs);
    InstallPhase(p, start, size, lh, false, ys, n);
    ClearPhase(a, start, size, lh, ys[|lh|], r);
    DoneView(a, start, size, lh);
    forall i | 0 <= i < CommitWrites(lh) ensures DiskOk(a, start, size, lh, xs, ys, r, i) {
      DiskPlanned(a, start, size, lh, p, xs, ys, r, i);
    }
  }

  lemma SetSize(a: set<nat>, b: set<nat>)
    requires a <= b
    ensures |a| <= |b|
  {
    assert b == a + (b - a);
  }
}
