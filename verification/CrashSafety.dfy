/** The file system over the log: after any crash the disk holds a file system that some operation left.

    A run of calls (module Durability) carries out transactions of the file system (module FileSystem).
    done[i] of them are complete before call i.  Any number of transactions may go into one commit.
 */
module CrashSafety {
  import opened Common
  import opened FsSpec
  import opened FileSystem
  import opened FsDisk
  import opened Durability
  import BufferCache
  import LogSpec
  import Log

  type Disk = BufferCache.Disk

  /** The file system after k transactions. */
  ghost function StateAfter(f0: Fs, txns: seq<Txn>, k: nat): Fs {
    if 0 < k <= |txns| then txns[k - 1].after else f0
  }

  // ---------- What a run does for the file system ----------

  /** The transactions, each starting where the one before ended. */
  ghost predicate Transactions(f0: Fs, txns: seq<Txn>, sb: Super) {
    Good(f0) && forall k: nat :: TxnAt(f0, txns, sb, k)
  }

  ghost predicate TxnAt(f0: Fs, txns: seq<Txn>, sb: Super, k: nat) {
    k < |txns| ==> GoodTxn(txns[k], sb.bmapstart, sb.inodestart) && txns[k].before == StateAfter(f0, txns, k)
  }

  /** The blocks written since the last transaction was complete. */
  ghost function Pending(calls: seq<Call>, done: seq<nat>, i: nat): set<nat>
    requires i <= |calls| < |done|
  {
    if i == 0 || done[i] != done[i - 1] then {}
    else Pending(calls, done, i - 1) + if calls[i - 1].Write? then {calls[i - 1].block} else {}
  }

  /** Every logged block has the contents that the transaction gives it. */
  ghost predicate LoggedHold(view: Disk, x: Txn, sb: Super) {
    forall b: nat | b in x.logged :: HoldsAt(view, x.after, sb, b)
  }

  /** Call i: a write is to a block that the transaction logs; when a transaction is complete its blocks have
      their contents; and no operation ends the last one, so that the log commits, with its writes undone. */
  ghost predicate StepOk(s: Store, l: Layout, calls: seq<Call>, txns: seq<Txn>, done: seq<nat>, sb: Super, i: nat) {
    i < |calls| < |done| ==>
      && done[i] <= done[i + 1] <= done[i] + 1 && done[i + 1] <= |txns|
      && (calls[i].Write? ==> done[i] < |txns| && calls[i].block in txns[done[i]].logged)
      && (done[i + 1] > done[i] ==> LoggedHold(At(s, l, calls, i + 1).view, txns[done[i]], sb))
      && (Commits(At(s, l, calls, i), calls[i]) ==> Pending(calls, done, i + 1) == {})
  }

  ghost predicate Script(s: Store, l: Layout, calls: seq<Call>, f0: Fs, txns: seq<Txn>, done: seq<nat>, sb: Super) {
    && Transactions(f0, txns, sb) && l.start == sb.logstart && l.size == sb.nlog
    && |done| == |calls| + 1 && done[0] == 0
    && OnDisk(s.view, f0, sb) && OnDisk(s.base, f0, sb)
    && forall i: nat :: StepOk(s, l, calls, txns, done, sb, i)
  }

  /** The transactions that are committed before call i. */
  ghost function Committed(s: Store, l: Layout, calls: seq<Call>, done: seq<nat>, i: nat): nat
    requires i <= |calls| < |done|
  {
    if i == 0 then 0
    else if Commits(At(s, l, calls, i - 1), calls[i - 1]) then done[i]
    else Committed(s, l, calls, done, i - 1)
  }

  // ---------- What holds between two calls ----------

  ghost predicate HoldsBut(view: Disk, f: Fs, sb: Super, pending: set<nat>, b: nat) {
    b in pending || HoldsAt(view, f, sb, b)
  }

  ghost predicate AllHoldBut(view: Disk, f: Fs, sb: Super, pending: set<nat>) {
    forall b: nat :: HoldsBut(view, f, sb, pending, b)
  }

  /** With k transactions complete, readers see the file system after them, but for pending blocks. */
  ghost predicate Between(now: Store, f0: Fs, txns: seq<Txn>, sb: Super, k: nat, pending: set<nat>, committed: nat) {
    && k <= |txns| && committed <= k && OnDisk(now.base, StateAfter(f0, txns, committed), sb)
    && AllHoldBut(now.view, StateAfter(f0, txns, k), sb, pending)
    && (pending != {} ==> k < |txns| && pending <= txns[k].logged)
  }

  lemma {:induction false} StateGood(f0: Fs, txns: seq<Txn>, sb: Super, k: nat)
    requires Transactions(f0, txns, sb) && k <= |txns|
    ensures Good(StateAfter(f0, txns, k)) && |StateAfter(f0, txns, k).bitmap| == |f0.bitmap|
  {
    if k > 0 {
      assert TxnAt(f0, txns, sb, k - 1);
      StateGood(f0, txns, sb, k - 1);
    }
  }

  /** A complete transaction: its blocks hold the new file system, and the others hold it because nothing
      changed in them. */
  lemma Completes(view: Disk, x: Txn, sb: Super, pending: set<nat>)
    requires GoodTxn(x, sb.bmapstart, sb.inodestart) && LoggedHold(view, x, sb) && pending <= x.logged
    requires AllHoldBut(view, x.before, sb, pending)
    ensures AllHoldBut(view, x.after, sb, {})
  {
    forall b: nat ensures HoldsBut(view, x.after, sb, {}, b) {
      assert HoldsBut(view, x.before, sb, pending, b);
      if b !in x.logged && b < |x.after.bitmap| && !LogSpec.InLog(sb.logstart, sb.nlog, b) {
        UnloggedHolds(view[b], b, x.before, x.after, x.logged, sb);
      }
    }
  }

  lemma NonePending(view: Disk, f: Fs, sb: Super)
    requires AllHoldBut(view, f, sb, {})
    ensures OnDisk(view, f, sb)
  {
    forall b: nat ensures HoldsAt(view, f, sb, b) {
      assert HoldsBut(view, f, sb, {}, b);
    }
  }

  /** A call changes the view only in the block it writes. */
  lemma CallView(s: Store, l: Layout, call: Call, f: Fs, sb: Super, pending: set<nat>)
    requires AllHoldBut(s.view, f, sb, pending)
    ensures AllHoldBut(Next(s, l, call).view, f, sb, pending + if call.Write? then {call.block} else {})
  {
    var t, more := Next(s, l, call), pending + if call.Write? then {call.block} else {};
    forall b: nat ensures HoldsBut(t.view, f, sb, more, b) {
      assert HoldsBut(s.view, f, sb, pending, b);
    }
  }

  lemma {:induction false} BetweenAt(s: Store, l: Layout, calls: seq<Call>, f0: Fs, txns: seq<Txn>, done: seq<nat>,
      sb: Super, i: nat)
    requires Script(s, l, calls, f0, txns, done, sb) && i <= |calls|
    ensures Between(At(s, l, calls, i), f0, txns, sb, done[i], Pending(calls, done, i), Committed(s, l, calls, done, i))
  {
    if i == 0 {
      FirstBetween(s, f0, txns, sb);
    } else {
      BetweenAt(s, l, calls, f0, txns, done, sb, i - 1);
      AtNext(s, l, calls, i - 1);
      BetweenNext(s, l, calls, f0, txns, done, sb, i - 1, At(s, l, calls, i - 1), At(s, l, calls, i));
    }
  }

  lemma FirstBetween(s: Store, f0: Fs, txns: seq<Txn>, sb: Super)
    requires OnDisk(s.view, f0, sb) && OnDisk(s.base, f0, sb)
    ensures Between(s, f0, txns, sb, 0, {}, 0)
  {
    forall b: nat ensures HoldsBut(s.view, f0, sb, {}, b) {
      assert HoldsAt(s.view, f0, sb, b);
    }
  }

  lemma BetweenNext(s: Store, l: Layout, calls: seq<Call>, f0: Fs, txns: seq<Txn>, done: seq<nat>, sb: Super, i: nat,
      now: Store, later: Store)
    requires Script(s, l, calls, f0, txns, done, sb) && i < |calls|
    requires now == At(s, l, calls, i) && later == At(s, l, calls, i + 1) == Next(now, l, calls[i])
    requires Between(now, f0, txns, sb, done[i], Pending(calls, done, i), Committed(s, l, calls, done, i))
    ensures Between(later, f0, txns, sb, done[i + 1], Pending(calls, done, i + 1), Committed(s, l, calls, done, i + 1))
  {
    assert StepOk(s, l, calls, txns, done, sb, i);
    BetweenStep(now, later, l, calls[i], f0, txns, sb, done[i], done[i + 1], Pending(calls, done, i),
      Pending(calls, done, i + 1), Committed(s, l, calls, done, i));
  }

  lemma BetweenStep(now: Store, later: Store, l: Layout, call: Call, f0: Fs, txns: seq<Txn>, sb: Super, k: nat,
      k': nat, pending: set<nat>, pending': set<nat>, committed: nat)
    requires Transactions(f0, txns, sb) && Between(now, f0, txns, sb, k, pending, committed)
    requires later == Next(now, l, call) && k <= k' <= k + 1 && k' <= |txns|
    requires call.Write? ==> k < |txns| && call.block in txns[k].logged
    requires pending' == if k' > k then {} else pending + if call.Write? then {call.block} else {}
    requires k' > k ==> LoggedHold(later.view, txns[k], sb)
    requires Commits(now, call) ==> pending' == {}
    ensures Between(later, f0, txns, sb, k', pending', if Commits(now, call) then k' else committed)
  {
    CallView(now, l, call, StateAfter(f0, txns, k), sb, pending);
    if k' > k {
      assert TxnAt(f0, txns, sb, k);
      Completes(later.view, txns[k], sb, pending + if call.Write? then {call.block} else {});
    }
    if Commits(now, call) {
      NonePending(later.view, StateAfter(f0, txns, k'), sb);
    }
  }

  // ---------- Crashes ----------

  /** What the disk leaves for recovery is the file system f. */
  ghost predicate Leaves(d: Disk, f: Fs, sb: Super) {
    LogSpec.Recoverable(d, sb.logstart, sb.nlog) && OnDisk(LogSpec.Recovered(d, sb.logstart, sb.nlog), f, sb)
  }

  /** The transactions that a crash at disk j of call i leaves: those committed before the call or, from the
      write of the header on, those committed with it. */
  ghost function Survive(marks: seq<nat>, s: Store, l: Layout, calls: seq<Call>, done: seq<nat>, i: nat, j: nat): nat
    requires i < |calls| < |done| && i < |marks|
  {
    Committed(s, l, calls, done, if j < marks[i] + |At(s, l, calls, i).dirty| then i else i + 1)
  }

  /** A crash at any disk of a run, and then any number of crashes while recovering, leave a disk on which
      recovery finds the file system after exactly the transactions that were committed: all their blocks,
      and nothing of the others. */
  lemma CrashSafe(history: seq<Disk>, marks: seq<nat>, values: seq<Option<Words>>, s: Store, l: Layout,
      calls: seq<Call>, n: nat, i: nat, j: nat, ds: seq<Disk>, f0: Fs, txns: seq<Txn>, done: seq<nat>, sb: Super)
    requires Traced(history, marks, values, s, l, calls, n) && Script(s, l, calls, f0, txns, done, sb)
    requires i < n && marks[i] <= j + 1 <= marks[i + 1] && j < |history|
    requires |ds| > 0 && ds[0] == history[j]
    requires forall k | 0 <= k < |ds| - 1 :: LogSpec.Crashed(ds[k], ds[k + 1], l.start, l.size)
    ensures var k := Survive(marks, s, l, calls, done, i, j);
      k <= done[i + 1] <= |txns| && Good(StateAfter(f0, txns, k)) && Leaves(ds[|ds| - 1], StateAfter(f0, txns, k), sb)
  {
    Durable(history, marks, values, s, l, calls, n, i, j, ds);
    BetweenAt(s, l, calls, f0, txns, done, sb, i);
    BetweenAt(s, l, calls, f0, txns, done, sb, i + 1);
    assert StepOk(s, l, calls, txns, done, sb, i);
    var k := Survive(marks, s, l, calls, done, i, j);
    StateGood(f0, txns, sb, k);
    var now := At(s, l, calls, if j < marks[i] + |At(s, l, calls, i).dirty| then i else i + 1);
    OnDiskSameBack(now.base, LogSpec.Recovered(ds[|ds| - 1], l.start, l.size), StateAfter(f0, txns, k), sb);
  }

  // ---------- A crash during filewrite ----------

  lemma ChainTransactions(f0: Fs, txns: seq<Txn>, t: Fs, sb: Super)
    requires Good(f0) && TxnChain(f0, txns, t) && AllGood(txns, sb.bmapstart, sb.inodestart)
    ensures Transactions(f0, txns, sb)
  {
    forall k: nat ensures TxnAt(f0, txns, sb, k) {
      if 0 < k < |txns| {
        assert Follows(txns, k - 1);
      }
    }
  }

  /** After any number of filewrite's transactions, the file has a prefix of the data in place, and all other
      files are as they were. */
  lemma FilewriteLeaves(f0: Fs, txns: seq<Txn>, ino: nat, off: nat, src: seq<Byte>, k: nat) returns (n: nat)
    requires AllPrefixes(f0, txns, ino, off, src) && ino in f0.inodes && off <= f0.inodes[ino].size
    ensures var f := StateAfter(f0, txns, k);
      n <= |src| && f.inodes.Keys == f0.inodes.Keys && File(f, ino) == Splice(File(f0, ino), off, src[..n])
      && forall j | j in f.inodes && j != ino :: File(f, j) == File(f0, j)
  {
    if 0 < k <= |txns| {
      assert Prefix(f0, txns[k - 1], ino, off, src);
      n :| Grew(f0, txns[k - 1].after, ino, off, src, n);
      GrewFile(f0, txns[k - 1].after, ino, off, src, n);
    } else {
      n := 0;
    }
  }

  /** A crash while filewrite runs: recovery finds a file system in which a prefix of the data is in place, and
      all other files are as they were. */
  lemma FilewriteCrash(history: seq<Disk>, marks: seq<nat>, values: seq<Option<Words>>, s: Store, l: Layout,
      calls: seq<Call>, n: nat, i: nat, j: nat, ds: seq<Disk>, f0: Fs, txns: seq<Txn>, done: seq<nat>, sb: Super,
      ino: nat, off: nat, src: seq<Byte>) returns (f: Fs, p: nat)
    requires Traced(history, marks, values, s, l, calls, n) && Script(s, l, calls, f0, txns, done, sb)
    requires i < n && marks[i] <= j + 1 <= marks[i + 1] && j < |history|
    requires |ds| > 0 && ds[0] == history[j]
    requires forall k | 0 <= k < |ds| - 1 :: LogSpec.Crashed(ds[k], ds[k + 1], l.start, l.size)
    requires AllPrefixes(f0, txns, ino, off, src) && ino in f0.inodes && off <= f0.inodes[ino].size
    ensures Leaves(ds[|ds| - 1], f, sb) && Good(f) && f.inodes.Keys == f0.inodes.Keys && p <= |src|
    ensures File(f, ino) == Splice(File(f0, ino), off, src[..p])
    ensures forall k | k in f.inodes && k != ino :: File(f, k) == File(f0, k)
  {
    CrashSafe(history, marks, values, s, l, calls, n, i, j, ds, f0, txns, done, sb);
    var k := Survive(marks, s, l, calls, done, i, j);
    f := StateAfter(f0, txns, k);
    p := FilewriteLeaves(f0, txns, ino, off, src, k);
  }

  // ---------- One transaction, alone on the log ----------

  /** No operation is under way, nothing is logged, no block is locked or waited for. */
  predicate Idle(s: Store) {
    s.open == 0 && s.dirty == [] && s.held == {} && s.waiting == multiset{}
  }

  function Put(view: Disk, bs: seq<nat>, cs: seq<Words>, m: nat): Disk
    requires m <= |bs| == |cs|
  {
    if m == 0 then view else Put(view, bs, cs, m - 1)[bs[m - 1] := cs[m - 1]]
  }

  /** The store after begin_op and m log_writes. */
  function Logging(s: Store, bs: seq<nat>, cs: seq<Words>, m: nat): Store
    requires m <= |bs| == |cs|
  {
    s.(view := Put(s.view, bs, cs, m), dirty := bs[..m], open := 1)
  }

  /** bs and cs are the blocks that the transaction logs and their contents after it. */
  ghost predicate Carries(s: Store, l: Layout, x: Txn, sb: Super, bs: seq<nat>, cs: seq<Words>) {
    && GoodTxn(x, sb.bmapstart, sb.inodestart) && LogSpec.NoRepeats(bs) && |cs| == |bs|
    && (forall b: nat :: b in bs <==> b in x.logged)
    && forall m: nat :: CarriesAt(s, l, x, sb, bs, cs, m)
  }

  ghost predicate CarriesAt(s: Store, l: Layout, x: Txn, sb: Super, bs: seq<nat>, cs: seq<Words>, m: nat) {
    m < |bs| && m < |cs| ==> Home(s, l, bs[m]) && BlockHolds(cs[m], bs[m], x.after, sb)
  }

  function Elems(bs: seq<nat>): set<nat> {
    set b | b in bs
  }

  lemma {:induction false} DistinctCount(bs: seq<nat>, m: nat)
    requires LogSpec.NoRepeats(bs) && m <= |bs|
    ensures |Elems(bs[..m])| == m
  {
    if m > 0 {
      DistinctCount(bs, m - 1);
      assert bs[..m] == bs[..m - 1] + [bs[m - 1]];
      forall i: nat | i < m - 1 ensures bs[i] != bs[m - 1] {
        assert LogSpec.Differ(bs, i, m - 1);
      }
      assert Elems(bs[..m]) == Elems(bs[..m - 1]) + {bs[m - 1]};
    }
  }

  /** What is in the view after m log_writes. */
  lemma {:induction false} PutAt(view: Disk, bs: seq<nat>, cs: seq<Words>, m: nat, b: nat)
    requires LogSpec.NoRepeats(bs) && m <= |bs| == |cs|
    ensures b !in bs[..m] ==> (b in Put(view, bs, cs, m) <==> b in view)
    ensures b !in bs[..m] && b in view ==> Put(view, bs, cs, m)[b] == view[b]
    ensures forall i: nat | i < m && bs[i] == b :: b in Put(view, bs, cs, m) && Put(view, bs, cs, m)[b] == cs[i]
  {
    if m > 0 {
      PutAt(view, bs, cs, m - 1, b);
      assert bs[..m] == bs[..m - 1] + [bs[m - 1]];
      forall i: nat | i < m && bs[i] == b
        ensures b in Put(view, bs, cs, m) && Put(view, bs, cs, m)[b] == cs[i] {
        assert LogSpec.Differ(bs, i, m - 1);
      }
    }
  }

  /** With all blocks logged, a disk of the file system before the transaction holds the one after it. */
  lemma AllLogged(view: Disk, s: Store, l: Layout, x: Txn, sb: Super, bs: seq<nat>, cs: seq<Words>)
    requires Carries(s, l, x, sb, bs, cs) && OnDisk(view, x.before, sb)
    ensures OnDisk(Put(view, bs, cs, |bs|), x.after, sb)
  {
    var view' := Put(view, bs, cs, |bs|);
    assert bs[..|bs|] == bs;
    forall b: nat ensures HoldsAt(view', x.after, sb, b) {
      PutAt(view, bs, cs, |bs|, b);
      if b in bs {
        var m: nat :| m < |bs| && bs[m] == b;
        assert CarriesAt(s, l, x, sb, bs, cs, m);
      } else if b < |x.after.bitmap| && !LogSpec.InLog(sb.logstart, sb.nlog, b) {
        assert HoldsAt(view, x.before, sb, b);
        UnloggedHolds(view'[b], b, x.before, x.after, x.logged, sb);
      }
    }
  }

  /** The disks of the transaction: a crash at any of them leaves the file system before it, up to the write of
      the header, or the one after it. */
  ghost predicate CrashesLeave(h0: seq<Disk>, h: seq<Disk>, x: Txn, sb: Super, bs: seq<nat>) {
    && h0 <= h && |h| == |h0| + (if bs == [] then 0 else LogSpec.CommitWrites(bs))
    && forall j: nat | |h0| <= j < |h| :: Leaves(h[j], if j < |h0| + |bs| then x.before else x.after, sb)
  }

  /** bread, change, log_write and brelse of block m of the transaction; it panics if no buffer or no log block
      is left. */
  method PerformOne(log: Log.Log, ghost s: Store, ghost l: Layout, bs: seq<nat>, cs: seq<Words>, m: nat)
    returns (ok: bool)
    requires LogSpec.NoRepeats(bs) && |bs| == |cs| && m < |bs| <= LogSpec.LOGSIZE && Idle(s) && Home(s, l, bs[m])
    requires Shows(log, Logging(s, bs, cs, m), l)
    modifies log, log.cache
    ensures ok <==> m < l.nbuf && m < l.size - 1
    ensures ok ==> Shows(log, Logging(s, bs, cs, m + 1), l)
    ensures ok ==> log.cache.history == old(log.cache.history)
  {
    ghost var t, u, v := LoggingNext(s, l, bs, cs, m);
    var value;
    ok, value := Do(log, t, l, Read(bs[m]));
    if ok {
      ok := PerformWrite(log, u, v, l, bs[m], cs[m]);
    }
  }

  method PerformWrite(log: Log.Log, ghost u: Store, ghost v: Store, ghost l: Layout, b: nat, c: Words)
    returns (ok: bool)
    requires Shows(log, u, l) && u.open > 0 && b in u.held && v == Next(u, l, Write(b, c))
    modifies log, log.cache
    ensures ok <==> !Panics(u, l, Write(b, c))
    ensures ok ==> Shows(log, Next(v, l, Release(b)), l)
    ensures ok ==> log.cache.history == old(log.cache.history)
  {
    ok := DoWrite(log, u, l, b, c);
    if ok {
      DoRelease(log, v, l, b);
    }
  }

  lemma LoggingNext(s: Store, l: Layout, bs: seq<nat>, cs: seq<Words>, m: nat) returns (t: Store, u: Store, v: Store)
    requires LogSpec.NoRepeats(bs) && |bs| == |cs| && m < |bs| <= LogSpec.LOGSIZE && Idle(s) && Home(s, l, bs[m])
    ensures t == Logging(s, bs, cs, m) && u == Next(t, l, Read(bs[m])) && v == Next(u, l, Write(bs[m], cs[m]))
    ensures Next(v, l, Release(bs[m])) == Logging(s, bs, cs, m + 1)
    ensures Home(t, l, bs[m]) && bs[m] in u.held && u.open > 0
    ensures (Panics(t, l, Read(bs[m])) <==> m >= l.nbuf) && (Panics(u, l, Write(bs[m], cs[m])) <==> m >= l.size - 1)
  {
    t := Logging(s, bs, cs, m);
    u := Next(t, l, Read(bs[m]));
    v := Next(u, l, Write(bs[m], cs[m]));
    DistinctCount(bs, m);
    PutAt(s.view, bs, cs, m, bs[m]);
    forall i: nat | i < m ensures bs[i] != bs[m] {
      assert LogSpec.Differ(bs, i, m);
    }
    assert Refs(t) == Elems(bs[..m]);
    assert bs[..m + 1] == bs[..m] + [bs[m]];
  }

  /** begin_op, the log_writes and end_op of a transaction, on an idle log.  It panics exactly if the log or the
      cache is too small for its blocks; otherwise the disk holds the file system after it, and a crash at any
      disk in between leaves the one before it, up to the write of the header, or the one after it. */
  method Perform(log: Log.Log, ghost s: Store, ghost l: Layout, ghost x: Txn, ghost sb: Super, bs: seq<nat>,
      cs: seq<Words>) returns (ok: bool, ghost t: Store)
    requires Shows(log, s, l) && Idle(s) && l.start == sb.logstart && l.size == sb.nlog
    requires OnDisk(s.view, x.before, sb) && OnDisk(s.base, x.before, sb) && Carries(s, l, x, sb, bs, cs)
    modifies log, log.cache
    ensures ok <==> bs == [] || (|bs| < l.size && |bs| < l.nbuf)
    ensures ok ==> Shows(log, t, l) && Idle(t) && OnDisk(t.view, x.after, sb) && OnDisk(t.base, x.after, sb)
    ensures ok ==> CrashesLeave(old(log.cache.history), log.cache.history, x, sb, bs)
  {
    t := s;
    FewLogged(x, sb, bs);
    PerformBegin(log, s, l, bs, cs);
    ok := PerformWrites(log, s, l, x, sb, bs, cs, 0);
    if ok {
      ok, t := PerformEnd(log, s, l, x, sb, bs, cs);
    }
  }

  /** begin_op. */
  method PerformBegin(log: Log.Log, ghost s: Store, ghost l: Layout, ghost bs: seq<nat>, ghost cs: seq<Words>)
    requires Shows(log, s, l) && Idle(s) && |bs| == |cs|
    modifies log, log.cache
    ensures Shows(log, Logging(s, bs, cs, 0), l) && log.cache.history == old(log.cache.history)
  {
    var _, _ := Do(log, s, l, Begin);
    assert Next(s, l, Begin) == Logging(s, bs, cs, 0);
  }

  /** The log_writes from the m-th on. */
  method PerformWrites(log: Log.Log, ghost s: Store, ghost l: Layout, ghost x: Txn, ghost sb: Super, bs: seq<nat>,
      cs: seq<Words>, m: nat) returns (ok: bool)
    requires m <= |bs| <= LogSpec.LOGSIZE && Idle(s) && Carries(s, l, x, sb, bs, cs)
    requires Shows(log, Logging(s, bs, cs, m), l)
    modifies log, log.cache
    ensures ok <==> m == |bs| || (|bs| <= l.nbuf && |bs| < l.size)
    ensures ok ==> Shows(log, Logging(s, bs, cs, |bs|), l) && log.cache.history == old(log.cache.history)
    decreases |bs| - m
  {
    ok := true;
    if m < |bs| {
      assert CarriesAt(s, l, x, sb, bs, cs, m);
      ok := PerformOne(log, s, l, bs, cs, m);
      if ok {
        ok := PerformWrites(log, s, l, x, sb, bs, cs, m + 1);
      }
    }
  }

  lemma FewLogged(x: Txn, sb: Super, bs: seq<nat>)
    requires GoodTxn(x, sb.bmapstart, sb.inodestart) && LogSpec.NoRepeats(bs)
    requires forall b: nat :: b in bs <==> b in x.logged
    ensures |bs| <= LogSpec.MAXOPBLOCKS
  {
    DistinctCount(bs, |bs|);
    assert bs[..|bs|] == bs;
    assert Elems(bs) == x.logged;
  }

  /** end_op. */
  method PerformEnd(log: Log.Log, ghost s: Store, ghost l: Layout, ghost x: Txn, ghost sb: Super, bs: seq<nat>,
      cs: seq<Words>) returns (ok: bool, ghost t: Store)
    requires Idle(s) && l.start == sb.logstart && l.size == sb.nlog && |bs| <= LogSpec.LOGSIZE
    requires OnDisk(s.view, x.before, sb) && OnDisk(s.base, x.before, sb) && Carries(s, l, x, sb, bs, cs)
    requires Shows(log, Logging(s, bs, cs, |bs|), l)
    modifies log, log.cache
    ensures ok <==> bs == [] || |bs| < l.nbuf
    ensures ok ==> Shows(log, t, l) && Idle(t) && OnDisk(t.view, x.after, sb) && OnDisk(t.base, x.after, sb)
    ensures ok ==> CrashesLeave(old(log.cache.history), log.cache.history, x, sb, bs)
  {
    ghost var u, h0 := Logging(s, bs, cs, |bs|), log.cache.history;
    EndNext(s, l, x, sb, bs, cs);
    ok := DoEnd(log, u, l);
    t := Next(u, l, End);
    if ok {
      EndLeaves(h0, log.cache.history, u, l, x, sb);
    }
  }

  lemma EndNext(s: Store, l: Layout, x: Txn, sb: Super, bs: seq<nat>, cs: seq<Words>)
    requires Idle(s) && OnDisk(s.view, x.before, sb) && OnDisk(s.base, x.before, sb) && Carries(s, l, x, sb, bs, cs)
    ensures var u := Logging(s, bs, cs, |bs|);
      (Panics(u, l, End) <==> bs != [] && |bs| >= l.nbuf) && May(u, l, End) && u.dirty == bs
      && OnDisk(u.view, x.after, sb) && OnDisk(u.base, x.before, sb)
      && Idle(Next(u, l, End)) && OnDisk(Next(u, l, End).view, x.after, sb) && OnDisk(Next(u, l, End).base, x.after, sb)
  {
    var u := Logging(s, bs, cs, |bs|);
    assert bs[..|bs|] == bs;
    AllLogged(s.view, s, l, x, sb, bs, cs);
    if bs == [] {
      AllLogged(s.base, s, l, x, sb, bs, cs);
    }
    DistinctCount(bs, |bs|);
    assert Refs(u) == Elems(bs);
  }

  lemma EndLeaves(h0: seq<Disk>, h: seq<Disk>, u: Store, l: Layout, x: Txn, sb: Super)
    requires Written(h0, h, u, l, End) && u.open == 1 && l.start == sb.logstart && l.size == sb.nlog
    requires OnDisk(u.view, x.after, sb) && OnDisk(u.base, x.before, sb)
    ensures CrashesLeave(h0, h, x, sb, u.dirty)
  {
    forall j: nat | |h0| <= j < |h|
      ensures Leaves(h[j], if j < |h0| + |u.dirty| then x.before else x.after, sb) {
      assert Switches(h, j, |h0|, u, Next(u, l, End), l);
      if j < |h0| + |u.dirty| {
        OnDiskSameBack(u.base, LogSpec.Recovered(h[j], l.start, l.size), x.before, sb);
      } else {
        OnDiskSameBack(u.view, LogSpec.Recovered(h[j], l.start, l.size), x.after, sb);
      }
    }
  }
}
