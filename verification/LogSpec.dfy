/** What kernel/log.c writes to disk, block by block, and what a crash between any two of
    those writes leaves for recovery.

    A disk holds the log in blocks start .. start + size: a header block, then the logged
    blocks.  The header's word 0 is the number of logged blocks, the next words their homes.
 */
module LogSpec {
  import opened BufferCache

  const MAXOPBLOCKS: nat := 10
  const LOGSIZE: nat := MAXOPBLOCKS * 3

  // ---------- The header block ----------

  ghost predicate GoodHead(b: Block) {
    && |b| > LOGSIZE && 0 <= b[0] <= LOGSIZE
    && forall i | 1 <= i <= b[0] :: b[i] >= 0
  }

  /** read_head */
  ghost function HeadOf(b: Block): (lh: seq<nat>)
    requires GoodHead(b)
    ensures |lh| == b[0] && forall i | 0 <= i < |lh| :: lh[i] == b[i + 1]
  {
    seq(b[0], i requires 0 <= i < b[0] => b[i + 1])
  }

  /** write_head: only the first n + 1 words of the old header block change. */
  ghost function WithHead(b: Block, lh: seq<nat>): (r: Block)
    requires |b| > LOGSIZE >= |lh|
    ensures GoodHead(r) && HeadOf(r) == lh && |r| == |b|
  {
    seq(|b|, i requires 0 <= i < |b| => if i == 0 then |lh| else if i <= |lh| then lh[i - 1] else b[i])
  }

  // ---------- Layout ----------

  ghost predicate InLog(start: nat, size: nat, b: nat) {
    start <= b < start + size
  }

  /** Logged homes are distinct disk blocks outside the log, and the log has room for them. */
  ghost predicate Loggable(keys: set<nat>, start: nat, size: nat, lh: seq<nat>) {
    && |lh| <= LOGSIZE && |lh| < size
    && (forall b | InLog(start, size, b) :: b in keys)
    && (forall i | 0 <= i < |lh| :: lh[i] in keys && !InLog(start, size, lh[i]))
    && NoRepeats(lh)
  }

  ghost predicate NoRepeats(lh: seq<nat>) {
    forall i: nat, j: nat :: Differ(lh, i, j)
  }

  ghost predicate Differ(lh: seq<nat>, i: nat, j: nat) {
    i < j < |lh| ==> lh[i] != lh[j]
  }

  lemma AppendNew(lh: seq<nat>, b: nat)
    requires NoRepeats(lh) && b !in lh
    ensures NoRepeats(lh + [b])
  {
    var l := lh + [b];
    forall i: nat, j: nat ensures Differ(l, i, j) {
      assert Differ(lh, i, j);
    }
  }

  /** A disk that recovery can start from. */
  ghost predicate Recoverable(d: Disk, start: nat, size: nat) {
    && start in d && GoodHead(d[start])
    && Loggable(d.Keys, start, size, HeadOf(d[start]))
  }

  /** Two disks agree on every block outside the log. */
  ghost predicate SameHome(d: Disk, e: Disk, start: nat, size: nat) {
    && d.Keys == e.Keys
    && forall b: nat :: SameAt(d, e, start, size, b)
  }

  ghost predicate SameAt(d: Disk, e: Disk, start: nat, size: nat, b: nat) {
    b in d && !InLog(start, size, b) ==> b in e && d[b] == e[b]
  }

  // ---------- What each phase writes ----------

  /** write_log after k iterations: the first k logged blocks, from the cache contents `view`. */
  ghost function Logged(d: Disk, start: nat, lh: seq<nat>, view: Disk, k: nat): (r: Disk)
    requires k <= |lh| && forall i | 0 <= i < |lh| :: lh[i] in view
  {
    if k == 0 then d else Logged(d, start, lh, view, k - 1)[start + k := view[lh[k - 1]]]
  }

  /** install_trans after k iterations. */
  ghost function Installed(d: Disk, start: nat, size: nat, lh: seq<nat>, k: nat): (r: Disk)
    requires Loggable(d.Keys, start, size, lh) && k <= |lh|
    ensures r.Keys == d.Keys
    ensures forall b | b in d && InLog(start, size, b) :: r[b] == d[b]
  {
    if k == 0 then d
    else
      var p := Installed(d, start, size, lh, k - 1);
      assert InLog(start, size, start + k);
      p[lh[k - 1] := p[start + k]]
  }

  ghost function Headed(d: Disk, start: nat, lh: seq<nat>): (r: Disk)
    requires start in d && |d[start]| > LOGSIZE >= |lh|
    ensures r.Keys == d.Keys && GoodHead(r[start]) && HeadOf(r[start]) == lh
  {
    d[start := WithHead(d[start], lh)]
  }

  /** recover_from_log */
  ghost function Recovered(d: Disk, start: nat, size: nat): (r: Disk)
    requires Recoverable(d, start, size)
  {
    var lh := HeadOf(d[start]);
    Headed(Installed(d, start, size, lh, |lh|), start, [])
  }

  /** The disk after the first k writes of recovery: one per logged block, then the header. */
  ghost function RecoveryState(d: Disk, start: nat, size: nat, k: nat): (r: Disk)
    requires Recoverable(d, start, size) && k <= RecoveryWrites(d, start)
    ensures r.Keys == d.Keys
  {
    if k <= |HeadOf(d[start])| then Installed(d, start, size, HeadOf(d[start]), k) else Recovered(d, start, size)
  }

  ghost function RecoveryWrites(d: Disk, start: nat): nat
    requires start in d && GoodHead(d[start])
  {
    |HeadOf(d[start])| + 1
  }

  // ---------- Pointwise facts ----------

  lemma {:induction false} InstalledAt(d: Disk, start: nat, size: nat, lh: seq<nat>, k: nat, b: nat)
    requires Loggable(d.Keys, start, size, lh) && k <= |lh| && b in d
    ensures (forall i | 0 <= i < k :: lh[i] != b) ==> Installed(d, start, size, lh, k)[b] == d[b]
    ensures forall i | 0 <= i < k :: lh[i] == b ==> Installed(d, start, size, lh, k)[b] == d[start + i + 1]
  {
    if k > 0 {
      InstalledAt(d, start, size, lh, k - 1, b);
      assert InLog(start, size, start + k);
      forall i | 0 <= i < k && lh[i] == b ensures Installed(d, start, size, lh, k)[b] == d[start + i + 1] {
        assert Differ(lh, i, k - 1);
      }
    }
  }

  lemma {:induction false} LoggedAt(d: Disk, start: nat, lh: seq<nat>, view: Disk, k: nat, b: nat)
    requires k <= |lh| && (forall i | 0 <= i < |lh| :: lh[i] in view)
    ensures b in Logged(d, start, lh, view, k) <==> b in d || start < b <= start + k
    ensures start < b <= start + k ==> Logged(d, start, lh, view, k)[b] == view[lh[b - start - 1]]
    ensures !(start < b <= start + k) && b in d ==> Logged(d, start, lh, view, k)[b] == d[b]
  {
    if k > 0 {
      LoggedAt(d, start, lh, view, k - 1, b);
    }
  }

  // ---------- Recovery ----------

  /** Installing again from any intermediate state, with the same header, gives the same homes. */
  lemma ReinstallSame(d: Disk, start: nat, size: nat, lh: seq<nat>, k: nat)
    requires Loggable(d.Keys, start, size, lh) && k <= |lh|
    ensures var e := Installed(d, start, size, lh, k);
            Installed(e, start, size, lh, |lh|) == Installed(d, start, size, lh, |lh|)
  {
    var e := Installed(d, start, size, lh, k);
    var x, y := Installed(e, start, size, lh, |lh|), Installed(d, start, size, lh, |lh|);
    forall b | b in d ensures x[b] == y[b] {
      InstalledAt(d, start, size, lh, k, b);
      InstalledAt(d, start, size, lh, |lh|, b);
      InstalledAt(e, start, size, lh, |lh|, b);
      if i :| 0 <= i < |lh| && lh[i] == b {
        assert InLog(start, size, start + i + 1);
      }
    }
  }

  /** A crash during recovery is harmless: every state it passes through can be recovered, to
      the same homes. */
  lemma RecoveryRestarts(d: Disk, start: nat, size: nat, k: nat)
    requires Recoverable(d, start, size) && k <= RecoveryWrites(d, start)
    ensures Restarts(d, RecoveryState(d, start, size, k), start, size)
  {
    var lh := HeadOf(d[start]);
    assert InLog(start, size, start);
    if k <= |lh| {
      ReinstallSame(d, start, size, lh, k);
    }
  }

  /** Recovering e gives the homes that recovering d gives. */
  ghost predicate Restarts(d: Disk, e: Disk, start: nat, size: nat)
    requires Recoverable(d, start, size)
  {
    Recoverable(e, start, size) && SameHome(Recovered(e, start, size), Recovered(d, start, size), start, size)
  }

  /** Recovery of d was cut short by a crash that left e. */
  ghost predicate Crashed(d: Disk, e: Disk, start: nat, size: nat) {
    Recoverable(d, start, size) && exists k: nat ::
      k <= RecoveryWrites(d, start) && e == RecoveryState(d, start, size, k)
  }

  lemma HeadedSame(d: Disk, start: nat, size: nat, lh: seq<nat>)
    requires start in d && |d[start]| > LOGSIZE >= |lh| && size > 0
    ensures SameHome(Headed(d, start, lh), d, start, size)
  {
    assert InLog(start, size, start);
    var e := Headed(d, start, lh);
    assert forall b: nat :: SameAt(e, d, start, size, b);
  }

  /** Any number of crashes: each disk was left by a crash while recovering the one before. */
  lemma {:induction false} CrashesDuringRecovery(ds: seq<Disk>, start: nat, size: nat)
    requires |ds| > 0 && Recoverable(ds[0], start, size)
    requires forall i | 0 <= i < |ds| - 1 :: Crashed(ds[i], ds[i + 1], start, size)
    ensures Restarts(ds[0], ds[|ds| - 1], start, size)
  {
    if |ds| > 1 {
      var d, e := ds[0], ds[1];
      assert Crashed(ds[0], ds[0 + 1], start, size);
      var k: nat :| k <= RecoveryWrites(d, start) && e == RecoveryState(d, start, size, k);
      RecoveryRestarts(d, start, size, k);
      forall i | 0 <= i < |ds[1..]| - 1 ensures Crashed(ds[1..][i], ds[1..][i + 1], start, size) {
        assert Crashed(ds[i + 1], ds[i + 1 + 1], start, size);
      }
      CrashesDuringRecovery(ds[1..], start, size);
      RestartsTrans(d, e, ds[|ds| - 1], start, size);
    }
  }

  lemma RestartsTrans(d: Disk, e: Disk, f: Disk, start: nat, size: nat)
    requires Recoverable(d, start, size) && Restarts(d, e, start, size) && Restarts(e, f, start, size)
    ensures Restarts(d, f, start, size)
  {
    SameHomeTrans(Recovered(f, start, size), Recovered(e, start, size), Recovered(d, start, size), start, size);
  }

  lemma SameHomeTrans(d: Disk, e: Disk, f: Disk, start: nat, size: nat)
    requires SameHome(d, e, start, size) && SameHome(e, f, start, size)
    ensures SameHome(d, f, start, size)
  {
    forall b: nat ensures SameAt(d, f, start, size, b) {
      assert SameAt(d, e, start, size, b) && SameAt(e, f, start, size, b);
    }
  }

  // ---------- Commit ----------

  /** A disk with an empty log, and a transaction that fits. */
  ghost predicate Committable(d: Disk, start: nat, size: nat, lh: seq<nat>, view: Disk) {
    && start in d && GoodHead(d[start]) && d[start][0] == 0
    && Loggable(d.Keys, start, size, lh) && lh != []
    && view.Keys == d.Keys
  }

  /** The disk on which the header has just been written: the commit point. */
  ghost function Point(d: Disk, start: nat, size: nat, lh: seq<nat>, view: Disk): (r: Disk)
    requires Committable(d, start, size, lh, view)
    ensures r.Keys == d.Keys
  {
    LoggedKeys(d, start, size, lh, view, |lh|);
    Headed(Logged(d, start, lh, view, |lh|), start, lh)
  }

  lemma PointGood(d: Disk, start: nat, size: nat, lh: seq<nat>, view: Disk)
    requires Committable(d, start, size, lh, view)
    ensures var p := Point(d, start, size, lh, view); Recoverable(p, start, size) && HeadOf(p[start]) == lh
  {
    LoggedKeys(d, start, size, lh, view, |lh|);
  }

  lemma LoggedKeys(d: Disk, start: nat, size: nat, lh: seq<nat>, view: Disk, k: nat)
    requires Committable(d, start, size, lh, view) && k <= |lh|
    ensures var r := Logged(d, start, lh, view, k); r.Keys == d.Keys && r[start] == d[start]
    ensures SameHome(Logged(d, start, lh, view, k), d, start, size)
  {
    forall b: nat ensures b in Logged(d, start, lh, view, k) <==> b in d {
      LoggedAt(d, start, lh, view, k, b);
      assert start < b <= start + k ==> InLog(start, size, b);
    }
    LoggedAt(d, start, lh, view, k, start);
    var e := Logged(d, start, lh, view, k);
    forall b: nat ensures SameAt(e, d, start, size, b) {
      LoggedAt(d, start, lh, view, k, b);
      assert start < b <= start + k ==> InLog(start, size, b);
    }
  }

  /** The disk after the first k writes of commit: the log blocks, the header, the homes, the
      header again. */
  ghost function CommitState(d: Disk, start: nat, size: nat, lh: seq<nat>, view: Disk, k: nat): (r: Disk)
    requires Committable(d, start, size, lh, view) && k <= CommitWrites(lh)
  {
    if k <= |lh| then Logged(d, start, lh, view, k)
    else
      PointGood(d, start, size, lh, view);
      RecoveryState(Point(d, start, size, lh, view), start, size, k - |lh| - 1)
  }

  ghost function CommitWrites(lh: seq<nat>): nat {
    |lh| + 1 + |lh| + 1
  }

  lemma PointLog(d: Disk, start: nat, size: nat, lh: seq<nat>, view: Disk, i: nat)
    requires Committable(d, start, size, lh, view) && i < |lh|
    ensures start + i + 1 in d && Point(d, start, size, lh, view)[start + i + 1] == view[lh[i]]
  {
    var j, e := start + i + 1, Logged(d, start, lh, view, |lh|);
    assert InLog(start, size, j);
    LoggedKeys(d, start, size, lh, view, |lh|);
    LoggedAt(d, start, lh, view, |lh|, j);
    HeadedElse(e, start, lh, j);
  }

  lemma HeadedElse(d: Disk, start: nat, lh: seq<nat>, b: nat)
    requires start in d && |d[start]| > LOGSIZE >= |lh| && b in d && b != start
    ensures Headed(d, start, lh)[b] == d[b]
  {
  }

  lemma PointElse(d: Disk, start: nat, size: nat, lh: seq<nat>, view: Disk, b: nat)
    requires Committable(d, start, size, lh, view) && b in d && !InLog(start, size, b)
    ensures Point(d, start, size, lh, view)[b] == d[b]
  {
    LoggedAt(d, start, lh, view, |lh|, b);
    assert InLog(start, size, start);
  }

  lemma PointAt(d: Disk, start: nat, size: nat, lh: seq<nat>, view: Disk, p: Disk, b: nat)
    requires Committable(d, start, size, lh, view) && p == Point(d, start, size, lh, view)
    requires b in d && !InLog(start, size, b)
    ensures Installed(p, start, size, lh, |lh|)[b] == if b in lh then view[b] else d[b]
  {
    var q := Installed(p, start, size, lh, |lh|);
    InstalledAt(p, start, size, lh, |lh|, b);
    if b in lh {
      var i :| 0 <= i < |lh| && lh[i] == b;
      PointLog(d, start, size, lh, view, i);
      assert q[b] == p[start + i + 1];
    } else {
      PointElse(d, start, size, lh, view, b);
      assert q[b] == p[b];
    }
  }

  /** Recovering from the commit point gives the disk with the whole transaction applied. */
  lemma PointRecovers(d: Disk, start: nat, size: nat, lh: seq<nat>, view: Disk, p: Disk, r: Disk)
    requires Committable(d, start, size, lh, view) && p == Point(d, start, size, lh, view)
    requires r == Installed(p, start, size, lh, |lh|)
    ensures SameHome(r, After(d, lh, view), start, size)
  {
    var a := After(d, lh, view);
    forall b: nat ensures SameAt(r, a, start, size, b) {
      if b in d && !InLog(start, size, b) {
        PointAt(d, start, size, lh, view, p, b);
      }
    }
  }

  lemma PointRecoverable(d: Disk, start: nat, size: nat, lh: seq<nat>, view: Disk, p: Disk)
    requires Committable(d, start, size, lh, view) && p == Point(d, start, size, lh, view)
    ensures Recoverable(p, start, size) && SameHome(Recovered(p, start, size), After(d, lh, view), start, size)
  {
    var r := Installed(p, start, size, lh, |lh|);
    PointGood(d, start, size, lh, view);
    PointRecovers(d, start, size, lh, view, p, r);
    assert InLog(start, size, start);
    HeadedSame(r, start, size, []);
    SameHomeTrans(Recovered(p, start, size), r, After(d, lh, view), start, size);
  }

  /** The disk with every logged block replaced by its cached contents. */
  ghost function After(d: Disk, lh: seq<nat>, view: Disk): Disk
    requires view.Keys == d.Keys
  {
    map b | b in d :: if b in lh then view[b] else d[b]
  }

  /** Until the header is written the log is still empty, so recovery changes no home. */
  lemma BeforePoint(d: Disk, start: nat, size: nat, lh: seq<nat>, view: Disk, k: nat)
    requires Committable(d, start, size, lh, view) && k <= |lh|
    ensures RecoversTo(CommitState(d, start, size, lh, view, k), d, start, size)
  {
    LoggedKeys(d, start, size, lh, view, k);
    var e := Logged(d, start, lh, view, k);
    HeadedSame(e, start, size, []);
    SameHomeTrans(Headed(e, start, []), e, d, start, size);
  }

  lemma PointRestarts(d: Disk, start: nat, size: nat, lh: seq<nat>, view: Disk, p: Disk, k: nat)
    requires Committable(d, start, size, lh, view) && p == Point(d, start, size, lh, view) && k <= |lh| + 1
    ensures Recoverable(p, start, size) && |HeadOf(p[start])| == |lh|
    ensures RecoversTo(RecoveryState(p, start, size, k), After(d, lh, view), start, size)
  {
    PointGood(d, start, size, lh, view);
    PointRecoverable(d, start, size, lh, view, p);
    RecoveryRestarts(p, start, size, k);
    var e := RecoveryState(p, start, size, k);
    SameHomeTrans(Recovered(e, start, size), Recovered(p, start, size), After(d, lh, view), start, size);
  }

  /** From the header write on, recovery installs the whole transaction. */
  lemma AfterPoint(d: Disk, start: nat, size: nat, lh: seq<nat>, view: Disk, k: nat)
    requires Committable(d, start, size, lh, view) && |lh| < k <= CommitWrites(lh)
    ensures RecoversTo(CommitState(d, start, size, lh, view, k), After(d, lh, view), start, size)
  {
    PointRestarts(d, start, size, lh, view, Point(d, start, size, lh, view), k - |lh| - 1);
  }

  /** Recovery of e succeeds and yields the homes of d. */
  ghost predicate RecoversTo(e: Disk, d: Disk, start: nat, size: nat) {
    Recoverable(e, start, size) && SameHome(Recovered(e, start, size), d, start, size)
  }

  /** Crash atomicity.  After the first k writes of a commit (k = 0: none) a crash leaves a disk
      whose recovery has exactly the homes before the transaction, or exactly those after it;
      the latter precisely when the header write, write number |lh| + 1, was among the k. */
  lemma CrashAtomicity(d: Disk, start: nat, size: nat, lh: seq<nat>, view: Disk, k: nat)
    requires Committable(d, start, size, lh, view) && k <= CommitWrites(lh)
    ensures RecoversTo(CommitState(d, start, size, lh, view, k),
                       if k <= |lh| then d else After(d, lh, view), start, size)
  {
    if k <= |lh| {
      BeforePoint(d, start, size, lh, view, k);
    } else {
      AfterPoint(d, start, size, lh, view, k);
    }
  }
}
