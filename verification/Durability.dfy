/** The log end to end: any interleaving of operations and readers over the log and the cache, a crash at
    any disk write, and any number of crashes while recovering.

    The specification is a block store with group commit: what readers see, what is committed, the blocks
    written since, the number of operations under way, and the blocks that processes hold locked or wait
    for.  A call is what a process does between two points where it may have to wait: begin_op; bread, up
    to the lock; the lock, when a sleeper is woken; a change and its log_write; brelse; end_op.
 */
module Durability {
  import opened Common
  import opened BufferCache
  import opened LogSpec
  import opened Log

  datatype Call =
    | Begin
    | Read(block: nat)
    | Wake(block: nat)
    | Write(block: nat, data: Block)
    | Release(block: nat)
    | End

  datatype Store = Store(view: Disk, base: Disk, dirty: seq<nat>, open: nat, held: set<nat>, waiting: multiset<nat>)

  /** The log's place on disk and the number of buffers. */
  datatype Layout = Layout(start: nat, size: nat, nbuf: nat)

  predicate Home(s: Store, l: Layout, b: nat) {
    b in s.view && !(l.start <= b < l.start + l.size)
  }

  /** A process is in the position to make the call: it reads a file block; it is asleep on the block's lock;
      it changes a block that it holds, in an operation; it lets go of a block it holds; it ends an
      operation.  The last operation ends when no reader holds a block of the transaction: commit would
      wait for it. */
  predicate May(s: Store, l: Layout, call: Call) {
    match call
    case Begin => true
    case Read(b) => Home(s, l, b)
    case Wake(b) => b in s.waiting
    case Write(b, _) => s.open > 0 && b in s.held
    case Release(b) => b in s.held
    case End => s.open > 0 && (s.open == 1 ==> forall b | b in s.dirty :: b !in s.held)
  }

  /** What a call does.  begin_op waits for room and a sleeper for its lock: until then nothing changes. */
  function Next(s: Store, l: Layout, call: Call): Store {
    match call
    case Begin => if |s.dirty| + (s.open + 1) * MAXOPBLOCKS <= LOGSIZE then s.(open := s.open + 1) else s
    case Read(b) =>
      if b in s.held then s.(waiting := s.waiting + multiset{b}) else s.(held := s.held + {b})
    case Wake(b) =>
      if b in s.held then s else s.(held := s.held + {b}, waiting := s.waiting - multiset{b})
    case Write(b, data) => s.(view := s.view[b := data], dirty := Absorbed(s.dirty, b))
    case Release(b) => s.(held := s.held - {b})
    case End =>
      if Commits(s, call) then s.(base := s.view, dirty := [], open := 0)
      else s.(open := if s.open == 0 then 0 else s.open - 1)
  }

  /** The call commits the transaction. */
  predicate Commits(s: Store, call: Call) {
    call.End? && s.open == 1 && s.dirty != []
  }

  /** The call ends in a panic: the log is full, or every buffer is referred to, by the transaction or by
      processes, and a further one is needed. */
  predicate Panics(s: Store, l: Layout, call: Call) {
    match call
    case Read(b) => b !in Refs(s) && |Refs(s)| >= l.nbuf
    case Write(b, _) => |s.dirty| >= LOGSIZE || |s.dirty| >= l.size - 1
    case End => Commits(s, call) && |Refs(s)| >= l.nbuf
    case _ => false
  }

  /** The blocks whose buffers are referred to. */
  function Refs(s: Store): set<nat> {
    s.held + (set b | b in s.waiting) + set b | b in s.dirty
  }

  /** What the caller finds in the buffer it comes to hold. */
  function Value(s: Store, call: Call): Option<Block> {
    if (call.Read? || call.Wake?) && call.block !in s.held && call.block in s.view then Some(s.view[call.block])
    else None
  }

  /** The number of disk writes of the call. */
  ghost function Writes(s: Store, call: Call): nat {
    if Commits(s, call) then CommitWrites(s.dirty) else 0
  }

  function After(s: Store, l: Layout, calls: seq<Call>): Store {
    if calls == [] then s else Next(After(s, l, calls[..|calls| - 1]), l, calls[|calls| - 1])
  }

  // ---------- The log and the cache refine the store ----------

  /** What the log and the cache look like between two calls. */
  ghost predicate Shows(log: Log, s: Store, l: Layout)
    reads log, log.cache
  {
    && log.Valid() && !log.committing && l == Layout(log.start, log.size, log.cache.n)
    && log.lh == s.dirty && log.outstanding == s.open
    && Mirrors(log.cache.abs, s, l) && AllLogged(s, l)
  }

  ghost predicate Mirrors(a: Abs, s: Store, l: Layout) {
    && a.view.Keys == a.disk.Keys && a.held == s.held && a.pins == multiset(s.dirty) + s.waiting
    && (forall b: nat :: RefersHome(s, l, b))
    && SameHome(a.view, s.view, l.start, l.size) && SameHome(a.disk, s.base, l.start, l.size)
  }

  ghost predicate RefersHome(s: Store, l: Layout, b: nat) {
    b in Refs(s) ==> Home(s, l, b)
  }

  /** Only blocks of the transaction differ from what is committed. */
  ghost predicate AllLogged(s: Store, l: Layout) {
    forall b: nat :: LoggedIfChanged(s, l, b)
  }

  ghost predicate LoggedIfChanged(s: Store, l: Layout, b: nat) {
    Home(s, l, b) && b !in s.dirty ==> b in s.base && s.base[b] == s.view[b]
  }

  /** With an empty log, recovery changes nothing outside the log. */
  lemma EmptyRecovers(d: Disk, start: nat, size: nat)
    requires start in d && GoodHead(d[start]) && d[start][0] == 0 && size > 0
    requires forall b | InLog(start, size, b) :: b in d
    ensures RecoversTo(d, d, start, size)
  {
    HeadedSame(d, start, size, []);
  }

  lemma Settled(log: Log, s: Store, l: Layout)
    requires Shows(log, s, l)
    ensures RecoversTo(log.cache.disk, s.base, l.start, l.size)
  {
    EmptyRecovers(log.cache.disk, l.start, l.size);
    RecoversSame(log.cache.disk, log.cache.disk, s.base, l.start, l.size);
  }

  lemma BusyIsRefs(a: Abs, s: Store, l: Layout)
    requires Mirrors(a, s, l)
    ensures Busy(a) == Refs(s)
  {
  }

  lemma MirrorsPinned(a: Abs, s: Store, l: Layout)
    requires Mirrors(a, s, l)
    ensures Pinned(a, l.start, l.size, s.dirty)
  {
    BusyIsRefs(a, s, l);
    forall b: nat ensures Outside(a, l.start, l.size, b) {
      assert RefersHome(s, l, b);
    }
  }

  /** bread finds no buffer exactly when every buffer is referred to, and none is the block's. */
  lemma NoBufferIff(log: Log, s: Store, l: Layout, b: nat)
    requires Shows(log, s, l)
    ensures (b !in log.cache.slot && |Busy(log.cache.abs)| == log.cache.n) <==> (b !in Refs(s) && |Refs(s)| >= l.nbuf)
    ensures |Refs(s)| <= l.nbuf
  {
    AllTaken(log.cache.bufs, log.cache.slot, log.cache.abs);
    BusyIsRefs(log.cache.abs, s, l);
  }

  /** The contents of a block of the store, in the cache and on disk. */
  lemma SeenAt(a: Abs, s: Store, l: Layout, b: nat)
    requires Mirrors(a, s, l) && AllLogged(s, l) && Home(s, l, b)
    ensures b in a.view && a.view[b] == s.view[b] && b in a.disk
    ensures b !in s.dirty ==> a.disk[b] == a.view[b]
  {
    assert SameAt(a.view, s.view, l.start, l.size, b) && SameAt(a.disk, s.base, l.start, l.size, b);
    assert LoggedIfChanged(s, l, b);
  }

  /** Logging a block again takes no further slot. */
  function Absorbed(lh: seq<nat>, b: nat): seq<nat> {
    if b in lh then lh else lh + [b]
  }

  /** The pointer that bread gave a process: while the process has its reference, the buffer is the
      block's only one. */
  ghost predicate Points(cache: Bcache, buf: nat, b: nat)
    reads cache
  {
    buf < |cache.bufs| && cache.bufs[buf].dev == ROOTDEV && cache.bufs[buf].blockno == b
  }

  method Pointer(log: Log, ghost s: Store, ghost l: Layout, b: nat) returns (buf: nat)
    requires Shows(log, s, l) && b in s.held + set c | c in s.waiting
    ensures buf < log.cache.n && Points(log.cache, buf, b)
    ensures log.cache.bufs[buf].locked <==> b in s.held
  {
    assert GoodBlock(b, log.cache.bufs, log.cache.slot, log.cache.abs);
    assert Points(log.cache, log.cache.slot[b], b);
    buf :| buf < |log.cache.bufs| && log.cache.bufs[buf].dev == ROOTDEV && log.cache.bufs[buf].blockno == b;
    assert GoodBuf(buf, log.cache.bufs[buf], log.cache.slot, log.cache.abs);
  }

  method DoRead(log: Log, ghost s: Store, ghost l: Layout, b: nat) returns (ok: bool, value: Option<Block>)
    requires Shows(log, s, l) && Home(s, l, b)
    modifies log.cache
    ensures ok <==> !Panics(s, l, Read(b))
    ensures ok ==> Shows(log, Next(s, l, Read(b)), l) && value == Value(s, Read(b))
    ensures log.cache.history == old(log.cache.history)
  {
    ghost var a := log.cache.abs;
    NoBufferIff(log, s, l, b);
    SeenAt(a, s, l, b);
    var r := log.cache.Bread(b);
    ok, value := !r.Full?, None;
    if r.Taken? {
      value := Some(log.cache.bufs[r.value].data);
    }
    if ok {
      PinsNext(a.pins, multiset(s.dirty), s.waiting, b);
      RefersTo(a, log.cache.abs, s, l, Next(s, l, Read(b)), b);
      StillLogged(s, l, Read(b));
    }
  }

  lemma PinsNext(pins: multiset<nat>, logged: multiset<nat>, waiting: multiset<nat>, b: nat)
    requires pins == logged + waiting
    ensures pins + multiset{b} == logged + (waiting + multiset{b})
    ensures b in waiting ==> pins - multiset{b} == logged + (waiting - multiset{b})
  {
  }

  /** A call that only changes which blocks are referred to. */
  lemma RefersTo(a: Abs, a': Abs, s: Store, l: Layout, t: Store, b: nat)
    requires Mirrors(a, s, l) && a'.view == a.view && a'.disk == a.disk && Home(s, l, b)
    requires t == s.(held := a'.held, waiting := t.waiting) && t.held <= s.held + {b}
    requires a'.pins == multiset(s.dirty) + t.waiting && t.waiting <= s.waiting + multiset{b}
    ensures Mirrors(a', t, l) && Pinned(a', l.start, l.size, t.dirty)
  {
    forall c: nat ensures RefersHome(t, l, c) {
      assert RefersHome(s, l, c);
    }
    MirrorsPinned(a', t, l);
  }

  lemma StillLogged(s: Store, l: Layout, call: Call)
    requires AllLogged(s, l) && !call.End? && !call.Write?
    ensures AllLogged(Next(s, l, call), l)
  {
    var t := Next(s, l, call);
    forall b: nat ensures LoggedIfChanged(t, l, b) {
      assert LoggedIfChanged(s, l, b);
    }
  }

  method DoWake(log: Log, ghost s: Store, ghost l: Layout, b: nat) returns (value: Option<Block>)
    requires Shows(log, s, l) && b in s.waiting
    modifies log.cache
    ensures Shows(log, Next(s, l, Wake(b)), l) && value == Value(s, Wake(b))
    ensures log.cache.history == old(log.cache.history)
  {
    ghost var a := log.cache.abs;
    assert RefersHome(s, l, b);
    SeenAt(a, s, l, b);
    var buf := Pointer(log, s, l, b);
    var ok := log.cache.Wake(buf);
    value := None;
    if ok {
      value := Some(log.cache.bufs[buf].data);
      PinsNext(a.pins, multiset(s.dirty), s.waiting, b);
      RefersTo(a, log.cache.abs, s, l, Next(s, l, Wake(b)), b);
      StillLogged(s, l, Wake(b));
    }
  }

  method DoRelease(log: Log, ghost s: Store, ghost l: Layout, b: nat)
    requires Shows(log, s, l) && b in s.held
    modifies log.cache
    ensures Shows(log, Next(s, l, Release(b)), l)
    ensures log.cache.history == old(log.cache.history)
  {
    ghost var a := log.cache.abs;
    assert RefersHome(s, l, b);
    SeenAt(a, s, l, b);
    var buf := Pointer(log, s, l, b);
    log.cache.Brelse(buf);
    RefersTo(a, log.cache.abs, s, l, Next(s, l, Release(b)), b);
    StillLogged(s, l, Release(b));
  }

  /** The holder of a buffer puts new contents in it and logs it. */
  method PutBlock(log: Log, buf: nat, data: Block) returns (ok: bool)
    requires log.Valid() && buf < log.cache.n && log.cache.Locked(buf, log.cache.bufs[buf].blockno)
    modifies log, log.cache
    ensures ok <==> |old(log.lh)| < LOGSIZE && |old(log.lh)| < log.size - 1 && log.outstanding >= 1
    ensures log.outstanding == old(log.outstanding) && log.committing == old(log.committing)
    ensures log.cache.history == old(log.cache.history)
    ensures ok ==> var b := old(log.cache.bufs)[buf].blockno;
      log.Valid() && log.lh == Absorbed(old(log.lh), b)
      && log.cache.abs == Put(old(log.cache.abs), old(log.lh), b, data)
  {
    ghost var a := log.cache.abs;
    log.cache.SetData(buf, data);
    StillOutside(a, log.cache.abs, log.start, log.size);
    ok := log.LogWrite(buf);
  }

  ghost function Put(a: Abs, lh: seq<nat>, b: nat, data: Block): Abs {
    a.(view := a.view[b := data], pins := if b in lh then a.pins else a.pins + multiset{b})
  }

  method DoWrite(log: Log, ghost s: Store, ghost l: Layout, b: nat, data: Block) returns (ok: bool)
    requires Shows(log, s, l) && s.open > 0 && b in s.held
    modifies log, log.cache
    ensures ok <==> !Panics(s, l, Write(b, data))
    ensures ok ==> Shows(log, Next(s, l, Write(b, data)), l)
    ensures log.cache.history == old(log.cache.history)
  {
    ghost var a := log.cache.abs;
    var buf := Pointer(log, s, l, b);
    WriteMirrors(a, s, l, b, data);
    WriteLogged(s, l, b, data);
    ok := PutBlock(log, buf, data);
  }

  lemma WriteLogged(s: Store, l: Layout, b: nat, data: Block)
    requires AllLogged(s, l)
    ensures AllLogged(Next(s, l, Write(b, data)), l)
  {
    var t := Next(s, l, Write(b, data));
    forall c: nat ensures LoggedIfChanged(t, l, c) {
      assert LoggedIfChanged(s, l, c);
    }
  }

  lemma WriteMirrors(a: Abs, s: Store, l: Layout, b: nat, data: Block)
    requires Mirrors(a, s, l) && s.open > 0 && b in s.held
    ensures Mirrors(Put(a, s.dirty, b, data), Next(s, l, Write(b, data)), l)
  {
    var a', t := Put(a, s.dirty, b, data), Next(s, l, Write(b, data));
    assert RefersHome(s, l, b);
    assert SameAt(a.view, s.view, l.start, l.size, b);
    SameUpdated(a.view, s.view, l, b, data);
    assert a'.pins == multiset(t.dirty) + t.waiting;
    forall c: nat ensures RefersHome(t, l, c) {
      assert RefersHome(s, l, c);
    }
  }

  lemma SameUpdated(v: Disk, w: Disk, l: Layout, b: nat, data: Block)
    requires SameHome(v, w, l.start, l.size) && b in w
    ensures SameHome(v[b := data], w[b := data], l.start, l.size)
  {
    var v', w' := v[b := data], w[b := data];
    assert v'.Keys == v.Keys && w'.Keys == w.Keys;
    forall c: nat ensures SameAt(v', w', l.start, l.size, c) {
      assert SameAt(v, w, l.start, l.size, c);
    }
  }

  // ---------- The commit ----------

  /** Recovering the j-th disk of a call that found |h0| disks: what is committed before the call, up to the
      write of the header, and what is committed after it from then on. */
  ghost predicate Switches(h: seq<Disk>, j: nat, before: nat, s: Store, t: Store, l: Layout)
    requires j < |h|
  {
    RecoversTo(h[j], (if j < before + |s.dirty| then s else t).base, l.start, l.size)
  }

  /** A call found history h0 and left h. */
  ghost predicate Written(h0: seq<Disk>, h: seq<Disk>, s: Store, l: Layout, call: Call) {
    && |h0| > 0 && h0 <= h && |h| == |h0| + Writes(s, call)
    && RecoversTo(h0[|h0| - 1], s.base, l.start, l.size)
    && forall j | |h0| <= j < |h| :: Switches(h, j, |h0|, s, Next(s, l, call), l)
  }

  lemma QuietStore(a: Abs, s: Store, l: Layout)
    requires Mirrors(a, s, l) && AllLogged(s, l)
    ensures Quiet(a, s.dirty)
  {
    BusyIsRefs(a, s, l);
    forall b: nat ensures QuietAt(a, s.dirty, b) {
      assert RefersHome(s, l, b);
      if Home(s, l, b) {
        SeenAt(a, s, l, b);
      }
    }
  }

  method DoEnd(log: Log, ghost s: Store, ghost l: Layout) returns (ok: bool)
    requires Shows(log, s, l) && May(s, l, End)
    modifies log, log.cache
    ensures ok <==> !Panics(s, l, End)
    ensures ok ==> Shows(log, Next(s, l, End), l)
    ensures ok ==> Written(old(log.cache.history), log.cache.history, s, l, End)
    ensures !ok ==> log.cache.history == old(log.cache.history)
  {
    ghost var bufs, slot, a, h0 := log.cache.bufs, log.cache.slot, log.cache.abs, log.cache.history;
    Settled(log, s, l);
    NoBufferIff(log, s, l, 0);
    BusyIsRefs(a, s, l);
    ok := log.EndOp();
    if ok {
      Ended(bufs, slot, a, log.cache.abs, h0, log.cache.history, s, l);
    }
  }

  lemma Committing(bufs: seq<Buf>, slot: map<nat, nat>, a: Abs, r: Abs, h0: seq<Disk>, h: seq<Disk>, s: Store,
      l: Layout)
    requires Transaction(bufs, slot, a, r, h0, h, s, l) && h[|h| - 1] == r.disk && r.view.Keys == r.disk.Keys
    requires |h0| > 0 && RecoversTo(h0[|h0| - 1], s.base, l.start, l.size)
    ensures Mirrors(r, Next(s, l, End), l) && AllLogged(Next(s, l, End), l) && Written(h0, h, s, l, End)
  {
    CommitWritten(bufs, slot, a, r, h0, h, s, l);
    LastDisk(bufs, slot, a, r, h0, h, s, l, |h| - 1);
    CommitShows(a, r, s, l);
  }

  /** What end_op did, seen from outside the log. */
  ghost predicate EndsAs(a: Abs, r: Abs, h0: seq<Disk>, h: seq<Disk>, s: Store, l: Layout) {
    && |h| > 0 && h[|h| - 1] == r.disk && r.view.Keys == r.disk.Keys
    && if Commits(s, End) then
         CanCommit(a, l.start, l.size, s.dirty) && Committed(a, r, h0, h, l.start, l.size, s.dirty)
       else r == a && h == h0
  }

  lemma Ended(bufs: seq<Buf>, slot: map<nat, nat>, a: Abs, r: Abs, h0: seq<Disk>, h: seq<Disk>, s: Store, l: Layout)
    requires Good(bufs, slot, a) && Mirrors(a, s, l) && AllLogged(s, l) && s.open > 0
    requires |h0| > 0 && RecoversTo(h0[|h0| - 1], s.base, l.start, l.size)
    requires EndsAs(a, r, h0, h, s, l)
    ensures Mirrors(r, Next(s, l, End), l) && AllLogged(Next(s, l, End), l) && Written(h0, h, s, l, End)
  {
    if Commits(s, End) {
      QuietStore(a, s, l);
      Committing(bufs, slot, a, r, h0, h, s, l);
    } else {
      EndShows(a, s, l);
    }
  }

  lemma EndShows(a: Abs, s: Store, l: Layout)
    requires Mirrors(a, s, l) && AllLogged(s, l) && !Commits(s, End)
    ensures Mirrors(a, Next(s, l, End), l) && AllLogged(Next(s, l, End), l)
  {
    var t := Next(s, l, End);
    forall b: nat ensures RefersHome(t, l, b) {
      assert RefersHome(s, l, b);
    }
    forall b: nat ensures LoggedIfChanged(t, l, b) {
      assert LoggedIfChanged(s, l, b);
    }
  }

  /** The call was a commit of the cache a. */
  ghost predicate Transaction(bufs: seq<Buf>, slot: map<nat, nat>, a: Abs, r: Abs, h0: seq<Disk>, h: seq<Disk>,
      s: Store, l: Layout)
  {
    && Good(bufs, slot, a) && Mirrors(a, s, l) && Quiet(a, s.dirty) && Commits(s, End)
    && CanCommit(a, l.start, l.size, s.dirty) && Committed(a, r, h0, h, l.start, l.size, s.dirty)
  }

  lemma CommitSwitches(bufs: seq<Buf>, slot: map<nat, nat>, a: Abs, r: Abs, h0: seq<Disk>, h: seq<Disk>, s: Store,
      l: Layout, j: nat)
    requires Transaction(bufs, slot, a, r, h0, h, s, l) && |h0| <= j < |h|
    ensures Switches(h, j, |h0|, s, Next(s, l, End), l)
  {
    CommitIsAtomic(bufs, slot, a, r, h0, h, l.start, l.size, s.dirty, j);
    if j < |h0| + |s.dirty| {
      RecoversSame(h[j], a.disk, s.base, l.start, l.size);
    } else {
      RecoversSame(h[j], a.view, s.view, l.start, l.size);
    }
  }

  lemma CommitWritten(bufs: seq<Buf>, slot: map<nat, nat>, a: Abs, r: Abs, h0: seq<Disk>, h: seq<Disk>, s: Store,
      l: Layout)
    requires Transaction(bufs, slot, a, r, h0, h, s, l)
    requires |h0| > 0 && RecoversTo(h0[|h0| - 1], s.base, l.start, l.size)
    ensures Written(h0, h, s, l, End)
  {
    forall j | |h0| <= j < |h| ensures Switches(h, j, |h0|, s, Next(s, l, End), l) {
      CommitSwitches(bufs, slot, a, r, h0, h, s, l, j);
    }
  }

  lemma LastDisk(bufs: seq<Buf>, slot: map<nat, nat>, a: Abs, r: Abs, h0: seq<Disk>, h: seq<Disk>, s: Store, l: Layout,
      j: nat)
    requires Transaction(bufs, slot, a, r, h0, h, s, l) && j == |h0| + CommitWrites(s.dirty) - 1
    requires j < |h| && h[j] == r.disk
    ensures RecoversTo(r.disk, s.view, l.start, l.size)
  {
    CommitSwitches(bufs, slot, a, r, h0, h, s, l, j);
  }

  /** After a commit the disk has what readers saw. */
  lemma CommitShows(a: Abs, r: Abs, s: Store, l: Layout)
    requires Mirrors(a, s, l) && Commits(s, End) && r.view.Keys == r.disk.Keys
    requires RecoversTo(r.disk, s.view, l.start, l.size)
    requires SameHome(r.view, a.view, l.start, l.size) && Cleared(a, r, l.start, l.size, s.dirty)
    ensures Mirrors(r, Next(s, l, End), l) && AllLogged(Next(s, l, End), l)
  {
    DiskShows(r.disk, s.view, l);
    SameHomeTrans(r.view, a.view, s.view, l.start, l.size);
    NextMirrors(a, r, s, l);
  }

  /** A disk with an empty log has what recovering it gives. */
  lemma DiskShows(d: Disk, v: Disk, l: Layout)
    requires RecoversTo(d, v, l.start, l.size) && d[l.start][0] == 0
    ensures SameHome(d, v, l.start, l.size)
  {
    EmptyRecovers(d, l.start, l.size);
    SameRecovered(Recovered(d, l.start, l.size), d, v, l);
  }

  lemma NextMirrors(a: Abs, r: Abs, s: Store, l: Layout)
    requires Mirrors(a, s, l) && Commits(s, End)
    requires r.held == a.held && r.pins == a.pins - multiset(s.dirty) && r.view.Keys == r.disk.Keys
    requires SameHome(r.view, s.view, l.start, l.size) && SameHome(r.disk, s.view, l.start, l.size)
    ensures Mirrors(r, Next(s, l, End), l) && AllLogged(Next(s, l, End), l)
  {
    var t := Next(s, l, End);
    assert r.pins == multiset(t.dirty) + t.waiting;
    forall b: nat ensures RefersHome(t, l, b) {
      assert RefersHome(s, l, b);
    }
  }

  lemma SameRecovered(e: Disk, d: Disk, v: Disk, l: Layout)
    requires SameHome(e, d, l.start, l.size) && SameHome(e, v, l.start, l.size)
    ensures SameHome(d, v, l.start, l.size)
  {
    forall b: nat ensures SameAt(d, v, l.start, l.size, b) {
      assert SameAt(e, d, l.start, l.size, b) && SameAt(e, v, l.start, l.size, b);
    }
  }

  lemma BeginShows(a: Abs, s: Store, l: Layout)
    requires Mirrors(a, s, l) && AllLogged(s, l)
    ensures Mirrors(a, Next(s, l, Begin), l) && AllLogged(Next(s, l, Begin), l)
  {
    StillLogged(s, l, Begin);
    forall b: nat ensures RefersHome(Next(s, l, Begin), l, b) {
      assert RefersHome(s, l, b);
    }
  }

  method Do(log: Log, ghost s: Store, ghost l: Layout, call: Call) returns (ok: bool, value: Option<Block>)
    requires Shows(log, s, l) && May(s, l, call)
    modifies log, log.cache
    ensures ok <==> !Panics(s, l, call)
    ensures ok ==> Shows(log, Next(s, l, call), l)
    ensures ok ==> value == Value(s, call)
    ensures ok ==> Written(old(log.cache.history), log.cache.history, s, l, call)
    ensures !ok ==> log.cache.history == old(log.cache.history)
  {
    Settled(log, s, l);
    ok, value := true, None;
    match call
    case Begin =>
      BeginShows(log.cache.abs, s, l);
      var _ := log.BeginOp();
    case Read(b) => ok, value := DoRead(log, s, l, b);
    case Wake(b) => value := DoWake(log, s, l, b);
    case Write(b, data) => ok := DoWrite(log, s, l, b, data);
    case Release(b) => DoRelease(log, s, l, b);
    case End => ok := DoEnd(log, s, l);
  }

  // ---------- Whole runs ----------

  /** The store before call i. */
  function At(s: Store, l: Layout, calls: seq<Call>, i: nat): Store
    requires i <= |calls|
  {
    After(s, l, calls[..i])
  }

  lemma AtNext(s: Store, l: Layout, calls: seq<Call>, i: nat)
    requires i < |calls|
    ensures At(s, l, calls, i + 1) == Next(At(s, l, calls, i), l, calls[i])
  {
    var more := calls[..i + 1];
    assert more[..|more| - 1] == calls[..i];
  }

  /** Call i was carried out without a panic, found in its buffer what the store holds, and made so many
      disk writes; marks[i] is the length of the history before it. */
  ghost predicate CallOk(marks: seq<nat>, values: seq<Option<Block>>, s: Store, l: Layout, calls: seq<Call>, i: nat) {
    i < |calls| && i < |values| && i + 1 < |marks| ==>
      var now := At(s, l, calls, i);
      && !Panics(now, l, calls[i]) && values[i] == Value(now, calls[i])
      && marks[i + 1] == marks[i] + Writes(now, calls[i])
  }

  /** Disk j of the history, found or written by call i, recovers to what is committed before the call, up to
      the write of the header, and to what is committed after it from then on. */
  ghost predicate CrashOk(history: seq<Disk>, marks: seq<nat>, s: Store, l: Layout, calls: seq<Call>, i: nat, j: nat) {
    i < |calls| && i + 1 < |marks| && marks[i] <= j + 1 <= marks[i + 1] && j < |history| ==>
      Switches(history, j, marks[i], At(s, l, calls, i), At(s, l, calls, i + 1), l)
  }

  /** n calls were made. */
  ghost predicate Traced(history: seq<Disk>, marks: seq<nat>, values: seq<Option<Block>>, s: Store, l: Layout,
      calls: seq<Call>, n: nat)
  {
    && |values| == n <= |calls| && |marks| == n + 1 && marks[n] == |history|
    && (forall i: nat :: CallOk(marks, values, s, l, calls, i))
    && forall i: nat, j: nat :: CrashOk(history, marks, s, l, calls, i, j)
  }

  lemma CallsNext(marks: seq<nat>, values: seq<Option<Block>>, s: Store, l: Layout, calls: seq<Call>, n: nat,
      value: Option<Block>, mark: nat)
    requires |values| == n < |calls| && |marks| == n + 1 && forall i: nat :: CallOk(marks, values, s, l, calls, i)
    requires !Panics(At(s, l, calls, n), l, calls[n]) && value == Value(At(s, l, calls, n), calls[n])
    requires mark == marks[n] + Writes(At(s, l, calls, n), calls[n])
    ensures forall i: nat :: CallOk(marks + [mark], values + [value], s, l, calls, i)
  {
    var marks', values' := marks + [mark], values + [value];
    forall i: nat ensures CallOk(marks', values', s, l, calls, i) {
      assert CallOk(marks, values, s, l, calls, i);
    }
  }

  lemma CrashesNext(h0: seq<Disk>, h: seq<Disk>, marks: seq<nat>, values: seq<Option<Block>>, s: Store, l: Layout,
      calls: seq<Call>, n: nat)
    requires n < |calls| && Traced(h0, marks, values, s, l, calls, n)
    requires Written(h0, h, At(s, l, calls, n), l, calls[n])
    ensures forall i: nat, j: nat :: CrashOk(h, marks + [|h|], s, l, calls, i, j)
  {
    var more := marks + [|h|];
    AtNext(s, l, calls, n);
    forall i: nat, j: nat ensures CrashOk(h, more, s, l, calls, i, j) {
      assert CrashOk(h0, marks, s, l, calls, i, j);
      if i < n {
        MarksBelow(marks, values, s, l, calls, i + 1);
      }
    }
  }

  lemma {:induction false} MarksBelow(marks: seq<nat>, values: seq<Option<Block>>, s: Store, l: Layout,
      calls: seq<Call>, i: nat)
    requires i < |marks| == |values| + 1 <= |calls| + 1 && forall k: nat :: CallOk(marks, values, s, l, calls, k)
    ensures marks[i] <= marks[|marks| - 1]
    decreases |marks| - i
  {
    if i + 1 < |marks| {
      assert CallOk(marks, values, s, l, calls, i);
      MarksBelow(marks, values, s, l, calls, i + 1);
    }
  }

  lemma TracedNext(h0: seq<Disk>, h: seq<Disk>, marks: seq<nat>, values: seq<Option<Block>>, s: Store, l: Layout,
      calls: seq<Call>, n: nat, value: Option<Block>)
    requires n < |calls| && Traced(h0, marks, values, s, l, calls, n)
    requires !Panics(At(s, l, calls, n), l, calls[n]) && value == Value(At(s, l, calls, n), calls[n])
    requires Written(h0, h, At(s, l, calls, n), l, calls[n])
    ensures Traced(h, marks + [|h|], values + [value], s, l, calls, n + 1)
  {
    CallsNext(marks, values, s, l, calls, n, value, |h|);
    CrashesNext(h0, h, marks, values, s, l, calls, n);
  }

  /** Every call finds its process in the position to make it. */
  ghost predicate Schedule(s: Store, l: Layout, calls: seq<Call>) {
    forall i: nat :: MayAt(s, l, calls, i)
  }

  ghost predicate MayAt(s: Store, l: Layout, calls: seq<Call>, i: nat) {
    i < |calls| ==> May(At(s, l, calls, i), l, calls[i])
  }

  /** n calls have been made since the history was h0, and none of them panicked. */
  ghost predicate Reached(log: Log, h0: seq<Disk>, marks: seq<nat>, values: seq<Option<Block>>, s: Store, l: Layout,
      calls: seq<Call>, n: nat)
    reads log, log.cache
  {
    && Traced(log.cache.history, marks, values, s, l, calls, n)
    && marks[0] == |h0| && h0 <= log.cache.history && Shows(log, At(s, l, calls, n), l)
  }

  lemma ReachedFirst(log: Log, s: Store, l: Layout, calls: seq<Call>)
    requires Shows(log, s, l)
    ensures Reached(log, log.cache.history, [|log.cache.history|], [], s, l, calls, 0)
  {
  }

  method Step(log: Log, ghost h0: seq<Disk>, ghost marks: seq<nat>, ghost values: seq<Option<Block>>, ghost s: Store,
      ghost l: Layout, calls: seq<Call>, n: nat)
    returns (ok: bool, value: Option<Block>)
    requires n < |calls| && MayAt(s, l, calls, n) && Reached(log, h0, marks, values, s, l, calls, n)
    modifies log, log.cache
    ensures ok <==> !Panics(At(s, l, calls, n), l, calls[n])
    ensures ok ==>
      Reached(log, h0, marks + [|log.cache.history|], values + [value], s, l, calls, n + 1)
    ensures !ok ==> log.cache.history == old(log.cache.history)
  {
    ghost var now := At(s, l, calls, n);
    AtNext(s, l, calls, n);
    ok, value := Do(log, now, l, calls[n]);
    if ok {
      TracedNext(old(log.cache.history), log.cache.history, marks, values, s, l, calls, n, value);
    }
  }

  /** The calls from the n-th on. */
  method RunFrom(log: Log, ghost h0: seq<Disk>, ghost marks: seq<nat>, values: seq<Option<Block>>, ghost s: Store,
      ghost l: Layout, calls: seq<Call>, n: nat)
    returns (done: nat, values': seq<Option<Block>>, ghost marks': seq<nat>)
    requires n <= |calls| && Schedule(s, l, calls) && Reached(log, h0, marks, values, s, l, calls, n)
    modifies log, log.cache
    ensures Traced(log.cache.history, marks', values', s, l, calls, done)
    ensures marks'[0] == |h0| && h0 <= log.cache.history
    ensures if done == |calls| then Shows(log, At(s, l, calls, done), l)
      else Panics(At(s, l, calls, done), l, calls[done])
    decreases |calls| - n
  {
    done, values', marks' := n, values, marks;
    if n < |calls| {
      assert MayAt(s, l, calls, n);
      var ok, value := Step(log, h0, marks, values, s, l, calls, n);
      if ok {
        done, values', marks' := RunFrom(log, h0, marks + [|log.cache.history|], values + [value], s, l, calls, n + 1);
      }
    }
  }

  /** Any interleaving of calls, until all are done or one panics: every call before that did not, found what
      the store holds, and left disks that recover as `CrashOk` says. */
  method Run(log: Log, ghost s: Store, ghost l: Layout, calls: seq<Call>)
    returns (done: nat, values: seq<Option<Block>>, ghost marks: seq<nat>)
    requires Shows(log, s, l) && Schedule(s, l, calls)
    modifies log, log.cache
    ensures Traced(log.cache.history, marks, values, s, l, calls, done)
    ensures marks[0] == |old(log.cache.history)| && old(log.cache.history) <= log.cache.history
    ensures done == |calls| ==> Shows(log, At(s, l, calls, done), l)
    ensures done < |calls| ==> Panics(At(s, l, calls, done), l, calls[done])
  {
    ReachedFirst(log, s, l, calls);
    done, values, marks := RunFrom(log, log.cache.history, [|log.cache.history|], [], s, l, calls, 0);
  }

  /** Any number of crashes while recovering come to the same contents. */
  lemma CrashesKeep(e: Disk, d: Disk, ds: seq<Disk>, start: nat, size: nat)
    requires RecoversTo(e, d, start, size) && |ds| > 0 && ds[0] == e
    requires forall i | 0 <= i < |ds| - 1 :: Crashed(ds[i], ds[i + 1], start, size)
    ensures RecoversTo(ds[|ds| - 1], d, start, size)
  {
    CrashesDuringRecovery(ds, start, size);
    var f := ds[|ds| - 1];
    SameHomeTrans(Recovered(f, start, size), Recovered(e, start, size), d, start, size);
  }

  /** End to end: after a run, a crash at any disk j that call i found or wrote, and then any number of crashes
      while recovering, leave exactly the contents committed before call i if the header of its commit, write
      number |dirty| + 1, was not among the writes, and exactly those committed with it if it was. */
  lemma Durable(history: seq<Disk>, marks: seq<nat>, values: seq<Option<Block>>, s: Store, l: Layout,
      calls: seq<Call>, n: nat, i: nat, j: nat, ds: seq<Disk>)
    requires Traced(history, marks, values, s, l, calls, n)
    requires i < n && marks[i] <= j + 1 <= marks[i + 1] && j < |history|
    requires |ds| > 0 && ds[0] == history[j]
    requires forall k | 0 <= k < |ds| - 1 :: Crashed(ds[k], ds[k + 1], l.start, l.size)
    ensures var before, after := At(s, l, calls, i), At(s, l, calls, i + 1);
      RecoversTo(ds[|ds| - 1], if j < marks[i] + |before.dirty| then before.base else after.base, l.start, l.size)
  {
    assert CrashOk(history, marks, s, l, calls, i, j);
    var before, after := At(s, l, calls, i), At(s, l, calls, i + 1);
    CrashesKeep(history[j], (if j < marks[i] + |before.dirty| then before else after).base, ds, l.start, l.size);
  }
}
