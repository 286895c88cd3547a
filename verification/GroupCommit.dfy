/** Group commit in kernel/log.c as a state machine: begin_op, log_write, end_op and commit,
    interleaved in any order, each atomic under log.lock; and the references to buffers that processes
    and commit have in between.

    A process that reads a block takes a reference to its buffer in bget, then the buffer's sleep-lock,
    for which it may have to wait; brelse lets go of the lock first and of the reference after.  A
    buffer with a reference is not recycled, locked or not.

    The parameters are the number of distinct blocks an operation may write (the source promises
    MAXOPBLOCKS), log.size, the number of buffers of the cache, and the number of blocks that
    processes, inside operations or only reading, may refer to at the same time.
 */
module GroupCommit {
  import opened LogSpec
  import BufferCache

  datatype Params = Params(budget: nat, size: nat, nbuf: nat, users: nat)

  /** `ops` has the blocks written so far by each outstanding operation, `done` those written by the
      operations that ended since the last commit; `logbuf` says that commit holds the buffer of a log
      block. */
  datatype State =
    | State(lh: seq<nat>, committing: bool, ops: seq<set<nat>>, done: set<nat>, refs: Refs, logbuf: bool)
    | Panicked

  /** The references of processes, one for each: to blocks they wait to lock, to blocks they hold locked,
      and to blocks they have just unlocked. */
  datatype Refs = Refs(waiting: multiset<nat>, held: set<nat>, leaving: multiset<nat>)

  const NoRefs := Refs(multiset{}, {}, multiset{})

  const Init := State([], false, [], {}, NoRefs, false)

  datatype Step =
    | Begin
    | Write(op: nat, block: nat)
    | End(op: nat)
    | Get(block: nat)    // bread by a process: the reference that bget takes
    | Lock(block: nat)   // and the lock, when it is free
    | Unlock(block: nat) // brelse: releasesleep
    | Put(block: nat)    // and the reference
    | LogTake            // bread of a log block or the header, in commit
    | LogDrop
    | Commit

  /** The step can be taken: begin_op does not sleep, only a free buffer is locked, and operations log
      blocks they hold and keep to their budget. */
  predicate Enabled(p: Params, s: State, step: Step) {
    s.State? &&
    match step
    case Begin => !s.committing && |s.lh| + (|s.ops| + 1) * MAXOPBLOCKS <= LOGSIZE
    case Write(i, b) => i < |s.ops| && b in s.refs.held && |s.ops[i] + {b}| <= p.budget
    case End(i) => i < |s.ops|
    case Get(b) => |Used(s.refs) + {b}| <= p.users
    case Lock(b) => b in s.refs.waiting && b !in s.refs.held
    case Unlock(b) => b in s.refs.held
    case Put(b) => b in s.refs.leaving
    case LogTake => s.committing && s.lh != [] && !s.logbuf
    case LogDrop => s.logbuf
    case Commit => s.committing && !s.logbuf
  }

  /** Every buffer is in use: by a logged block, which is pinned, by one that a process refers to, or by
      commit.  Reading any other block then panics. */
  predicate NoBuffer(p: Params, s: State)
    requires s.State?
  {
    |Busy(s)| + (if s.logbuf then 1 else 0) >= p.nbuf
  }

  function Busy(s: State): set<nat>
    requires s.State?
  {
    Used(s.refs) + Elems(s.lh)
  }

  /** The blocks that processes refer to. */
  function Used(r: Refs): set<nat> {
    r.held + (set b | b in r.waiting) + set b | b in r.leaving
  }

  function Next(p: Params, s: State, step: Step): State
    requires Enabled(p, s, step)
  {
    match step
    case Begin => s.(ops := s.ops + [{}])
    case Write(i, b) =>
      if |s.lh| >= LOGSIZE || |s.lh| >= p.size - 1 then Panicked
      else s.(lh := if b in s.lh then s.lh else s.lh + [b], ops := s.ops[i := s.ops[i] + {b}])
    case End(i) =>
      if s.committing then Panicked
      else s.(ops := s.ops[..i] + s.ops[i + 1..], done := s.done + s.ops[i], committing := |s.ops| == 1)
    case Get(b) =>
      if b !in Busy(s) && NoBuffer(p, s) then Panicked
      else s.(refs := s.refs.(waiting := s.refs.waiting + multiset{b}))
    case Lock(b) => s.(refs := s.refs.(waiting := s.refs.waiting - multiset{b}, held := s.refs.held + {b}))
    case Unlock(b) => s.(refs := s.refs.(held := s.refs.held - {b}, leaving := s.refs.leaving + multiset{b}))
    case Put(b) => s.(refs := s.refs.(leaving := s.refs.leaving - multiset{b}))
    case LogTake => if NoBuffer(p, s) then Panicked else s.(logbuf := true)
    case LogDrop => s.(logbuf := false)
    case Commit => s.(lh := [], committing := false, done := {})
  }

  /** The state after a run, if every step of it can be taken. */
  ghost predicate Runs(p: Params, s: State, steps: seq<Step>, s': State)
    decreases |steps|
  {
    if steps == [] then s == s'
    else Enabled(p, s, steps[0]) && Runs(p, Next(p, s, steps[0]), steps[1..], s')
  }

  ghost predicate Reachable(p: Params, s: State) {
    exists steps :: Runs(p, Init, steps, s)
  }

  // ---------- The invariant ----------

  /** Blocks the outstanding operations may still write. */
  function Slack(budget: nat, ops: seq<set<nat>>): int {
    if ops == [] then 0 else budget - |ops[0]| + Slack(budget, ops[1..])
  }

  function Union(ops: seq<set<nat>>): set<nat> {
    if ops == [] then {} else ops[0] + Union(ops[1..])
  }

  ghost predicate Within(ops: seq<set<nat>>, budget: nat) {
    forall i | 0 <= i < |ops| :: |ops[i]| <= budget
  }

  function Elems(lh: seq<nat>): set<nat> {
    set b | b in lh
  }

  ghost predicate Distinct(lh: seq<nat>) {
    forall i, j | 0 <= i < j < |lh| :: lh[i] != lh[j]
  }

  /** The most blocks a transaction can come to hold. */
  function Peak(budget: nat): nat {
    LOGSIZE - 2 * MAXOPBLOCKS + 2 * budget
  }

  ghost predicate Inv(p: Params, s: State) {
    s.State? ==>
      && Distinct(s.lh)
      && (s.committing ==> s.ops == [])
      && (!s.committing && s.ops == [] ==> s.lh == [])
      && (s.logbuf ==> s.committing) && |Used(s.refs)| <= p.users
      && Within(s.ops, p.budget)
      && Elems(s.lh) == s.done + Union(s.ops)
      && |s.lh| + Slack(p.budget, s.ops) <= Peak(p.budget)
  }

  // ---------- Lists of operations ----------

  lemma {:induction false} AppendOp(budget: nat, ops: seq<set<nat>>, x: set<nat>)
    ensures Slack(budget, ops + [x]) == Slack(budget, ops) + budget - |x|
    ensures Union(ops + [x]) == Union(ops) + x
  {
    if ops == [] {
    } else {
      assert (ops + [x])[1..] == ops[1..] + [x];
      AppendOp(budget, ops[1..], x);
    }
  }

  lemma {:induction false} ConcatOps(budget: nat, xs: seq<set<nat>>, ys: seq<set<nat>>)
    ensures Slack(budget, xs + ys) == Slack(budget, xs) + Slack(budget, ys)
    ensures Union(xs + ys) == Union(xs) + Union(ys)
  {
    if xs == [] {
      assert xs + ys == ys;
    } else {
      assert (xs + ys)[1..] == xs[1..] + ys;
      ConcatOps(budget, xs[1..], ys);
    }
  }

  /** Splitting operation i off the list. */
  lemma SplitOps(budget: nat, ops: seq<set<nat>>, i: nat, x: set<nat>)
    requires i < |ops|
    ensures Slack(budget, ops[i := x]) == Slack(budget, ops[..i]) + (budget - |x|) + Slack(budget, ops[i + 1..])
    ensures Union(ops[i := x]) == Union(ops[..i]) + x + Union(ops[i + 1..])
  {
    assert ops[i := x] == ops[..i] + ([x] + ops[i + 1..]);
    ConcatOps(budget, ops[..i], [x] + ops[i + 1..]);
    ConcatOps(budget, [x], ops[i + 1..]);
  }

  lemma {:induction false} SlackNonNegative(budget: nat, ops: seq<set<nat>>)
    requires Within(ops, budget)
    ensures Slack(budget, ops) >= 0
    ensures Slack(budget, ops) <= budget * |ops|
  {
    if ops != [] {
      SlackNonNegative(budget, ops[1..]);
    }
  }

  // ---------- Every step keeps the invariant ----------

  lemma BeginKeeps(p: Params, s: State)
    requires p.budget <= MAXOPBLOCKS && Inv(p, s) && Enabled(p, s, Begin)
    ensures Inv(p, Next(p, s, Begin))
  {
    AppendOp(p.budget, s.ops, {});
    SlackNonNegative(p.budget, s.ops);
    if s.ops == [] {
      assert s.lh == [];
    } else {
      assert |s.lh| + p.budget * (|s.ops| + 1) <= Peak(p.budget) by {
        Reserve(p.budget, |s.lh|, |s.ops| + 1);
      }
    }
  }

  /** begin_op reserves MAXOPBLOCKS for each operation, never for fewer than two once the log
      is in use. */
  lemma Reserve(budget: nat, used: nat, k: nat)
    requires budget <= MAXOPBLOCKS && k >= 2 && used + k * MAXOPBLOCKS <= LOGSIZE
    ensures used + budget * k <= Peak(budget)
  {
    assert k == 2 || k == 3;
  }

  lemma SetOfDistinct(lh: seq<nat>)
    requires Distinct(lh)
    ensures |Elems(lh)| == |lh|
  {
    if lh != [] {
      SetOfDistinct(lh[..|lh| - 1]);
      assert Elems(lh) == Elems(lh[..|lh| - 1]) + {lh[|lh| - 1]};
    }
  }

  /** Logging a new block moves one unit from the slack to the log; absorption only shrinks it. */
  lemma WriteAccounting(budget: nat, ops: seq<set<nat>>, i: nat, b: nat, lh: seq<nat>)
    requires i < |ops| && Union(ops) <= Elems(lh)
    ensures Union(ops[i := ops[i] + {b}]) == Union(ops) + {b}
    ensures (if b in lh then 0 else 1) + Slack(budget, ops[i := ops[i] + {b}]) <= Slack(budget, ops)
  {
    AddToOp(budget, ops, i, b);
    InUnion(ops, i);
  }

  lemma {:induction false} AddToOp(budget: nat, ops: seq<set<nat>>, i: nat, b: nat)
    requires i < |ops|
    ensures Union(ops[i := ops[i] + {b}]) == Union(ops) + {b}
    ensures Slack(budget, ops[i := ops[i] + {b}]) == Slack(budget, ops) - if b in ops[i] then 0 else 1
    decreases i
  {
    var after := ops[i := ops[i] + {b}];
    if i == 0 {
      assert after[1..] == ops[1..];
      assert b in ops[0] ==> ops[0] + {b} == ops[0];
    } else {
      assert after[1..] == ops[1..][i - 1 := ops[1..][i - 1] + {b}];
      AddToOp(budget, ops[1..], i - 1, b);
    }
  }

  lemma {:induction false} InUnion(ops: seq<set<nat>>, i: nat)
    requires i < |ops|
    ensures ops[i] <= Union(ops)
    decreases i
  {
    if i > 0 {
      InUnion(ops[1..], i - 1);
    }
  }

  lemma WriteKeeps(p: Params, s: State, i: nat, b: nat)
    requires Inv(p, s) && Enabled(p, s, Write(i, b))
    ensures Inv(p, Next(p, s, Write(i, b)))
  {
    WriteAccounting(p.budget, s.ops, i, b, s.lh);
    var s' := Next(p, s, Write(i, b));
    if s'.State? {
      ElemsAdd(s.lh, b);
    }
  }

  lemma ElemsAdd(lh: seq<nat>, b: nat)
    requires Distinct(lh)
    ensures b in lh ==> Elems(lh) + {b} == Elems(lh)
    ensures b !in lh ==> Distinct(lh + [b]) && Elems(lh + [b]) == Elems(lh) + {b}
  {
  }

  lemma WithoutOp(budget: nat, ops: seq<set<nat>>, i: nat, rest: seq<set<nat>>)
    requires i < |ops| && rest == ops[..i] + ops[i + 1..]
    ensures Slack(budget, ops) == Slack(budget, rest) + budget - |ops[i]|
    ensures Union(ops) == Union(rest) + ops[i]
  {
    SplitOps(budget, ops, i, ops[i]);
    assert ops[i := ops[i]] == ops;
    ConcatOps(budget, ops[..i], ops[i + 1..]);
  }

  lemma WithinRest(budget: nat, ops: seq<set<nat>>, i: nat, rest: seq<set<nat>>)
    requires i < |ops| && rest == ops[..i] + ops[i + 1..] && Within(ops, budget)
    ensures Within(rest, budget)
  {
    forall k | 0 <= k < |rest| ensures |rest[k]| <= budget {
      assert rest[k] == ops[if k < i then k else k + 1];
    }
  }

  lemma EndKeeps(p: Params, s: State, i: nat)
    requires Inv(p, s) && Enabled(p, s, End(i))
    ensures Inv(p, Next(p, s, End(i))) && Next(p, s, End(i)) != Panicked
  {
    var rest := s.ops[..i] + s.ops[i + 1..];
    WithoutOp(p.budget, s.ops, i, rest);
    WithinRest(p.budget, s.ops, i, rest);
  }

  lemma RefsKeep(p: Params, s: State, step: Step)
    requires (step.Get? || step.Lock? || step.Unlock? || step.Put?) && s.State? && Enabled(p, s, step)
    requires |Used(s.refs)| <= p.users
    ensures var t := Next(p, s, step);
      t == Panicked || (t.State? && t == s.(refs := t.refs) && |Used(t.refs)| <= p.users)
  {
    var t := Next(p, s, step);
    if t.State? {
      if step.Get? {
        assert Used(t.refs) == Used(s.refs) + {step.block};
      } else {
        Fewer(t.refs, s.refs);
      }
    }
  }

  lemma StepKeeps(p: Params, s: State, step: Step)
    requires p.budget <= MAXOPBLOCKS && Inv(p, s) && Enabled(p, s, step)
    ensures Inv(p, Next(p, s, step))
  {
    match step
    case Begin => BeginKeeps(p, s);
    case Write(i, b) => WriteKeeps(p, s, i, b);
    case End(i) => EndKeeps(p, s, i);
    case LogTake =>
    case LogDrop =>
    case Commit =>
    case _ => RefsKeep(p, s, step);
  }

  lemma Fewer(less: Refs, more: Refs)
    requires Used(less) <= Used(more)
    ensures |Used(less)| <= |Used(more)|
  {
    assert Used(more) == Used(less) + (Used(more) - Used(less));
  }

  /** No more buffers are in use than blocks are logged and referred to. */
  lemma BusyFew(p: Params, s: State)
    requires Inv(p, s) && s.State? && |s.lh| <= Peak(p.budget)
    ensures |Busy(s)| <= |s.lh| + |Used(s.refs)|
  {
    var used := Used(s.refs);
    SetOfDistinct(s.lh);
    assert Busy(s) == used + (Elems(s.lh) - used);
    assert Elems(s.lh) == (Elems(s.lh) - used) + (Elems(s.lh) * used);
  }

  lemma {:induction false} RunKeeps(p: Params, s: State, steps: seq<Step>, s': State)
    requires p.budget <= MAXOPBLOCKS && Inv(p, s) && Runs(p, s, steps, s')
    ensures Inv(p, s')
    decreases |steps|
  {
    if steps != [] {
      StepKeeps(p, s, steps[0]);
      RunKeeps(p, Next(p, s, steps[0]), steps[1..], s');
    }
  }

  /** Group-commit safety, for every run of operations that keep to the promised MAXOPBLOCKS
      blocks each: the logged blocks are distinct; together with the unused budgets they fit
      in the log; and while committing no operation is outstanding, so the transaction is
      exactly what the ended operations wrote. */
  lemma GroupCommitSafety(p: Params, s: State)
    requires p.budget == MAXOPBLOCKS && Reachable(p, s) && s.State?
    ensures Distinct(s.lh)
    ensures |s.lh| + Slack(MAXOPBLOCKS, s.ops) <= LOGSIZE
    ensures s.committing ==> s.ops == [] && Elems(s.lh) == s.done
  {
    var steps :| Runs(p, Init, steps, s);
    RunKeeps(p, Init, steps, s);
  }

  // ---------- When the panics are out of reach ----------

  ghost predicate NeverPanics(p: Params) {
    forall steps :: !Runs(p, Init, steps, Panicked)
  }

  /** The limits that the peak must stay below: the header's capacity, the log's room, and, together
      with the blocks that processes refer to, the number of buffers. */
  predicate Roomy(p: Params) {
    Peak(p.budget) < LOGSIZE && Peak(p.budget) < p.size - 1 && Peak(p.budget) + p.users < p.nbuf
  }

  lemma StepSafe(p: Params, s: State, step: Step)
    requires p.budget <= MAXOPBLOCKS && Roomy(p) && Inv(p, s) && Enabled(p, s, step)
    ensures Next(p, s, step) != Panicked
  {
    SlackNonNegative(p.budget, s.ops);
    BusyFew(p, s);
    if step.End? {
      EndKeeps(p, s, step.op);
    }
  }

  lemma {:induction false} RunSafe(p: Params, s: State, steps: seq<Step>)
    requires p.budget <= MAXOPBLOCKS && Roomy(p) && Inv(p, s) && s.State?
    ensures !Runs(p, s, steps, Panicked)
    decreases |steps|
  {
    if steps != [] && Enabled(p, s, steps[0]) {
      StepKeeps(p, s, steps[0]);
      StepSafe(p, s, steps[0]);
      RunSafe(p, Next(p, s, steps[0]), steps[1..]);
    }
  }

  lemma {:induction false} RunsThen(p: Params, s: State, xs: seq<Step>, t: State, ys: seq<Step>, u: State)
    requires Runs(p, s, xs, t) && Runs(p, t, ys, u)
    ensures Runs(p, s, xs + ys, u)
    decreases |xs|
  {
    if xs == [] {
      assert xs + ys == ys;
    } else {
      RunsThen(p, Next(p, s, xs[0]), xs[1..], t, ys, u);
      assert (xs + ys)[1..] == xs[1..] + ys;
      RunsFirst(p, s, xs + ys, u);
    }
  }

  lemma RunsFirst(p: Params, s: State, steps: seq<Step>, t: State)
    requires steps != [] && Enabled(p, s, steps[0]) && Runs(p, Next(p, s, steps[0]), steps[1..], t)
    ensures Runs(p, s, steps, t)
  {
  }

  /** Extend a run by one step. */
  lemma Then(p: Params, xs: seq<Step>, s: State, step: Step) returns (ys: seq<Step>)
    requires Runs(p, Init, xs, s) && Enabled(p, s, step)
    ensures Runs(p, Init, ys, Next(p, s, step))
  {
    ys := xs + [step];
    assert Runs(p, s, [step], Next(p, s, step)) by {
      assert [step][1..] == [];
    }
    RunsThen(p, Init, xs, s, [step], Next(p, s, step));
  }

  lemma One(p: Params, xs: seq<Step>, s: State, step: Step) returns (ys: seq<Step>, t: State)
    requires Runs(p, Init, xs, s) && Enabled(p, s, step)
    ensures Runs(p, Init, ys, t) && t == Next(p, s, step)
  {
    t := Next(p, s, step);
    ys := Then(p, xs, s, step);
  }

  lemma BeginOne(p: Params, xs: seq<Step>, s: State) returns (ys: seq<Step>, t: State)
    requires Runs(p, Init, xs, s) && Enabled(p, s, Begin)
    ensures Runs(p, Init, ys, t) && t == s.(ops := s.ops + [{}])
  {
    ys := Then(p, xs, s, Begin);
    t := Next(p, s, Begin);
  }

  /** The last operation on the list ends. */
  lemma EndOne(p: Params, xs: seq<Step>, s: State) returns (ys: seq<Step>, t: State)
    requires Runs(p, Init, xs, s) && s.State? && s.ops != [] && !s.committing
    ensures Runs(p, Init, ys, t)
    ensures t.State? && t == s.(ops := s.ops[..|s.ops| - 1], done := t.done, committing := |s.ops| == 1)
  {
    var i := |s.ops| - 1;
    ys := Then(p, xs, s, End(i));
    t := Next(p, s, End(i));
    assert s.ops[..i] + s.ops[i + 1..] == s.ops[..i];
  }

  /** The log holds blocks 0 .. n, all written. */
  ghost predicate Filled(s: State, n: nat) {
    s.State? && |s.lh| == n && (forall i | 0 <= i < n :: s.lh[i] == i) && !s.committing && !s.logbuf && s.refs == NoRefs
  }

  /** The only reference is to block b, locked. */
  ghost predicate Holds(r: Refs, b: nat) {
    r == NoRefs.(held := {b})
  }

  /** bread of a block that nobody refers to. */
  lemma ReadOne(p: Params, xs: seq<Step>, s: State, b: nat) returns (ys: seq<Step>, t: State)
    requires 1 <= p.users && Runs(p, Init, xs, s) && s.State? && s.refs == NoRefs
    ensures Runs(p, Init, ys, t)
    ensures t == Panicked || (t.State? && t == s.(refs := t.refs) && Holds(t.refs, b))
  {
    assert Used(NoRefs) + {b} == {b};
    ys, t := One(p, xs, s, Get(b));
    if t != Panicked {
      ys, t := One(p, ys, t, Lock(b));
    }
  }

  /** brelse. */
  lemma ReleaseOne(p: Params, xs: seq<Step>, s: State, b: nat) returns (ys: seq<Step>, t: State)
    requires Runs(p, Init, xs, s) && s.State? && Holds(s.refs, b)
    ensures Runs(p, Init, ys, t) && t == s.(refs := NoRefs)
  {
    ys, t := One(p, xs, s, Unlock(b));
    assert t.refs.held == {};
    ys, t := One(p, ys, t, Put(b));
  }

  lemma WriteOne(p: Params, xs: seq<Step>, s: State, i: nat, b: nat) returns (ys: seq<Step>, t: State)
    requires Runs(p, Init, xs, s) && s.State? && Holds(s.refs, b) && i < |s.ops| && |s.ops[i] + {b}| <= p.budget
    ensures Runs(p, Init, ys, t)
    ensures t == Panicked || Writes(p, s, i, b, t)
  {
    ys, t := One(p, xs, s, Write(i, b));
  }

  /** Operation i has logged block b. */
  ghost predicate Writes(p: Params, s: State, i: nat, b: nat, t: State) {
    && s.State? && t.State? && i < |s.ops| && |s.lh| < LOGSIZE && |s.lh| < p.size - 1 && t.refs == s.refs
    && t == s.(lh := if b in s.lh then s.lh else s.lh + [b], ops := s.ops[i := s.ops[i] + {b}])
  }

  /** Operation i reads, logs and releases block b. */
  lemma LogOne(p: Params, xs: seq<Step>, s: State, i: nat, b: nat) returns (ys: seq<Step>, t: State)
    requires 1 <= p.users && Runs(p, Init, xs, s) && s.State? && s.refs == NoRefs
    requires i < |s.ops| && |s.ops[i] + {b}| <= p.budget
    ensures Runs(p, Init, ys, t)
    ensures t == Panicked || Writes(p, s, i, b, t)
  {
    ys, t := ReadOne(p, xs, s, b);
    if t != Panicked {
      ys, t := WriteOne(p, ys, t, i, b);
      if t != Panicked {
        ys, t := ReleaseOne(p, ys, t, b);
      }
    }
  }

  /** Operation i logs k further new blocks, unless that panics. */
  lemma {:induction false} Fill(p: Params, xs: seq<Step>, s: State, i: nat, n: nat, k: nat)
    returns (ys: seq<Step>, t: State)
    requires 1 <= p.users && Runs(p, Init, xs, s) && Filled(s, n) && i < |s.ops| && |s.ops[i]| + k <= p.budget
    requires forall b | b in s.ops[i] :: b < n
    ensures Runs(p, Init, ys, t)
    ensures t != Panicked ==>
      && Filled(t, n + k) && |t.ops| == |s.ops| && |t.ops[i]| == |s.ops[i]| + k
      && (forall b | b in t.ops[i] :: b < n + k)
      && (forall j | 0 <= j < |s.ops| && j != i :: t.ops[j] == s.ops[j])
    decreases k
  {
    if k == 0 {
      ys, t := xs, s;
    } else {
      ys, t := LogOne(p, xs, s, i, n);
      if t != Panicked {
        ys, t := Fill(p, ys, t, i, n + 1, k - 1);
      }
    }
  }

  /** With operation 0 outstanding and idle, another one begins, logs k new blocks and ends. */
  lemma ShortOne(p: Params, xs: seq<Step>, s: State, n: nat, k: nat) returns (ys: seq<Step>, t: State)
    requires 1 <= p.users && n < MAXOPBLOCKS && k <= p.budget
    requires Runs(p, Init, xs, s) && Filled(s, n) && s.ops == [{}]
    ensures Runs(p, Init, ys, t)
    ensures t == Panicked || (Filled(t, n + k) && t.ops == [{}])
  {
    ys, t := BeginOne(p, xs, s);
    ys, t := Fill(p, ys, t, 1, n, k);
    if t != Panicked {
      ys, t := EndOne(p, ys, t);
      assert t.ops == [{}];
    }
  }

  /** Short operations fill the log to the point where begin_op still admits one more. */
  lemma {:induction false} Crowd(p: Params, xs: seq<Step>, s: State, n: nat) returns (ys: seq<Step>, t: State)
    requires 1 <= p.budget && 1 <= p.users && n <= MAXOPBLOCKS
    requires Runs(p, Init, xs, s) && Filled(s, n) && s.ops == [{}]
    ensures Runs(p, Init, ys, t)
    ensures t == Panicked || (Filled(t, MAXOPBLOCKS) && t.ops == [{}])
    decreases MAXOPBLOCKS - n
  {
    if n == MAXOPBLOCKS {
      return xs, s;
    }
    var k := if p.budget < MAXOPBLOCKS - n then p.budget else MAXOPBLOCKS - n;
    ys, t := ShortOne(p, xs, s, n, k);
    if t != Panicked {
      ys, t := Crowd(p, ys, t, n + k);
    }
  }

  /** A run in which the log holds Peak blocks and both outstanding operations are used up. */
  lemma ReachPeak(p: Params) returns (ys: seq<Step>, t: State)
    requires 1 <= p.budget && 1 <= p.users
    ensures Runs(p, Init, ys, t)
    ensures t == Panicked || (Filled(t, Peak(p.budget)) && |t.ops| == 2 && |t.ops[0]| == p.budget)
  {
    ys, t := BeginOne(p, [], Init);
    ys, t := Crowd(p, ys, t, 0);
    if t != Panicked {
      ys, t := BeginOne(p, ys, t);
      ys, t := Fill(p, ys, t, 1, MAXOPBLOCKS, p.budget);
      if t != Panicked {
        ys, t := Fill(p, ys, t, 0, MAXOPBLOCKS + p.budget, p.budget);
      }
    }
  }

  /** The blocks that processes refer to and that are not logged. */
  function Extra(s: State): set<nat>
    requires s.State?
  {
    Used(s.refs) - Elems(s.lh)
  }

  lemma GetNext(p: Params, s: State, n: nat)
    requires s.State? && |Used(s.refs)| < p.users && n !in Used(s.refs) && n !in s.lh
    ensures Enabled(p, s, Get(n))
    ensures Gets(s, n, Next(p, s, Get(n)))
  {
    var more := s.refs.(waiting := s.refs.waiting + multiset{n});
    assert Used(more) == Used(s.refs) + {n};
    assert Used(more) - Elems(s.lh) == Extra(s) + {n};
  }

  /** A process refers to one further block that is not logged, unless that panics. */
  ghost predicate Gets(s: State, n: nat, t: State) {
    s.State? && (t == Panicked || (t.State? && t == s.(refs := t.refs) && Used(t.refs) == Used(s.refs) + {n}
      && |Extra(t)| == |Extra(s)| + 1))
  }

  /** Processes refer to no block from n on, and none of them is logged. */
  ghost predicate Below(s: State, n: nat) {
    s.State? && (forall b | b in Used(s.refs) :: b < n) && (forall b | b in s.lh :: b < n)
  }

  lemma BelowNext(s: State, n: nat, t: State)
    requires Below(s, n) && Gets(s, n, t) && t != Panicked
    ensures Below(t, n + 1) && |Used(t.refs)| == |Used(s.refs)| + 1
  {
  }

  lemma GetOne(p: Params, xs: seq<Step>, s: State, n: nat) returns (ys: seq<Step>, t: State)
    requires Runs(p, Init, xs, s) && s.State? && |Used(s.refs)| < p.users && n !in Used(s.refs) && n !in s.lh
    ensures Runs(p, Init, ys, t) && Gets(s, n, t)
  {
    GetNext(p, s, n);
    ys, t := One(p, xs, s, Get(n));
  }

  /** Processes refer to k further blocks that are not logged, unless that panics. */
  lemma {:induction false} GetMore(p: Params, xs: seq<Step>, s: State, n: nat, k: nat)
    returns (ys: seq<Step>, t: State)
    requires Runs(p, Init, xs, s) && Below(s, n) && |Used(s.refs)| + k <= p.users
    ensures Runs(p, Init, ys, t)
    ensures t == Panicked || (t.State? && t == s.(refs := t.refs) && |Extra(t)| == |Extra(s)| + k)
    decreases k
  {
    if k == 0 {
      ys, t := xs, s;
    } else {
      ys, t := GetOne(p, xs, s, n);
      if t != Panicked {
        BelowNext(s, n, t);
        ys, t := GetMore(p, ys, t, n + 1, k - 1);
      }
    }
  }

  /** Both operations end; commit starts, with no process referring to a block. */
  lemma EndBoth(p: Params, xs: seq<Step>, s: State) returns (ys: seq<Step>, t: State)
    requires Runs(p, Init, xs, s) && Filled(s, Peak(p.budget)) && |s.ops| == 2
    ensures Runs(p, Init, ys, t) && Starting(t, Peak(p.budget))
  {
    ys, t := EndOne(p, xs, s);
    ys, t := EndOne(p, ys, t);
    assert Used(NoRefs) == {};
  }

  ghost predicate Starting(s: State, n: nat) {
    && s.State? && s.committing && !s.logbuf && |s.lh| == n && Distinct(s.lh)
    && Below(s, n) && Used(s.refs) == {} && Extra(s) == {}
  }

  lemma NoneLeft(p: Params, s: State)
    requires s.State? && Distinct(s.lh) && |Extra(s)| + |s.lh| >= p.nbuf
    ensures NoBuffer(p, s)
  {
    SetOfDistinct(s.lh);
    assert Busy(s) == Extra(s) + Elems(s.lh);
  }

  /** commit finds no buffer for its first log block. */
  lemma TakePanics(p: Params, xs: seq<Step>, s: State) returns (ys: seq<Step>)
    requires Runs(p, Init, xs, s) && s.State? && s.committing && !s.logbuf && s.lh != []
    requires Distinct(s.lh) && |Extra(s)| + |s.lh| >= p.nbuf
    ensures Runs(p, Init, ys, Panicked)
  {
    NoneLeft(p, s);
    var t;
    ys, t := One(p, xs, s, LogTake);
  }

  /** The operations end, processes refer to all the blocks they may, and commit finds no buffer. */
  lemma CommitPanic(p: Params, xs: seq<Step>, s: State) returns (ys: seq<Step>)
    requires Runs(p, Init, xs, s) && Filled(s, Peak(p.budget)) && |s.ops| == 2
    requires Peak(p.budget) + p.users >= p.nbuf
    ensures Runs(p, Init, ys, Panicked)
  {
    var t;
    ys, t := EndBoth(p, xs, s);
    ys, t := GetMore(p, ys, t, Peak(p.budget), p.users);
    if t != Panicked {
      ys := TakePanics(p, ys, t);
    }
  }

  lemma ReachPanic(p: Params) returns (ys: seq<Step>)
    requires 1 <= p.budget && 1 <= p.users && !Roomy(p)
    ensures Runs(p, Init, ys, Panicked)
  {
    var t;
    ys, t := ReachPeak(p);
    if t != Panicked {
      if Peak(p.budget) < LOGSIZE && Peak(p.budget) < p.size - 1 {
        ys := CommitPanic(p, ys, t);
      } else {
        assert t.ops[0] != {};
        var b :| b in t.ops[0];
        assert t.ops[0] + {b} == t.ops[0];
        ys, t := LogOne(p, ys, t, 0, b);
      }
    }
  }

  /** No interleaving panics exactly when the peak stays below the header's capacity and the log's
      room, and the peak together with the blocks that processes refer to, locked, waited for or just
      unlocked, below the number of buffers. */
  lemma NeverPanicsIff(p: Params)
    requires 1 <= p.budget <= MAXOPBLOCKS && 1 <= p.users
    ensures NeverPanics(p) <==>
      Peak(p.budget) < LOGSIZE && Peak(p.budget) < p.size - 1 && Peak(p.budget) + p.users < p.nbuf
  {
    if Roomy(p) {
      forall steps ensures !Runs(p, Init, steps, Panicked) {
        RunSafe(p, Init, steps);
      }
    } else {
      var ys := ReachPanic(p);
    }
  }

  /** The promise of MAXOPBLOCKS blocks per operation is one too many: whatever the log size, however
      many buffers there are and however few are referred to, some run of such operations panics.  With
      the sizes that the file-system image and the kernel use, b blocks per operation are safe exactly
      when processes refer to at most 19 - 2 * b blocks at the same time: at most one with nine, 17 with
      one. */
  lemma PromisedBudgetPanics(size: nat, nbuf: nat, users: nat)
    requires 1 <= users
    ensures !NeverPanics(Params(MAXOPBLOCKS, size, nbuf, users))
    ensures forall b: nat | 1 <= b <= MAXOPBLOCKS ::
      NeverPanics(Params(b, LOGSIZE, BufferCache.NBUF, users)) <==> b <= 9 && 2 * b + users <= 19
  {
    NeverPanicsIff(Params(MAXOPBLOCKS, size, nbuf, users));
    forall b: nat | 1 <= b <= MAXOPBLOCKS
      ensures NeverPanics(Params(b, LOGSIZE, BufferCache.NBUF, users)) <==> b <= 9 && 2 * b + users <= 19
    {
      NeverPanicsIff(Params(b, LOGSIZE, BufferCache.NBUF, users));
    }
  }
}
