/** Process lifecycle in kernel/proc.c: fork, exit, wait, kill, sleep and wakeup, interleaved
    between any two lock operations.

    A process's program counter says which locks it holds: wait_lock from acquire to release in
    wait and exit, and its own p->lock while it goes to sleep or becomes a zombie.  Steps that
    take another process's lock need it to be free.
 */
module Proc {
  import opened Common

  datatype ProcState = Unused | Used | Sleeping | Runnable | Running | Zombie

  datatype Pc =
    | Idle                      // no code of its own yet
    | User                      // anywhere outside the code below
    | ForkAlloced(child: nat)   // fork: the child is allocated
    | ForkLinked(child: nat)    // fork: the child knows its parent
    | WaitLocked                // wait: holds wait_lock
    | WaitBoth                  // wait, in sleep: holds wait_lock and p->lock
    | WaitOwn                   // wait, in sleep: holds p->lock
    | WaitMarked                // wait, in sleep: state is SLEEPING, still holds p->lock
    | WaitAsleep                // wait, in sleep: switched out
    | WaitWoken                 // wait: about to take wait_lock again
    | ExitLocked                // exit: holds wait_lock, reparenting
    | ExitMoved                 // exit: gave a child to init, has yet to wake init
    | ExitWoke                  // exit: has woken its parent
    | ExitBoth                  // exit: holds wait_lock and p->lock
    | ExitZombie                // exit: state is ZOMBIE, holds both
    | ExitOwn                   // exit: holds p->lock
    | Dead                      // switched out for good

  /** `onSelf`: p->chan is p, the channel that wait sleeps on. */
  datatype Proc = Proc(state: ProcState, onSelf: bool, parent: Option<nat>, pid: nat, killed: bool, pc: Pc)

  datatype State = State(procs: seq<Proc>, nextpid: nat, init: nat)

  const Free := Proc(Unused, false, None, 0, false, Idle)

  /** The state userinit leaves: one runnable process, init, in a table of n slots. */
  function Boot(n: nat, init: nat): State
    requires init < n
  {
    State(seq(n, i => if i == init then Proc(Runnable, false, None, 1, false, User) else Free), 2, init)
  }

  // ---------- Locks ----------

  predicate HoldsWait(pc: Pc) {
    pc.WaitLocked? || pc.WaitBoth? || pc.ExitLocked? || pc.ExitMoved? || pc.ExitWoke? || pc.ExitBoth? || pc.ExitZombie?
  }

  predicate HoldsOwn(pc: Pc) {
    pc.WaitBoth? || pc.WaitOwn? || pc.WaitMarked? || pc.ExitBoth? || pc.ExitZombie? || pc.ExitOwn?
  }

  predicate WaitFree(s: State) {
    forall i | 0 <= i < |s.procs| :: !HoldsWait(s.procs[i].pc)
  }

  predicate OwnFree(s: State, p: nat) {
    p < |s.procs| && !HoldsOwn(s.procs[p].pc)
  }

  predicate HasChild(s: State, p: nat) {
    exists c :: 0 <= c < |s.procs| && s.procs[c].parent == Some(p)
  }

  predicate ZombieChild(s: State, p: nat, c: nat) {
    c < |s.procs| && s.procs[c].parent == Some(p) && s.procs[c].state.Zombie?
  }

  /** The slot that a search for pid from the start of the table finds. */
  predicate First(s: State, p: nat, pid: nat) {
    p < |s.procs| && s.procs[p].pid == pid && forall k | 0 <= k < p :: s.procs[k].pid != pid
  }

  predicate HasZombie(s: State, p: nat) {
    exists c: nat | c < |s.procs| :: ZombieChild(s, p, c)
  }

  // ---------- Steps ----------

  datatype Step =
    | Dispatch(p: nat)          // the scheduler runs p
    | Yield(p: nat)
    | SleepOther(p: nat)        // sleep on some other channel
    | WakeOther(p: nat)
    | Alloc(p: nat, child: nat)
    | Abandon(p: nat)           // copying the memory failed
    | Link(p: nat)
    | Start(p: nat)
    | EnterWait(p: nat)
    | Reap(p: nat, child: nat)
    | CopyFails(p: nat, child: nat) // no room for the exit status
    | GiveUp(p: nat)            // no zombie, and no children or killed
    | Doze(p: nat)              // nothing to reap: take p->lock
    | DropWait(p: nat)
    | Mark(p: nat)
    | SwitchOut(p: nat)
    | Resume(p: nat)
    | EnterExit(p: nat)
    | Adopt(p: nat, child: nat) // reparent one child
    | WakeInit(p: nat)
    | WakeParent(p: nat)
    | TakeOwn(p: nat)
    | Bury(p: nat)              // state becomes ZOMBIE
    | LeaveWait(p: nat)
    | Gone(p: nat)
    | Kill(p: nat, pid: nat)    // kill(pid) finds p

  /** What wakeup(q) does to process q, the only one that can sleep on channel q in wait. */
  function Woken(q: Proc): Proc {
    if q.state.Sleeping? && q.onSelf then q.(state := Runnable) else q
  }

  function Set(s: State, p: nat, q: Proc): State
    requires p < |s.procs|
  {
    s.(procs := s.procs[p := q])
  }

  function SetBoth(s: State, k: nat, r: Proc, p: nat, q: Proc): State
    requires k < |s.procs| && p < |s.procs|
  {
    s.(procs := s.procs[k := r][p := q])
  }

  function Alloced(s: State, p: nat, c: nat): State
    requires p < |s.procs| && c < |s.procs|
  {
    SetBoth(s, c, s.procs[c].(state := Used, pid := s.nextpid), p, s.procs[p].(pc := ForkAlloced(c)))
      .(nextpid := s.nextpid + 1)
  }

  function LinkedTo(s: State, p: nat, c: nat): State
    requires p < |s.procs| && c < |s.procs|
  {
    SetBoth(s, c, s.procs[c].(parent := Some(p)), p, s.procs[p].(pc := ForkLinked(c)))
  }

  function Started(s: State, p: nat, c: nat): State
    requires p < |s.procs| && c < |s.procs|
  {
    SetBoth(s, c, s.procs[c].(state := Runnable, pc := User), p, s.procs[p].(pc := User))
  }

  predicate At(s: State, p: nat, pc: Pc) {
    p < |s.procs| && s.procs[p].pc == pc && s.procs[p].state.Running?
  }

  predicate Forking(s: State, p: nat) {
    p < |s.procs| && s.procs[p].state.Running? && (s.procs[p].pc.ForkAlloced? || s.procs[p].pc.ForkLinked?)
    && s.procs[p].pc.child < |s.procs|
  }

  predicate Enabled(s: State, step: Step) {
    match step
    case Dispatch(p) => p < |s.procs| && s.procs[p].state.Runnable? && !s.procs[p].pc.WaitAsleep?
    case Yield(p) => p < |s.procs| && s.procs[p].state.Running? && !HoldsWait(s.procs[p].pc) && !HoldsOwn(s.procs[p].pc)
    case SleepOther(p) => At(s, p, User)
    case WakeOther(p) => p < |s.procs| && s.procs[p].state.Sleeping? && !s.procs[p].onSelf
    case Alloc(p, c) => At(s, p, User) && c < |s.procs| && s.procs[c].state.Unused?
    case Abandon(p) => Forking(s, p) && s.procs[p].pc.ForkAlloced?
    case Link(p) => Forking(s, p) && s.procs[p].pc.ForkAlloced? && WaitFree(s)
    case Start(p) => Forking(s, p) && s.procs[p].pc.ForkLinked?
    case EnterWait(p) => (At(s, p, User) || At(s, p, WaitWoken)) && WaitFree(s)
    case Reap(p, c) => At(s, p, WaitLocked) && ZombieChild(s, p, c) && OwnFree(s, c)
    case CopyFails(p, c) => At(s, p, WaitLocked) && ZombieChild(s, p, c) && OwnFree(s, c)
    case GiveUp(p) => At(s, p, WaitLocked) && !HasZombie(s, p) && (!HasChild(s, p) || s.procs[p].killed)
    case Doze(p) => At(s, p, WaitLocked) && HasChild(s, p) && !HasZombie(s, p)
    case DropWait(p) => At(s, p, WaitBoth)
    case Mark(p) => At(s, p, WaitOwn)
    case SwitchOut(p) => p < |s.procs| && s.procs[p].pc.WaitMarked?
    case Resume(p) => p < |s.procs| && s.procs[p].pc.WaitAsleep? && s.procs[p].state.Runnable?
    case EnterExit(p) => At(s, p, User) && p != s.init && WaitFree(s)
    case Adopt(p, c) => At(s, p, ExitLocked) && c < |s.procs| && s.procs[c].parent == Some(p)
    case WakeInit(p) => At(s, p, ExitMoved) && OwnFree(s, s.init)
    case WakeParent(p) => At(s, p, ExitLocked) && !HasChild(s, p) && s.procs[p].parent.Some?
      && OwnFree(s, s.procs[p].parent.value)
    case TakeOwn(p) => At(s, p, ExitWoke)
    case Bury(p) => At(s, p, ExitBoth)
    case LeaveWait(p) => p < |s.procs| && s.procs[p].pc.ExitZombie?
    case Gone(p) => p < |s.procs| && s.procs[p].pc.ExitOwn?
    case Kill(p, pid) => First(s, p, pid) && OwnFree(s, p)
  }

  /** The process that the step makes of its own, if it changes no other. */
  function Become(q: Proc, step: Step): Proc {
    match step
    case Dispatch(_) => q.(state := Running)
    case Yield(_) => q.(state := Runnable)
    case SleepOther(_) => q.(state := Sleeping, onSelf := false)
    case WakeOther(_) => q.(state := Runnable)
    case EnterWait(_) => q.(pc := WaitLocked)
    case CopyFails(_, _) => q.(pc := User)
    case GiveUp(_) => q.(pc := User)
    case Doze(_) => q.(pc := WaitBoth)
    case DropWait(_) => q.(pc := WaitOwn)
    case Mark(_) => q.(pc := WaitMarked, state := Sleeping, onSelf := true)
    case SwitchOut(_) => q.(pc := WaitAsleep)
    case Resume(_) => q.(pc := WaitWoken, state := Running, onSelf := false)
    case EnterExit(_) => q.(pc := ExitLocked)
    case TakeOwn(_) => q.(pc := ExitBoth)
    case Bury(_) => q.(pc := ExitZombie, state := Zombie)
    case LeaveWait(_) => q.(pc := ExitOwn)
    case Gone(_) => q.(pc := Dead)
    case Kill(_, _) => q.(killed := true, state := if q.state.Sleeping? then Runnable else q.state)
    case _ => q
  }

  function Next(s: State, step: Step): State
    requires Enabled(s, step)
  {
    var p := step.p;
    var q := s.procs[p];
    match step
    case Alloc(_, c) => Alloced(s, p, c)
    case Abandon(_) => SetBoth(s, q.pc.child, Free, p, q.(pc := User))
    case Link(_) => LinkedTo(s, p, q.pc.child)
    case Start(_) => Started(s, p, q.pc.child)
    case Reap(_, c) => SetBoth(s, c, Free, p, q.(pc := User))
    case Adopt(_, c) => SetBoth(s, p, q.(pc := ExitMoved), c, s.procs[c].(parent := Some(s.init)))
    case WakeInit(_) => SetBoth(s, s.init, Woken(s.procs[s.init]), p, q.(pc := ExitLocked))
    case WakeParent(_) => SetBoth(s, q.parent.value, Woken(s.procs[q.parent.value]), p, q.(pc := ExitWoke))
    case _ => Set(s, p, Become(q, step))
  }

  // ---------- The invariant ----------

  /** What each program counter says of its own process. */
  predicate Shape(q: Proc) {
    match q.pc
    case Idle => !q.onSelf && (q.state.Unused? || q.state.Used?)
    case User => !q.onSelf && (q.state.Runnable? || q.state.Running? || q.state.Sleeping?)
    case ForkAlloced(_) => !q.onSelf && (q.state.Runnable? || q.state.Running?)
    case ForkLinked(_) => !q.onSelf && (q.state.Runnable? || q.state.Running?)
    case WaitWoken => !q.onSelf && (q.state.Runnable? || q.state.Running?)
    case WaitMarked => q.onSelf && q.state.Sleeping?
    case WaitAsleep => q.onSelf && (q.state.Sleeping? || q.state.Runnable?)
    case ExitZombie => !q.onSelf && q.state.Zombie?
    case ExitOwn => !q.onSelf && q.state.Zombie?
    case Dead => !q.onSelf && q.state.Zombie?
    case _ => !q.onSelf && q.state.Running?
  }

  /** Past the point where it gives its children away. */
  predicate Childless(pc: Pc) {
    pc.Idle? || pc.ExitWoke? || pc.ExitBoth? || pc.ExitZombie? || pc.ExitOwn? || pc.Dead?
  }

  predicate Exiting(pc: Pc) {
    pc.ExitLocked? || pc.ExitMoved? || pc.ExitWoke? || pc.ExitBoth? || pc.ExitZombie? || pc.ExitOwn? || pc.Dead?
  }

  /** Has decided in wait that there is nothing to reap, and nothing has woken it since. */
  predicate Committed(q: Proc) {
    q.pc.WaitBoth? || q.pc.WaitOwn? || q.pc.WaitMarked? || (q.pc.WaitAsleep? && q.state.Sleeping?)
  }

  predicate SomeMoved(s: State) {
    exists e :: 0 <= e < |s.procs| && s.procs[e].pc.ExitMoved?
  }

  predicate Forks(q: Proc) {
    q.pc.ForkAlloced? || q.pc.ForkLinked?
  }

  predicate GoodProc(s: State, i: nat)
    requires i < |s.procs|
  {
    var q := s.procs[i];
    Shape(q)
    && (q.state.Unused? ==> q.parent.None? && q.pid == 0)
    && (!q.state.Unused? ==> 0 < q.pid < s.nextpid)
    && (i == s.init ==> q.parent.None? && !Exiting(q.pc) && !q.pc.Idle? && q.pid == 1)
    && (i != s.init && !q.pc.Idle? ==> q.parent.Some?)
    && (q.parent.Some? ==> q.parent.value < |s.procs|)
    && (Forks(q) ==> q.pc.child < |s.procs|)
  }

  // What holds between any two slots i and j of the table.

  predicate OneHolder(s: State, i: nat, j: nat)
    requires i < |s.procs| && j < |s.procs|
  {
    HoldsWait(s.procs[i].pc) && HoldsWait(s.procs[j].pc) ==> i == j
  }

  predicate OnePid(s: State, i: nat, j: nat)
    requires i < |s.procs| && j < |s.procs|
  {
    s.procs[i].pid == s.procs[j].pid && !s.procs[i].state.Unused? && !s.procs[j].state.Unused? ==> i == j
  }

  /** A parent is alive, older than its child, and has not yet given its children away. */
  predicate GoodParent(s: State, i: nat, j: nat)
    requires i < |s.procs| && j < |s.procs|
  {
    s.procs[i].parent == Some(j) ==> !Childless(s.procs[j].pc) && s.procs[j].pid < s.procs[i].pid
  }

  predicate OneFork(s: State, i: nat, j: nat)
    requires i < |s.procs| && j < |s.procs|
  {
    var q, r := s.procs[i], s.procs[j];
    Forks(q) && Forks(r) && q.pc.child == r.pc.child ==> i == j
  }

  /** The child j of a fork in process i is allocated and not yet running. */
  predicate GoodFork(s: State, i: nat, j: nat)
    requires i < |s.procs| && j < |s.procs|
  {
    var q, r := s.procs[i], s.procs[j];
    && (Forks(q) && q.pc.child == j ==>
      r.state.Used? && r.pc.Idle? && q.pid < r.pid && r.parent == if q.pc.ForkAlloced? then None else Some(i))
    && (r.state.Used? && r.parent == Some(i) ==> q.pc == ForkLinked(j))
  }

  /** An exiting child i has woken its parent j, and a parent that sleeps all the same has no zombie,
      unless it is init and about to be woken. */
  predicate GoodWake(s: State, i: nat, j: nat)
    requires i < |s.procs| && j < |s.procs|
  {
    var q, r := s.procs[i], s.procs[j];
    q.parent == Some(j) && Committed(r) ==>
      && !q.pc.ExitWoke? && !q.pc.ExitBoth?
      && (q.state.Zombie? ==> j == s.init && SomeMoved(s))
  }

  ghost predicate GoodPair(s: State, i: nat, j: nat)
    requires i < |s.procs| && j < |s.procs|
  {
    OneHolder(s, i, j) && OnePid(s, i, j) && OneFork(s, i, j) && GoodParent(s, i, j) && GoodFork(s, i, j)
      && GoodWake(s, i, j)
  }

  ghost predicate Inv(s: State) {
    && s.init < |s.procs|
    && 2 <= s.nextpid
    && (forall i: nat | i < |s.procs| :: GoodProc(s, i))
    && (forall i: nat, j: nat | i < |s.procs| && j < |s.procs| :: GoodPair(s, i, j))
  }

  lemma BootGood(n: nat, init: nat)
    requires init < n
    ensures Inv(Boot(n, init))
  {
  }

  /** init's wakeup stays due while its process only gets on elsewhere. */
  lemma StaysDue(s: State, t: State, e: nat)
    requires |t.procs| == |s.procs| && (e < |s.procs| && s.procs[e].pc.ExitMoved? ==> t.procs[e].pc.ExitMoved?)
    requires forall i: nat | i < |s.procs| && i != e :: s.procs[i].pc.ExitMoved? ==> t.procs[i].pc.ExitMoved?
    ensures SomeMoved(s) ==> SomeMoved(t)
  {
    if SomeMoved(s) {
      var i :| 0 <= i < |s.procs| && s.procs[i].pc.ExitMoved?;
      assert t.procs[i].pc.ExitMoved?;
    }
  }

  /** The invariant around the process p and any two others. */
  lemma Around(s: State, p: nat, i: nat, j: nat)
    requires Inv(s) && p < |s.procs| && i < |s.procs| && j < |s.procs|
    ensures GoodProc(s, i) && GoodProc(s, j) && GoodProc(s, p)
    ensures GoodPair(s, i, j) && GoodPair(s, j, i) && GoodPair(s, p, j) && GoodPair(s, p, i) && GoodPair(s, i, p)
      && GoodPair(s, j, p)
  {
  }

  // ---------- Steps of one process ----------

  /** Process p can become r without any other process being concerned: it keeps its pid, its parent and its
      fork; it takes wait_lock only if that is free; it has no children left when it stops being a parent; it
      falls asleep in wait only with wait_lock and no zombie child; its parent is not about to sleep when it
      starts to die; and init is not when it is past waking init. */
  predicate Steady(s: State, p: nat, r: Proc) {
    p < |s.procs| && s.init < |s.procs| && var q := s.procs[p];
    && Shape(r) && r.pid == q.pid && r.parent == q.parent
    && r.state.Unused? == q.state.Unused? && r.state.Used? == q.state.Used? && r.pc.Idle? == q.pc.Idle?
    && (Forks(q) || Forks(r) ==> r.pc == q.pc)
    && (p == s.init ==> !Exiting(r.pc))
    && (HoldsWait(r.pc) ==> HoldsWait(q.pc) || WaitFree(s))
    && (Childless(r.pc) ==> Childless(q.pc) || !HasChild(s, p))
    && (Committed(r) ==> Committed(q) || (q.pc.WaitLocked? && !HasZombie(s, p)))
    && (r.pc.ExitWoke? || r.pc.ExitBoth? || r.state.Zombie? ==>
          q.pc.ExitWoke? || q.pc.ExitBoth? || q.state.Zombie? || Heard(s, p))
    && (q.state.Zombie? ==> r.state.Zombie?)
    && (q.pc.ExitMoved? ==> r.pc.ExitMoved? || !Committed(s.procs[s.init]))
  }

  /** The parent of p is not about to sleep in wait. */
  predicate Heard(s: State, p: nat)
    requires p < |s.procs|
  {
    forall k | 0 <= k < |s.procs| :: s.procs[p].parent == Some(k) ==> !Committed(s.procs[k])
  }

  lemma SteadyProc(s: State, p: nat, r: Proc, i: nat)
    requires Inv(s) && Steady(s, p, r) && i < |s.procs|
    ensures GoodProc(Set(s, p, r), i)
  {
    assert GoodProc(s, i) && GoodProc(s, p);
  }

  lemma SteadyPair(s: State, p: nat, r: Proc, i: nat, j: nat)
    requires Inv(s) && Steady(s, p, r) && i < |s.procs| && j < |s.procs|
    ensures var t := Set(s, p, r);
      OneHolder(t, i, j) && OnePid(t, i, j) && OneFork(t, i, j) && GoodParent(t, i, j) && GoodFork(t, i, j)
  {
    Around(s, p, i, j);
  }

  lemma SteadyWake(s: State, p: nat, r: Proc, i: nat, j: nat)
    requires Inv(s) && Steady(s, p, r) && i < |s.procs| && j < |s.procs|
    ensures GoodWake(Set(s, p, r), i, j)
  {
    Around(s, p, i, j);
    if s.procs[p].pc.ExitMoved? ==> r.pc.ExitMoved? {
      StaysDue(s, Set(s, p, r), p);
    }
    assert GoodProc(s, s.init);
    assert ZombieChild(s, p, i) ==> HasZombie(s, p);
  }

  lemma SteadyKeeps(s: State, p: nat, r: Proc)
    requires Inv(s) && Steady(s, p, r)
    ensures Inv(Set(s, p, r))
  {
    var t := Set(s, p, r);
    forall i: nat, j: nat | i < |s.procs| && j < |s.procs| ensures GoodPair(t, i, j) {
      SteadyPair(s, p, r, i, j);
      SteadyWake(s, p, r, i, j);
    }
    forall i: nat | i < |s.procs| ensures GoodProc(t, i) {
      SteadyProc(s, p, r, i);
    }
  }

  predicate Alone(step: Step) {
    !step.Alloc? && !step.Abandon? && !step.Link? && !step.Start? && !step.Reap? && !step.Adopt? && !step.WakeInit?
    && !step.WakeParent?
  }

  predicate Wait(step: Step) {
    step.EnterWait? || step.CopyFails? || step.GiveUp? || step.Doze? || step.DropWait? || step.Mark? || step.SwitchOut?
    || step.Resume?
  }

  lemma WaitSteady(s: State, step: Step)
    requires Inv(s) && Enabled(s, step) && Wait(step)
    ensures Steady(s, step.p, Become(s.procs[step.p], step))
  {
    assert GoodProc(s, step.p);
  }

  lemma ElseSteady(s: State, step: Step)
    requires Inv(s) && Enabled(s, step) && Alone(step) && !Wait(step)
    ensures Steady(s, step.p, Become(s.procs[step.p], step))
  {
    assert GoodProc(s, step.p);
  }

  lemma AloneSteady(s: State, step: Step)
    requires Inv(s) && Enabled(s, step) && Alone(step)
    ensures Steady(s, step.p, Become(s.procs[step.p], step))
  {
    if Wait(step) {
      WaitSteady(s, step);
    } else {
      ElseSteady(s, step);
    }
  }

  /** wakeup by an exiting process: the sleeper wakes, then the process gets on. */
  lemma WakesKeep(s: State, step: Step)
    requires Inv(s) && Enabled(s, step) && (step.WakeInit? || step.WakeParent?)
    ensures Inv(Next(s, step))
  {
    var p, k := step.p, if step.WakeInit? then s.init else s.procs[step.p].parent.value;
    assert GoodProc(s, p) && GoodProc(s, k) && GoodPair(s, p, k) && GoodPair(s, p, p);
    SteadyKeeps(s, k, Woken(s.procs[k]));
    var u := Set(s, k, Woken(s.procs[k]));
    assert !HasChild(s, p) ==> !HasChild(u, p);
    SteadyKeeps(u, p, s.procs[p].(pc := if step.WakeInit? then ExitLocked else ExitWoke));
  }

  // ---------- Steps of two processes ----------

  lemma AllocKeepsFork(s: State, p: nat, c: nat, i: nat, j: nat)
    requires Inv(s) && At(s, p, User) && c < |s.procs| && s.procs[c].state.Unused? && i < |s.procs| && j < |s.procs|
    ensures var t := Alloced(s, p, c); OneFork(t, i, j) && GoodFork(t, i, j) && GoodWake(t, i, j)
  {
    Around(s, p, i, j);
    Around(s, c, i, j);
    StaysDue(s, Alloced(s, p, c), p);
  }

  lemma AllocKeeps(s: State, p: nat, c: nat, i: nat, j: nat)
    requires Inv(s) && At(s, p, User) && c < |s.procs| && s.procs[c].state.Unused? && i < |s.procs| && j < |s.procs|
    ensures var t := Alloced(s, p, c); GoodProc(t, i) && GoodPair(t, i, j)
  {
    assert GoodProc(s, i) && GoodProc(s, j) && GoodProc(s, p) && GoodProc(s, c) && GoodPair(s, i, j);
    AllocKeepsFork(s, p, c, i, j);
  }

  lemma AbandonKeeps(s: State, p: nat, c: nat, i: nat, j: nat)
    requires Inv(s) && At(s, p, ForkAlloced(c)) && c < |s.procs| && i < |s.procs| && j < |s.procs|
    ensures var t := SetBoth(s, c, Free, p, s.procs[p].(pc := User)); GoodProc(t, i) && GoodPair(t, i, j)
  {
    Around(s, p, i, j);
    Around(s, c, i, j);
    assert GoodPair(s, p, c);
    StaysDue(s, SetBoth(s, c, Free, p, s.procs[p].(pc := User)), p);
  }

  lemma LinkKeeps(s: State, p: nat, c: nat, i: nat, j: nat)
    requires Inv(s) && At(s, p, ForkAlloced(c)) && c < |s.procs| && i < |s.procs| && j < |s.procs|
    ensures var t := LinkedTo(s, p, c); GoodProc(t, i) && GoodPair(t, i, j)
  {
    Around(s, p, i, j);
    Around(s, c, i, j);
    assert GoodPair(s, p, c);
    StaysDue(s, LinkedTo(s, p, c), p);
  }

  lemma StartKeeps(s: State, p: nat, c: nat, i: nat, j: nat)
    requires Inv(s) && At(s, p, ForkLinked(c)) && c < |s.procs| && i < |s.procs| && j < |s.procs|
    ensures var t := Started(s, p, c); GoodProc(t, i) && GoodPair(t, i, j)
  {
    Around(s, p, i, j);
    Around(s, c, i, j);
    assert GoodPair(s, p, c);
    StaysDue(s, Started(s, p, c), p);
  }

  lemma ReapKeepsParent(s: State, p: nat, c: nat, i: nat, j: nat)
    requires Inv(s) && At(s, p, WaitLocked) && ZombieChild(s, p, c) && i < |s.procs| && j < |s.procs|
    ensures var t := SetBoth(s, c, Free, p, s.procs[p].(pc := User));
      GoodParent(t, i, j) && GoodFork(t, i, j) && GoodWake(t, i, j)
  {
    Around(s, p, i, j);
    assert GoodProc(s, c) && GoodPair(s, c, p) && GoodPair(s, i, c);
    StaysDue(s, SetBoth(s, c, Free, p, s.procs[p].(pc := User)), c);
  }

  lemma ReapKeeps(s: State, p: nat, c: nat, i: nat, j: nat)
    requires Inv(s) && At(s, p, WaitLocked) && ZombieChild(s, p, c) && i < |s.procs| && j < |s.procs|
    ensures var t := SetBoth(s, c, Free, p, s.procs[p].(pc := User)); GoodProc(t, i) && GoodPair(t, i, j)
  {
    assert GoodProc(s, i) && GoodProc(s, p) && GoodProc(s, c) && GoodPair(s, i, j) && GoodPair(s, c, p);
    ReapKeepsParent(s, p, c, i, j);
  }

  lemma AdoptKeepsParent(s: State, p: nat, c: nat, i: nat, j: nat)
    requires Inv(s) && At(s, p, ExitLocked) && c < |s.procs| && s.procs[c].parent == Some(p)
      && i < |s.procs| && j < |s.procs|
    ensures var t := SetBoth(s, p, s.procs[p].(pc := ExitMoved), c, s.procs[c].(parent := Some(s.init)));
      GoodParent(t, i, j) && GoodWake(t, i, j)
  {
    var t := SetBoth(s, p, s.procs[p].(pc := ExitMoved), c, s.procs[c].(parent := Some(s.init)));
    assert GoodProc(s, i) && GoodProc(s, p) && GoodProc(s, s.init) && GoodProc(s, c);
    assert GoodPair(s, i, j) && GoodPair(s, i, p) && GoodPair(s, c, p) && GoodPair(s, s.init, c);
    assert t.procs[p].pc.ExitMoved?;
  }

  lemma AdoptKeeps(s: State, p: nat, c: nat, i: nat, j: nat)
    requires Inv(s) && At(s, p, ExitLocked) && c < |s.procs| && s.procs[c].parent == Some(p)
      && i < |s.procs| && j < |s.procs|
    ensures var t := SetBoth(s, p, s.procs[p].(pc := ExitMoved), c, s.procs[c].(parent := Some(s.init)));
      GoodProc(t, i) && GoodPair(t, i, j)
  {
    assert GoodProc(s, i) && GoodProc(s, p) && GoodProc(s, s.init);
    assert GoodPair(s, i, j) && GoodPair(s, c, p) && GoodPair(s, p, c);
    AdoptKeepsParent(s, p, c, i, j);
  }

  lemma PairKeeps(s: State, step: Step, i: nat, j: nat)
    requires Inv(s) && Enabled(s, step) && !Alone(step) && !step.WakeInit? && !step.WakeParent?
    requires i < |s.procs| && j < |s.procs|
    ensures GoodProc(Next(s, step), i) && GoodPair(Next(s, step), i, j)
  {
    match step {
      case Alloc(p, c) => AllocKeeps(s, p, c, i, j);
      case Abandon(p) => AbandonKeeps(s, p, s.procs[p].pc.child, i, j);
      case Link(p) => LinkKeeps(s, p, s.procs[p].pc.child, i, j);
      case Start(p) => StartKeeps(s, p, s.procs[p].pc.child, i, j);
      case Reap(p, c) => ReapKeeps(s, p, c, i, j);
      case Adopt(p, c) => AdoptKeeps(s, p, c, i, j);
    }
  }

  lemma StepKeeps(s: State, step: Step)
    requires Inv(s) && Enabled(s, step)
    ensures Inv(Next(s, step)) && |Next(s, step).procs| == |s.procs| && Next(s, step).init == s.init
  {
    if Alone(step) {
      AloneSteady(s, step);
      SteadyKeeps(s, step.p, Become(s.procs[step.p], step));
    } else if step.WakeInit? || step.WakeParent? {
      WakesKeep(s, step);
    } else {
      var t := Next(s, step);
      forall i: nat, j: nat | i < |s.procs| && j < |s.procs| ensures GoodPair(t, i, j) {
        PairKeeps(s, step, i, j);
      }
      forall i: nat | i < |s.procs| ensures GoodProc(t, i) {
        PairKeeps(s, step, i, i);
      }
    }
  }

  /** The other process a step changes, or the process itself. */
  function Other(s: State, step: Step): nat
    requires Enabled(s, step)
  {
    match step
    case Alloc(_, c) => c
    case Abandon(p) => s.procs[p].pc.child
    case Link(p) => s.procs[p].pc.child
    case Start(p) => s.procs[p].pc.child
    case Reap(_, c) => c
    case Adopt(_, c) => c
    case WakeInit(_) => s.init
    case WakeParent(p) => s.procs[p].parent.value
    case _ => step.p
  }

  /** A step changes its process and the other one it concerns. */
  lemma Unchanged(s: State, step: Step, c: nat)
    requires Inv(s) && Enabled(s, step) && c < |s.procs|
    ensures |Next(s, step).procs| == |s.procs| && step.p < |s.procs|
    ensures c != step.p && c != Other(s, step) ==> Next(s, step).procs[c] == s.procs[c]
    ensures Alone(step) ==> Other(s, step) == step.p
    ensures Alone(step) ==> Next(s, step) == Set(s, step.p, Become(s.procs[step.p], step))
  {
  }

  // ---------- Whole runs ----------

  /** A run: each step is enabled where it is taken. */
  ghost predicate Runs(s: State, steps: seq<Step>, t: State)
    decreases |steps|
  {
    if steps == [] then s == t
    else Enabled(s, steps[0]) && Runs(Next(s, steps[0]), steps[1..], t)
  }

  lemma {:induction false} RunKeeps(s: State, steps: seq<Step>, t: State)
    requires Inv(s) && Runs(s, steps, t)
    ensures Inv(t) && |t.procs| == |s.procs| && t.init == s.init
    decreases |steps|
  {
    if steps != [] {
      StepKeeps(s, steps[0]);
      RunKeeps(Next(s, steps[0]), steps[1..], t);
    }
  }

  /** While nobody holds wait_lock, no process sleeps in wait with a zombie child. */
  ghost predicate NoLostWakeup(s: State) {
    WaitFree(s) ==> forall p: nat, c: nat | p < |s.procs| :: !(SleepsInWait(s.procs[p]) && ZombieChild(s, p, c))
  }

  predicate SleepsInWait(q: Proc) {
    q.state.Sleeping? && q.onSelf
  }

  /** Every process that fork has linked, except init, has a live parent, which is no zombie and was
      created before it. */
  ghost predicate SoundParents(s: State) {
    forall c: nat | c < |s.procs| && Linked(s, c) :: SoundParent(s, c)
  }

  /** fork has set the process's parent: it has left the table of new processes, or its parent in fork
      is past that point. */
  predicate Linked(s: State, c: nat)
    requires c < |s.procs|
  {
    var q := s.procs[c];
    c != s.init && !q.state.Unused?
    && (q.state.Used? ==> exists p: nat | p < |s.procs| :: s.procs[p].pc == ForkLinked(c))
  }

  predicate SoundParent(s: State, c: nat)
    requires c < |s.procs|
  {
    var q := s.procs[c];
    && q.parent.Some? && q.parent.value < |s.procs|
    && var r := s.procs[q.parent.value];
       !r.state.Unused? && !r.state.Used? && !r.state.Zombie? && r.pid < q.pid
  }

  ghost predicate DistinctPids(s: State) {
    forall i: nat, j: nat | i < |s.procs| && j < |s.procs| :: OnePid(s, i, j)
  }

  lemma InvMeaning(s: State)
    requires Inv(s)
    ensures NoLostWakeup(s) && SoundParents(s) && DistinctPids(s)
  {
    if WaitFree(s) {
      forall p: nat, c: nat | p < |s.procs| ensures !(SleepsInWait(s.procs[p]) && ZombieChild(s, p, c)) {
        assert GoodProc(s, p);
        assert c < |s.procs| ==> GoodPair(s, c, p);
      }
    }
    forall c: nat | c < |s.procs| && Linked(s, c) ensures SoundParent(s, c) {
      assert GoodProc(s, c);
      if q: nat :| q < |s.procs| && s.procs[q].pc == ForkLinked(c) {
        assert GoodPair(s, q, c) && GoodProc(s, q);
      }
      var p := s.procs[c].parent.value;
      assert GoodProc(s, p) && GoodPair(s, c, p);
    }
    forall i: nat, j: nat | i < |s.procs| && j < |s.procs| ensures OnePid(s, i, j) {
      assert GoodPair(s, i, j);
    }
  }

  /** In every state that any interleaving reaches: no wakeup of a waiting parent is lost, parents are
      sound, and no two live processes share a pid. */
  lemma LifecycleSafety(n: nat, init: nat, steps: seq<Step>, t: State)
    requires init < n && Runs(Boot(n, init), steps, t)
    ensures NoLostWakeup(t) && SoundParents(t) && DistinctPids(t)
  {
    BootGood(n, init);
    RunKeeps(Boot(n, init), steps, t);
    InvMeaning(t);
  }

  // ---------- Reaping ----------

  /** Only a reap by its current parent takes a zombie out of the table, and it frees the slot. */
  lemma ZombieLeaves(s: State, step: Step, c: nat)
    requires Inv(s) && Enabled(s, step) && c < |s.procs| && s.procs[c].state.Zombie?
    ensures |Next(s, step).procs| == |s.procs|
    ensures Next(s, step).procs[c].state.Zombie? <==> !(step.Reap? && step.child == c)
    ensures step.Reap? && step.child == c ==> s.procs[c].parent == Some(step.p) && Next(s, step).procs[c] == Free
  {
    Unchanged(s, step, c);
    if Alone(step) {
      AloneSteady(s, step);
    } else {
      ZombieMeets(s, step, c);
    }
  }

  /** No step of two processes but a reap changes a zombie's state. */
  /** Every change of a process's state, and no others. */
  lemma StateDiagram(s: State, step: Step, c: nat)
    requires Inv(s) && Enabled(s, step) && c < |s.procs|
    ensures |Next(s, step).procs| == |s.procs|
    ensures var q, was := s.procs[c], s.procs[c].state;
      Next(s, step).procs[c].state == match step
      case Alloc(_, k) => if k == c then Used else was
      case Abandon(p) => if s.procs[p].pc == ForkAlloced(c) then Unused else was
      case Start(p) => if s.procs[p].pc == ForkLinked(c) then Runnable else was
      case Dispatch(p) => if p == c then Running else was
      case Resume(p) => if p == c then Running else was
      case Yield(p) => if p == c then Runnable else was
      case SleepOther(p) => if p == c then Sleeping else was
      case Mark(p) => if p == c then Sleeping else was
      case WakeOther(p) => if p == c then Runnable else was
      case WakeInit(_) => if c == s.init && was.Sleeping? && q.onSelf then Runnable else was
      case WakeParent(p) =>
        if s.procs[p].parent == Some(c) && was.Sleeping? && q.onSelf then Runnable else was
      case Kill(p, _) => if p == c && was.Sleeping? then Runnable else was
      case Bury(p) => if p == c then Zombie else was
      case Reap(_, k) => if k == c then Unused else was
      case _ => was
  {
    Unchanged(s, step, c);
    if !Alone(step) {
      DiagramBoth(s, step, c);
    }
  }

  lemma DiagramBoth(s: State, step: Step, c: nat)
    requires Inv(s) && Enabled(s, step) && !Alone(step) && c < |s.procs|
    ensures step.p < |s.procs| && Other(s, step) < |s.procs|
    ensures Other(s, step) == step.p ==> step.WakeParent?
    ensures s.procs[step.p].state.Running?
    ensures Other(s, step) == step.p ==> !s.procs[step.p].state.Sleeping?
  {
    assert GoodProc(s, step.p) && GoodPair(s, step.p, step.p) && GoodProc(s, s.init);
  }

  /** The step is a wakeup of c's channel or a kill of c. */
  predicate Wakes(s: State, step: Step, c: nat)
    requires c < |s.procs|
  {
    match step
    case WakeOther(p) => p == c
    case WakeInit(_) => c == s.init && s.procs[c].onSelf
    case WakeParent(p) => p < |s.procs| && s.procs[p].parent == Some(c) && s.procs[c].onSelf
    case Kill(p, _) => p == c
    case _ => false
  }

  /** A sleeping process stops sleeping exactly by a wakeup of its channel or by a kill, and is runnable then. */
  lemma SleeperLeaves(s: State, step: Step, c: nat)
    requires Inv(s) && Enabled(s, step) && c < |s.procs| && s.procs[c].state.Sleeping?
    ensures |Next(s, step).procs| == |s.procs|
    ensures Next(s, step).procs[c].state.Sleeping? <==> !Wakes(s, step, c)
    ensures Wakes(s, step, c) ==> Next(s, step).procs[c].state.Runnable?
  {
    Unchanged(s, step, c);
    if Alone(step) {
      SleeperAlone(s, step, c);
    } else {
      SleeperMeets(s, step, c);
    }
  }

  lemma SleeperAlone(s: State, step: Step, c: nat)
    requires Inv(s) && Enabled(s, step) && Alone(step) && c < |s.procs| && s.procs[c].state.Sleeping?
    ensures step.p == c ==>
      (Become(s.procs[c], step).state.Sleeping? <==> !step.WakeOther? && !step.Kill?)
      && (step.WakeOther? || step.Kill? ==> Become(s.procs[c], step).state.Runnable?)
  {
    assert GoodProc(s, c);
  }

  lemma SleeperMeets(s: State, step: Step, c: nat)
    requires Inv(s) && Enabled(s, step) && !Alone(step) && c < |s.procs| && s.procs[c].state.Sleeping?
    ensures step.p != c
    ensures Other(s, step) == c ==> step.Adopt? || step.WakeInit? || step.WakeParent?
  {
    assert GoodProc(s, c) && GoodProc(s, step.p) && GoodPair(s, step.p, c);
  }

  /** kill(pid) marks the first process with this pid, takes it out of its sleep, and changes nothing else. */
  lemma KillMarks(s: State, p: nat, pid: nat)
    requires Inv(s) && Enabled(s, Kill(p, pid))
    ensures p < |s.procs| && s.procs[p].pid == pid && forall k | 0 <= k < p :: s.procs[k].pid != pid
    ensures var t := Next(s, Kill(p, pid)); |t.procs| == |s.procs| && t.nextpid == s.nextpid && t.init == s.init
    ensures Next(s, Kill(p, pid)).procs[p].killed && !Next(s, Kill(p, pid)).procs[p].state.Sleeping?
    ensures forall k: nat | k < |s.procs| && k != p :: Next(s, Kill(p, pid)).procs[k] == s.procs[k]
    ensures var q, r := s.procs[p], Next(s, Kill(p, pid)).procs[p];
      r.pid == q.pid && r.parent == q.parent && r.pc == q.pc && (!q.state.Sleeping? ==> r.state == q.state)
  {
    forall k: nat | k < |s.procs| && k != p ensures Next(s, Kill(p, pid)).procs[k] == s.procs[k] {
      Unchanged(s, Kill(p, pid), k);
    }
    if s.procs[p].state.Sleeping? {
      SleeperLeaves(s, Kill(p, pid), p);
    }
  }

  lemma ZombieMeets(s: State, step: Step, c: nat)
    requires Inv(s) && Enabled(s, step) && !Alone(step) && c < |s.procs| && s.procs[c].state.Zombie?
    ensures step.p != c && (Other(s, step) == c ==> step.Reap? || step.Adopt?)
  {
    assert GoodProc(s, c) && GoodProc(s, step.p) && GoodProc(s, s.init) && GoodPair(s, step.p, c);
  }

  /** The process with this pid is gone for good. */
  ghost predicate PidGone(s: State, pid: nat) {
    0 < pid < s.nextpid && forall i: nat | i < |s.procs| :: s.procs[i].pid != pid
  }

  lemma GoneStays(s: State, step: Step, pid: nat)
    requires Inv(s) && Enabled(s, step) && PidGone(s, pid)
    ensures PidGone(Next(s, step), pid)
  {
    if Alone(step) {
      AloneSteady(s, step);
    }
  }

  lemma {:induction false} GoneForever(s: State, steps: seq<Step>, t: State, pid: nat)
    requires Inv(s) && Runs(s, steps, t) && PidGone(s, pid)
    ensures PidGone(t, pid)
    decreases |steps|
  {
    if steps != [] {
      GoneStays(s, steps[0], pid);
      StepKeeps(s, steps[0]);
      GoneForever(Next(s, steps[0]), steps[1..], t, pid);
    }
  }

  /** Each process is reaped at most once: its pid never lives again. */
  lemma ReapedOnce(n: nat, init: nat, before: seq<Step>, s: State, p: nat, c: nat, after: seq<Step>, t: State)
    requires init < n && Runs(Boot(n, init), before, s)
    requires Enabled(s, Reap(p, c)) && Runs(Next(s, Reap(p, c)), after, t)
    ensures PidGone(t, s.procs[c].pid)
  {
    BootGood(n, init);
    RunKeeps(Boot(n, init), before, s);
    var u := Next(s, Reap(p, c));
    StepKeeps(s, Reap(p, c));
    assert GoodProc(s, c);
    forall i: nat | i < |u.procs| ensures u.procs[i].pid != s.procs[c].pid {
      assert GoodPair(s, i, c) && GoodProc(s, i);
    }
    GoneForever(u, after, t, s.procs[c].pid);
  }

  // ---------- Progress of the lock ----------

  function Total(procs: seq<Proc>, w: Proc -> nat): nat {
    if procs == [] then 0 else Total(procs[..|procs| - 1], w) + w(procs[|procs| - 1])
  }

  lemma {:induction false} TotalSet(procs: seq<Proc>, p: nat, q: Proc, w: Proc -> nat)
    requires p < |procs|
    ensures Total(procs[p := q], w) + w(procs[p]) == Total(procs, w) + w(q)
    decreases |procs|
  {
    var n := |procs| - 1;
    if p == n {
      assert procs[p := q][..n] == procs[..n];
    } else {
      assert procs[p := q][..n] == procs[..n][p := q];
      TotalSet(procs[..n], p, q, w);
    }
  }

  /** Steps until the process gives its own lock back, while it holds that one alone. */
  function OwnSteps(q: Proc): nat {
    if q.pc.WaitOwn? then 2 else if q.pc.WaitMarked? || q.pc.ExitOwn? then 1 else 0
  }

  function ChildOf(h: nat): Proc -> nat {
    (q: Proc) => if q.parent == Some(h) then 1 else 0
  }

  /** Steps until h gives wait_lock back, not counting those it has to wait for. */
  function WaitSteps(s: State, h: nat): nat
    requires h < |s.procs|
  {
    var k := Total(s.procs, ChildOf(h));
    match s.procs[h].pc
    case WaitLocked => 2
    case WaitBoth => 1
    case ExitLocked => 2 * k + 4
    case ExitMoved => 2 * k + 5
    case ExitWoke => 3
    case ExitBoth => 2
    case ExitZombie => 1
    case _ => 0
  }

  function Rank(s: State, h: nat): nat
    requires h < |s.procs|
  {
    WaitSteps(s, h) + Total(s.procs, OwnSteps)
  }

  /** While h holds wait_lock, no step of any process sets it back, and every step of a process that
      holds a lock brings the release nearer. */
  lemma RankFalls(s: State, h: nat, step: Step)
    requires Inv(s) && Enabled(s, step) && h < |s.procs| && HoldsWait(s.procs[h].pc)
    ensures var t := Next(s, step);
      h < |t.procs| && (HoldsWait(t.procs[h].pc) ==>
        Rank(t, h) <= Rank(s, h) - if HoldsSomething(s.procs[step.p].pc) && !step.Kill? then 1 else 0)
  {
    OwnFalls(s, h, step);
    WaitFalls(s, h, step);
  }

  /** What a step may add to the total of OwnSteps. */
  function OwnDue(s: State, h: nat, step: Step): nat {
    if step.p < |s.procs| && step.p != h && HoldsSomething(s.procs[step.p].pc) && !step.Kill? then 1 else 0
  }

  lemma OwnFalls(s: State, h: nat, step: Step)
    requires Inv(s) && Enabled(s, step) && h < |s.procs| && HoldsWait(s.procs[h].pc)
    ensures var t := Next(s, step);
      h < |t.procs| && (HoldsWait(t.procs[h].pc) ==>
        Total(t.procs, OwnSteps) <= Total(s.procs, OwnSteps) - OwnDue(s, h, step))
  {
    RankMoves(s, step, OwnSteps);
    if Alone(step) {
      OwnFallsAlone(s, h, step);
    } else {
      OwnFallsBoth(s, h, step);
    }
  }

  lemma OwnFallsAlone(s: State, h: nat, step: Step)
    requires Inv(s) && Enabled(s, step) && Alone(step) && h < |s.procs| && HoldsWait(s.procs[h].pc)
    ensures step.p != h || HoldsWait(Become(s.procs[h], step).pc) ==>
      OwnSteps(Become(s.procs[step.p], step)) <= OwnSteps(s.procs[step.p]) - OwnDue(s, h, step)
  {
    assert GoodPair(s, h, step.p) && GoodProc(s, step.p);
  }

  lemma OwnFallsBoth(s: State, h: nat, step: Step)
    requires Inv(s) && Enabled(s, step) && !Alone(step) && h < |s.procs| && HoldsWait(s.procs[h].pc)
    ensures var p, k, t := step.p, Other(s, step), Next(s, step);
      && |t.procs| == |s.procs| && k < |s.procs| && OwnDue(s, h, step) == 0
      && OwnSteps(t.procs[p]) <= OwnSteps(s.procs[p])
      && OwnSteps(t.procs[k]) <= OwnSteps(s.procs[k])
  {
    assert GoodPair(s, h, step.p) && GoodProc(s, step.p) && GoodProc(s, s.init);
  }

  lemma WaitFalls(s: State, h: nat, step: Step)
    requires Inv(s) && Enabled(s, step) && h < |s.procs| && HoldsWait(s.procs[h].pc)
    ensures var t := Next(s, step);
      h < |t.procs| && (HoldsWait(t.procs[h].pc) ==>
        WaitSteps(t, h) <= WaitSteps(s, h) - if step.p == h && !step.Kill? then 1 else 0)
  {
    RankMoves(s, step, ChildOf(h));
    if step.p == h {
      HolderFalls(s, h, step);
    } else {
      OthersWait(s, h, step);
    }
  }

  lemma HolderFalls(s: State, h: nat, step: Step)
    requires Inv(s) && Enabled(s, step) && h == step.p < |s.procs| && HoldsWait(s.procs[h].pc)
    requires Moved(s, step, ChildOf(h))
    ensures var t := Next(s, step);
      h < |t.procs| && (HoldsWait(t.procs[h].pc) ==> WaitSteps(t, h) <= WaitSteps(s, h) - if step.Kill? then 0 else 1)
  {
    assert GoodPair(s, h, h) && GoodProc(s, h) && GoodProc(s, s.init);
    if step.Adopt? {
      assert GoodPair(s, step.child, h) && GoodProc(s, step.child);
    }
  }

  lemma OthersWait(s: State, h: nat, step: Step)
    requires Inv(s) && Enabled(s, step) && h < |s.procs| && h != step.p && HoldsWait(s.procs[h].pc)
    requires Moved(s, step, ChildOf(h))
    ensures var t := Next(s, step); h < |t.procs| && WaitSteps(t, h) == WaitSteps(s, h)
  {
    Unchanged(s, step, h);
    if Alone(step) {
      AloneSteady(s, step);
    } else {
      OthersFork(s, h, step);
    }
  }

  /** With wait_lock taken, another process's step of two processes is one of fork, before or after it links
      the child. */
  lemma OthersFork(s: State, h: nat, step: Step)
    requires Inv(s) && Enabled(s, step) && !Alone(step) && h < |s.procs| && h != step.p && HoldsWait(s.procs[h].pc)
    ensures Other(s, step) != h && Other(s, step) < |s.procs| && Other(s, step) != step.p
    ensures var p, k, t := step.p, Other(s, step), Next(s, step);
      && |t.procs| == |s.procs| && ChildOf(h)(t.procs[p]) == ChildOf(h)(s.procs[p])
      && ChildOf(h)(t.procs[k]) == ChildOf(h)(s.procs[k])
  {
    var p := step.p;
    assert GoodPair(s, h, p) && GoodProc(s, h) && GoodProc(s, p);
    if step.Alloc? {
      assert GoodProc(s, step.child);
    } else if step.Abandon? || step.Start? {
      assert GoodPair(s, p, s.procs[p].pc.child);
    }
  }

  /** A step moves a total by what it changes in the two processes. */
  predicate Moved(s: State, step: Step, w: Proc -> nat)
    requires Enabled(s, step)
  {
    var p, k, t := step.p, Other(s, step), Next(s, step);
    && p < |s.procs| && k < |s.procs| && |t.procs| == |s.procs|
    && Total(t.procs, w) + w(s.procs[p]) + (if k == p then 0 else w(s.procs[k]))
       == Total(s.procs, w) + w(t.procs[p]) + (if k == p then 0 else w(t.procs[k]))
  }

  lemma RankMoves(s: State, step: Step, w: Proc -> nat)
    requires Inv(s) && Enabled(s, step)
    ensures Moved(s, step, w)
  {
    var p, k, t := step.p, Other(s, step), Next(s, step);
    assert GoodProc(s, p) && GoodProc(s, s.init) && GoodPair(s, p, p);
    var one := s.procs[p := t.procs[p]];
    TotalSet(s.procs, p, t.procs[p], w);
    if k != p {
      TotalSet(one, k, t.procs[k], w);
      assert t.procs == one[k := t.procs[k]];
    } else {
      assert t.procs == one;
    }
  }

  /** With wait_lock and no zombie to wait for, or all children given away, the holder's next step is free to
      go; else it needs the zombie's, init's or its parent's lock. */
  lemma WaiterMoves(s: State, h: nat) returns (step: Step)
    requires Inv(s) && h < |s.procs| && s.procs[h].pc.WaitLocked?
    ensures Moves(s, h, step)
  {
    assert GoodProc(s, h);
    if HasZombie(s, h) {
      var c: nat :| c < |s.procs| && ZombieChild(s, h, c);
      assert GoodPair(s, c, h);
      step := Unblock(s, h, c, Reap(h, c));
    } else if HasChild(s, h) {
      step := Doze(h);
    } else {
      step := GiveUp(h);
    }
  }

  lemma LeaverMoves(s: State, h: nat) returns (step: Step)
    requires Inv(s) && h < |s.procs| && s.procs[h].pc.ExitLocked?
    ensures Moves(s, h, step)
  {
    assert GoodProc(s, h);
    if HasChild(s, h) {
      var c :| 0 <= c < |s.procs| && s.procs[c].parent == Some(h);
      step := Adopt(h, c);
    } else {
      var k := s.procs[h].parent.value;
      assert GoodPair(s, h, k);
      step := Unblock(s, h, k, WakeParent(h));
    }
  }

  /** The step can be taken, by h or by a process with its own lock alone, and is neither a kill nor a failure. */
  ghost predicate Moves(s: State, h: nat, step: Step) {
    && Enabled(s, step) && !step.Kill? && !step.CopyFails? && step.p < |s.procs|
    && HoldsSomething(s.procs[step.p].pc) && (step.p == h || !HoldsWait(s.procs[step.p].pc))
  }

  /** wait_lock is never stuck: whenever some process holds it, that process can take its next step, or
      the process whose p->lock it needs can, needing no lock itself. */
  lemma HolderMoves(s: State, h: nat) returns (step: Step)
    requires Inv(s) && h < |s.procs| && HoldsWait(s.procs[h].pc)
    ensures Moves(s, h, step)
  {
    assert GoodProc(s, h);
    match s.procs[h].pc {
      case WaitLocked => step := WaiterMoves(s, h);
      case WaitBoth => step := DropWait(h);
      case ExitLocked => step := LeaverMoves(s, h);
      case ExitMoved => step := Unblock(s, h, s.init, WakeInit(h));
      case ExitWoke => step := TakeOwn(h);
      case ExitBoth => step := Bury(h);
      case ExitZombie => step := LeaveWait(h);
    }
  }

  predicate HoldsSomething(pc: Pc) {
    HoldsWait(pc) || HoldsOwn(pc)
  }

  /** A process that needs k's lock can go on, or k itself can, on its way to release it. */
  lemma Unblock(s: State, h: nat, k: nat, wanted: Step) returns (step: Step)
    requires Inv(s) && h < |s.procs| && k < |s.procs| && HoldsWait(s.procs[h].pc)
    requires wanted.p == h && !wanted.Kill? && !wanted.CopyFails?
    requires k != h && (OwnFree(s, k) ==> Enabled(s, wanted))
    ensures Moves(s, h, step)
  {
    assert GoodPair(s, h, k) && GoodProc(s, k);
    match s.procs[k].pc {
      case WaitOwn => step := Mark(k);
      case WaitMarked => step := SwitchOut(k);
      case ExitOwn => step := Gone(k);
      case _ => step := wanted;
    }
  }

  /** So the lock is released after at most Rank steps of processes that hold a lock; by RankFalls no
      step in between delays that. */
  lemma {:induction false} HolderReleases(s: State, h: nat) returns (steps: seq<Step>, t: State)
    requires Inv(s) && h < |s.procs| && HoldsWait(s.procs[h].pc)
    ensures Runs(s, steps, t) && h < |t.procs| && !HoldsWait(t.procs[h].pc) && |steps| <= Rank(s, h) + 1
    decreases Rank(s, h)
  {
    var step := HolderMoves(s, h);
    StepKeeps(s, step);
    RankFalls(s, h, step);
    var u := Next(s, step);
    if HoldsWait(u.procs[h].pc) {
      var rest;
      rest, t := HolderReleases(u, h);
      steps := [step] + rest;
      assert steps[1..] == rest;
    } else {
      steps, t := [step], u;
      assert Runs(u, [], u) && steps[1..] == [];
    }
  }

  // ---------- kill on a free slot ----------

  lemma {:induction false} FirstExists(s: State, pid: nat, c: nat) returns (p: nat)
    requires c < |s.procs| && s.procs[c].pid == pid
    ensures First(s, p, pid) && p <= c
    decreases c
  {
    if k: nat :| k < c && s.procs[k].pid == pid {
      p := FirstExists(s, pid, k);
    } else {
      p := c;
    }
  }

  /** In every reachable state, kill(pid) finds a free slot if and only if pid is 0 and some slot is free;
      any other pid that it finds belongs to one process. */
  lemma KillHitsFree(s: State, pid: nat)
    requires Inv(s)
    ensures (exists p: nat :: First(s, p, pid) && s.procs[p].state.Unused?)
       <==> pid == 0 && exists c: nat :: c < |s.procs| && s.procs[c].state.Unused?
    ensures forall p: nat, c: nat | First(s, p, pid) && pid != 0 && c < |s.procs| && s.procs[c].pid == pid :: c == p
  {
    if p: nat :| First(s, p, pid) && s.procs[p].state.Unused? {
      assert GoodProc(s, p);
    }
    if c: nat :| c < |s.procs| && s.procs[c].state.Unused? {
      assert GoodProc(s, c);
      if pid == 0 {
        var p := FirstExists(s, 0, c);
        assert GoodProc(s, p);
      }
    }
    forall p: nat, c: nat | First(s, p, pid) && pid != 0 && c < |s.procs| && s.procs[c].pid == pid ensures c == p {
      assert GoodProc(s, p) && GoodProc(s, c) && GoodPair(s, p, c);
    }
  }

  /** Step k of the run is a kill(0) that finds slot c. */
  predicate KillsSlot(steps: seq<Step>, k: nat, c: nat) {
    k < |steps| && steps[k] == Kill(c, 0)
  }

  predicate AllocsSlot(steps: seq<Step>, k: nat, c: nat) {
    k < |steps| && steps[k].Alloc? && steps[k].child == c
  }

  /** A free slot takes no step, and only Alloc uses it. */
  lemma SlotIdle(s: State, step: Step, c: nat)
    requires Inv(s) && Enabled(s, step) && c < |s.procs| && s.procs[c].state.Unused?
    ensures step.p == c ==> step == Kill(c, 0)
    ensures Other(s, step) == c && step.p != c ==> step == Alloc(step.p, c)
  {
    assert GoodProc(s, c) && GoodProc(s, step.p) && GoodProc(s, s.init);
    assert GoodPair(s, step.p, c);
  }

  lemma SlotStep(s: State, step: Step, c: nat)
    requires Inv(s) && Enabled(s, step) && c < |s.procs| && s.procs[c].state.Unused?
    requires !(step.Alloc? && step.child == c)
    ensures c < |Next(s, step).procs|
      && Next(s, step).procs[c] == s.procs[c].(killed := s.procs[c].killed || step == Kill(c, 0))
  {
    SlotIdle(s, step, c);
    Unchanged(s, step, c);
  }

  /** While a slot is free, a kill(0) that finds it marks it, and nothing else changes it. */
  lemma {:induction false} MarkedIff(s: State, steps: seq<Step>, t: State, c: nat)
    requires Inv(s) && Runs(s, steps, t) && c < |s.procs| && s.procs[c].state.Unused?
    requires forall k: nat :: !AllocsSlot(steps, k, c)
    ensures c < |t.procs| && t.procs[c].state.Unused?
    ensures t.procs[c].killed <==> s.procs[c].killed || exists k: nat :: KillsSlot(steps, k, c)
    decreases |steps|
  {
    if steps != [] {
      var step, rest := steps[0], steps[1..];
      assert !AllocsSlot(steps, 0, c);
      SlotStep(s, step, c);
      StepKeeps(s, step);
      forall k: nat ensures !AllocsSlot(rest, k, c) {
        assert !AllocsSlot(steps, k + 1, c);
      }
      MarkedIff(Next(s, step), rest, t, c);
      if k: nat :| KillsSlot(rest, k, c) {
        assert KillsSlot(steps, k + 1, c);
      }
      if k: nat :| KillsSlot(steps, k, c) {
        assert k == 0 || KillsSlot(rest, k - 1, c);
      }
      assert step == Kill(c, 0) ==> KillsSlot(steps, 0, c);
    }
  }

  /** The slot is as it is at boot and after every reap: free and not marked. */
  predicate Clean(s: State, c: nat) {
    c < |s.procs| && s.procs[c] == Free
  }

  /** A process is born killed if and only if a kill(0) found its slot since the slot last became free. */
  lemma BornKilledIff(n: nat, init: nat, before: seq<Step>, s: State, since: seq<Step>, t: State, p: nat, c: nat)
    requires init < n && Runs(Boot(n, init), before, s) && Clean(s, c)
    requires Runs(s, since, t) && forall k: nat :: !AllocsSlot(since, k, c)
    requires Enabled(t, Alloc(p, c))
    ensures Next(t, Alloc(p, c)).procs[c].killed <==> exists k: nat :: KillsSlot(since, k, c)
  {
    BootGood(n, init);
    RunKeeps(Boot(n, init), before, s);
    MarkedIff(s, since, t, c);
  }

  /** A step that frees a slot leaves it unmarked. */
  lemma FreedClean(s: State, step: Step, c: nat)
    requires Inv(s) && Enabled(s, step) && c < |s.procs| && !s.procs[c].state.Unused?
    ensures c < |Next(s, step).procs| && (Next(s, step).procs[c].state.Unused? ==> Clean(Next(s, step), c))
  {
    Unchanged(s, step, c);
    if Alone(step) {
      AloneSteady(s, step);
    } else {
      FreesBoth(s, step, c);
    }
  }

  /** Of the steps of two processes, a failed fork and a reap free a slot. */
  lemma FreesBoth(s: State, step: Step, c: nat)
    requires Inv(s) && Enabled(s, step) && !Alone(step) && c < |s.procs| && !s.procs[c].state.Unused?
    ensures c < |Next(s, step).procs| && (Next(s, step).procs[c].state.Unused? ==> Clean(Next(s, step), c))
  {
  }

  ghost predicate UnusedUnmarked(s: State) {
    forall i: nat | i < |s.procs| :: Unmarked(s, i)
  }

  predicate Unmarked(s: State, i: nat)
    requires i < |s.procs|
  {
    s.procs[i].state.Unused? ==> !s.procs[i].killed
  }

  predicate ZeroKill(steps: seq<Step>, k: nat) {
    k < |steps| && steps[k].Kill? && steps[k].pid == 0
  }

  lemma UnmarkedStep(s: State, step: Step)
    requires Inv(s) && UnusedUnmarked(s) && Enabled(s, step) && !(step.Kill? && step.pid == 0)
    ensures UnusedUnmarked(Next(s, step))
  {
    StepKeeps(s, step);
    forall i: nat | i < |s.procs| ensures Unmarked(Next(s, step), i) {
      assert Unmarked(s, i);
      if !s.procs[i].state.Unused? {
        FreedClean(s, step, i);
      } else if !(step.Alloc? && step.child == i) {
        SlotStep(s, step, i);
      }
    }
  }

  lemma {:induction false} UnmarkedRun(s: State, steps: seq<Step>, t: State)
    requires Inv(s) && UnusedUnmarked(s) && Runs(s, steps, t) && forall k: nat :: !ZeroKill(steps, k)
    ensures UnusedUnmarked(t)
    decreases |steps|
  {
    if steps != [] {
      assert !ZeroKill(steps, 0);
      StepKeeps(s, steps[0]);
      UnmarkedStep(s, steps[0]);
      forall k: nat ensures !ZeroKill(steps[1..], k) {
        assert !ZeroKill(steps, k + 1);
      }
      UnmarkedRun(Next(s, steps[0]), steps[1..], t);
    }
  }

  /** In a run without kill(0), no process is born killed. */
  lemma BornUnkilled(n: nat, init: nat, steps: seq<Step>, s: State, p: nat, c: nat)
    requires init < n && Runs(Boot(n, init), steps, s) && forall k: nat :: !ZeroKill(steps, k)
    requires Enabled(s, Alloc(p, c))
    ensures !Next(s, Alloc(p, c)).procs[c].killed
  {
    var boot := Boot(n, init);
    BootGood(n, init);
    assert forall i: nat | i < |boot.procs| :: Unmarked(boot, i);
    UnmarkedRun(boot, steps, s);
    assert Unmarked(s, c);
  }

  /** From boot, kill(0) and then fork: the child is born killed. */
  lemma BornKilled(n: nat, init: nat, c: nat) returns (steps: seq<Step>, t: State)
    requires init < n && 2 <= n && c == if init == 0 then 1 else 0
    ensures steps == [Dispatch(init), Kill(c, 0), Alloc(init, c)] && Runs(Boot(n, init), steps, t)
    ensures c < |t.procs| && t.procs[c].state.Used? && t.procs[c].killed
  {
    var s0 := Boot(n, init);
    var s1 := Next(s0, Dispatch(init));
    var s2 := Next(s1, Kill(c, 0));
    t := Next(s2, Alloc(init, c));
    steps := [Dispatch(init), Kill(c, 0), Alloc(init, c)];
    assert Runs(t, [], t) && Runs(s2, [Alloc(init, c)], t);
    assert steps[1..] == [Kill(c, 0), Alloc(init, c)] && steps[1..][1..] == [Alloc(init, c)];
    assert Runs(s1, steps[1..], t);
  }
}
