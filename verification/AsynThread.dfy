/**
 Ownership of the block shared by a resolver thread and its parent (asyn-thread.c).

 The two threads are a state machine: a step is one action of one thread, and a run is any
 interleaving of steps.  The state starts after Curl_thread_create has succeeded.
 */
module AsynThread {

  datatype Thread = Nobody | Worker | Parent

  /** Where the worker is in getaddrinfo_thread or gethostbyname_thread. */
  datatype WorkerAt = Resolving | Locking | Testing | Unlocking(late: bool) | Cleaning | Gone

  /** Where the parent is: between calls, polling, waiting, completing or destroying. */
  datatype ParentAt =
    | Idle
    | PollLock | PollRead | PollUnlock(seen: bool)
    | WaitJoin
    | Complete
    | DestroyLock | DestroyTest | DestroyUnlock(seen: bool) | Detach | DestroyJoin | DestroyFree

  /**
   The shared block (`done`, `res`, `hasHandle`), the mutex, `attached` (os_specific is not NULL)
   and the books: frees of the block, joins and detaches of the thread, and the fate of the
   address list.  `setter` remembers who set `done` first; `fault` records any access to the
   block after it was freed and `torn` a result read before the worker finished writing it.
   */
  datatype State = State(
    worker: WorkerAt, parent: ParentAt, mutex: Thread,
    done: bool, res: bool, hasHandle: bool, attached: bool,
    setter: Thread, frees: nat, joins: nat, detaches: nat,
    made: nat, handed: nat, released: nat, fault: bool, torn: bool)

  datatype Step =
    | WResolve(found: bool) | WLock | WTest | WUnlock | WClean
    | CallIsResolved | CallWait | CallCancel
    | PLock | PRead | PTest | PUnlock | PComplete(cached: bool) | PDetach | PJoin | PFree

  const START := State(Resolving, Idle, Nobody, false, false, true, true, Nobody, 0, 0, 0, 0, 0, 0, false, false)

  predicate Enabled(s: State, x: Step) {
    match x
    case WResolve(_) => s.worker == Resolving
    case WLock => s.worker == Locking && s.mutex == Nobody
    case WTest => s.worker == Testing
    case WUnlock => s.worker.Unlocking?
    case WClean => s.worker == Cleaning
    case CallIsResolved => s.parent == Idle
    case CallWait => s.parent == Idle && s.attached
    case CallCancel => s.parent == Idle
    case PLock => s.parent in {PollLock, DestroyLock} && s.mutex == Nobody
    case PRead => s.parent == PollRead
    case PTest => s.parent == DestroyTest
    case PUnlock => s.parent.PollUnlock? || s.parent.DestroyUnlock?
    case PComplete(_) => s.parent == Complete
    case PDetach => s.parent == Detach
    case PJoin => s.parent in {WaitJoin, DestroyJoin} && s.worker == Gone
    case PFree => s.parent == DestroyFree
  }

  /** An access to the shared block. */
  function Touch(s: State): State {
    s.(fault := s.fault || s.frees > 0)
  }

  /** destroy_thread_sync_data and free(td). */
  function FreeBlock(s: State): State {
    s.(frees := s.frees + 1, released := if s.res then s.released + 1 else s.released, res := false)
  }

  function Next(s: State, x: Step): State {
    match x
    // the worker
    case WResolve(found) => Touch(s).(worker := Locking, res := found, made := if found then s.made + 1 else s.made)
    case WLock => Touch(s).(worker := Testing, mutex := Worker)
    case WTest =>
      if s.done then Touch(s).(worker := Unlocking(true))
      else Touch(s).(worker := Unlocking(false), done := true, setter := Worker)
    case WUnlock => Touch(s).(worker := if s.worker == Unlocking(true) then Cleaning else Gone, mutex := Nobody)
    case WClean => FreeBlock(Touch(s)).(worker := Gone)
    // the parent's calls
    case CallIsResolved => if s.attached then s.(parent := PollLock) else s
    case CallWait => s.(parent := WaitJoin)
    case CallCancel => if s.attached then s.(parent := DestroyLock) else s
    // the parent
    case PLock => Touch(s).(parent := if s.parent == PollLock then PollRead else DestroyTest, mutex := Parent)
    case PRead => Touch(s).(parent := PollUnlock(s.done))
    case PTest =>
      Touch(s).(parent := DestroyUnlock(s.done), done := true, setter := if s.done then s.setter else Parent)
    case PUnlock =>
      Touch(s).(mutex := Nobody, parent :=
        match s.parent
        case PollUnlock(seen) => if seen then Complete else Idle
        case DestroyUnlock(seen) => if !seen then Detach else if s.hasHandle then DestroyJoin else DestroyFree
        case _ => s.parent)
    case PComplete(cached) =>
      var t := Touch(s).(parent := DestroyLock, torn := s.torn || s.worker == Resolving, res := false);
      if !s.res then t else if cached then t.(handed := s.handed + 1) else t.(released := s.released + 1)
    case PDetach => s.(parent := Idle, detaches := s.detaches + 1, attached := false)
    case PJoin =>
      var parent := if s.parent == WaitJoin then Complete else DestroyFree;
      Touch(s).(parent := parent, joins := s.joins + 1, hasHandle := false)
    case PFree => FreeBlock(Touch(s)).(parent := Idle, attached := false)
  }

  /** `steps` leads from `s` to `t`. */
  ghost predicate Run(s: State, steps: seq<Step>, t: State)
    decreases |steps|
  {
    if steps == [] then s == t
    else Enabled(s, steps[0]) && Run(Next(s, steps[0]), steps[1..], t)
  }

  // ---------------------------------------------------------------- the invariant

  /** Mutual exclusion: the mutex is held exactly in the critical sections. */
  ghost predicate Exclusion(s: State) {
    && (s.mutex == Worker <==> s.worker == Testing || s.worker.Unlocking?)
    && (s.mutex == Parent <==> s.parent in {PollRead, DestroyTest} || s.parent.PollUnlock? || s.parent.DestroyUnlock?)
  }

  /** Who sets `done` first leaves the block to the other. */
  ghost predicate Ownership(s: State) {
    && s.done == (s.setter != Nobody)
    && (s.setter == Worker ==> s.worker in {Unlocking(false), Gone})
    && (s.worker in {Unlocking(true), Cleaning} ==> s.setter == Parent)
    && (s.worker == Unlocking(false) ==> s.setter == Worker)
    && (s.worker == Gone ==> s.setter != Nobody)
    && (s.setter == Parent <==> s.parent in {DestroyUnlock(false), Detach} || (!s.attached && s.detaches == 1))
    && (s.parent in {PollUnlock(true), Complete, DestroyUnlock(true), DestroyJoin, DestroyFree} ==> s.setter == Worker)
    && (s.parent == DestroyUnlock(false) ==> s.worker in {Resolving, Locking})
    && (s.parent != Idle ==> s.attached)
    && (s.parent in {WaitJoin, DestroyJoin} ==> s.hasHandle)
    && (s.parent == DestroyFree ==> s.joins == 1)
    && (!s.hasHandle <==> s.joins == 1)
    && s.joins + s.detaches <= 1
    && (s.joins == 1 ==> s.worker == Gone && s.setter == Worker)
    && (s.joins == 1 && s.attached ==>
          s.parent in {Complete, DestroyLock, DestroyTest, DestroyUnlock(true), DestroyFree})
    && (!s.attached ==> s.joins + s.detaches == 1)
    && (s.detaches == 1 ==> !s.attached)
  }

  /** The block is freed exactly when its owner has finished with it. */
  ghost predicate Books(s: State) {
    && s.frees == (if (s.setter == Parent && s.worker == Gone) || (s.setter == Worker && !s.attached) then 1 else 0)
    && s.made == s.handed + s.released + (if s.res then 1 else 0)
    && s.made <= 1
    && (s.worker == Resolving ==> s.made == 0)
    && (s.frees == 1 ==> !s.res)
    && (s.handed > 0 ==> s.setter == Worker)
    && !s.fault && !s.torn
  }

  ghost predicate Inv(s: State) {
    Exclusion(s) && Ownership(s) && Books(s)
  }

  predicate ByWorker(x: Step) {
    x.WResolve? || x.WLock? || x.WTest? || x.WUnlock? || x.WClean?
  }

  predicate IsCall(x: Step) {
    x.CallIsResolved? || x.CallWait? || x.CallCancel?
  }

  /** The parent enters, uses or leaves a critical section. */
  predicate InSection(x: Step) {
    x.PLock? || x.PRead? || x.PTest? || x.PUnlock?
  }

  lemma WorkerKeeps(s: State, x: Step)
    requires Inv(s) && Enabled(s, x) && ByWorker(x)
    ensures Inv(Next(s, x))
  {
  }

  lemma CallKeeps(s: State, x: Step)
    requires Inv(s) && Enabled(s, x) && IsCall(x)
    ensures Inv(Next(s, x))
  {
  }

  lemma SectionKeeps(s: State, x: Step)
    requires Inv(s) && Enabled(s, x) && InSection(x)
    ensures Inv(Next(s, x))
  {
  }

  lemma ReleaseKeeps(s: State, x: Step)
    requires Inv(s) && Enabled(s, x) && !ByWorker(x) && !IsCall(x) && !InSection(x)
    ensures Inv(Next(s, x))
  {
  }

  lemma ParentKeeps(s: State, x: Step)
    requires Inv(s) && Enabled(s, x) && !ByWorker(x)
    ensures Inv(Next(s, x))
  {
    if IsCall(x) {
      CallKeeps(s, x);
    } else if InSection(x) {
      SectionKeeps(s, x);
    } else {
      ReleaseKeeps(s, x);
    }
  }

  lemma StepKeeps(s: State, x: Step)
    requires Inv(s) && Enabled(s, x)
    ensures Inv(Next(s, x))
  {
    if ByWorker(x) {
      WorkerKeeps(s, x);
    } else {
      ParentKeeps(s, x);
    }
  }

  lemma {:induction false} RunKeeps(s: State, steps: seq<Step>, t: State)
    requires Inv(s) && Run(s, steps, t)
    ensures Inv(t)
    decreases |steps|
  {
    if steps != [] {
      StepKeeps(s, steps[0]);
      RunKeeps(Next(s, steps[0]), steps[1..], t);
    }
  }

  // ---------------------------------------------------------------- whole runs

  /** Both threads have let go. */
  predicate Finished(s: State) {
    s.worker == Gone && s.parent == Idle && !s.attached
  }

  /** At every moment of every interleaving: no access after free, no early read, nothing done twice, no list lost. */
  lemma NothingTwice(steps: seq<Step>, t: State)
    requires Run(START, steps, t)
    ensures !t.fault && !t.torn
    ensures t.frees <= 1 && t.joins + t.detaches <= 1
    ensures t.handed + t.released + (if t.res then 1 else 0) == t.made <= 1
    ensures t.frees == 1 && t.attached ==> t.parent == Detach
  {
    RunKeeps(START, steps, t);
  }

  /** When both threads have let go, everything has happened exactly once. */
  lemma EverythingOnce(steps: seq<Step>, t: State)
    requires Run(START, steps, t) && Finished(t)
    ensures t.frees == 1 && t.joins + t.detaches == 1
    ensures t.handed + t.released == t.made
    ensures t.setter == Worker <==> t.joins == 1
    ensures t.handed == 1 ==> t.joins == 1
  {
    RunKeeps(START, steps, t);
    assert Inv(t);
  }

  // ---------------------------------------------------------------- progress

  function Calls(steps: seq<Step>): nat {
    if steps == [] then 0 else (if IsCall(steps[0]) then 1 else 0) + Calls(steps[1..])
  }

  /** Actions left before the worker exits. */
  function WorkLeft(w: WorkerAt): nat {
    match w
    case Resolving => 5
    case Locking => 4
    case Testing => 3
    case Unlocking(_) => 2
    case Cleaning => 1
    case Gone => 0
  }

  /** Actions left before the parent's call returns. */
  function CallLeft(p: ParentAt): nat {
    match p
    case Idle => 0
    case PollLock => 9
    case PollRead => 8
    case PollUnlock(_) => 7
    case WaitJoin => 7
    case Complete => 6
    case DestroyLock => 5
    case DestroyTest => 4
    case DestroyUnlock(_) => 3
    case Detach => 1
    case DestroyJoin => 2
    case DestroyFree => 1
  }

  function Pending(s: State): nat {
    WorkLeft(s.worker) + CallLeft(s.parent)
  }

  /** An action that is possible now, while a call is under way or the worker lives. */
  function Possible(s: State): Step {
    if s.worker == Resolving then WResolve(false)
    else if s.worker == Testing then WTest
    else if s.worker.Unlocking? then WUnlock
    else if s.worker == Cleaning then WClean
    else if s.worker == Locking && s.mutex == Nobody then WLock
    else
      match s.parent
      case PollLock => PLock
      case PollRead => PRead
      case PollUnlock(_) => PUnlock
      case WaitJoin => PJoin
      case Complete => PComplete(true)
      case DestroyLock => PLock
      case DestroyTest => PTest
      case DestroyUnlock(_) => PUnlock
      case Detach => PDetach
      case DestroyJoin => PJoin
      case DestroyFree => PFree
      case Idle => WLock
  }

  /** No deadlock: until the worker is gone and the call has returned, an action is possible. */
  lemma NeverStuck(steps: seq<Step>, t: State)
    requires Run(START, steps, t)
    ensures t.worker != Gone || t.parent != Idle ==> Enabled(t, Possible(t)) && !IsCall(Possible(t))
  {
    RunKeeps(START, steps, t);
    if t.worker != Gone || t.parent != Idle {
      StuckNowhere(t);
    }
  }

  lemma StuckNowhere(s: State)
    requires Inv(s) && (s.worker != Gone || s.parent != Idle)
    ensures Enabled(s, Possible(s)) && !IsCall(Possible(s))
  {
  }

  lemma WorkerProgress(s: State, x: Step)
    requires Enabled(s, x) && ByWorker(x)
    ensures Next(s, x).parent == s.parent && WorkLeft(Next(s, x).worker) < WorkLeft(s.worker)
  {
  }

  lemma SectionProgress(s: State, x: Step)
    requires Enabled(s, x) && InSection(x)
    ensures Next(s, x).worker == s.worker && CallLeft(Next(s, x).parent) < CallLeft(s.parent)
  {
  }

  lemma ReleaseProgress(s: State, x: Step)
    requires Enabled(s, x) && !ByWorker(x) && !IsCall(x) && !InSection(x)
    ensures Next(s, x).worker == s.worker && CallLeft(Next(s, x).parent) < CallLeft(s.parent)
  {
  }

  lemma StepIsProgress(s: State, x: Step)
    requires Enabled(s, x)
    ensures if IsCall(x) then Pending(Next(s, x)) <= Pending(s) + 9 else Pending(Next(s, x)) < Pending(s)
  {
    if ByWorker(x) {
      WorkerProgress(s, x);
    } else if InSection(x) {
      SectionProgress(s, x);
    } else if !IsCall(x) {
      ReleaseProgress(s, x);
    }
  }

  /** Every call returns: a run takes at most ten steps a call and five for the worker. */
  lemma {:induction false} CallsReturn(s: State, steps: seq<Step>, t: State)
    requires Run(s, steps, t)
    ensures Pending(t) + |steps| <= Pending(s) + 10 * Calls(steps)
    decreases |steps|
  {
    if steps != [] {
      StepIsProgress(s, steps[0]);
      CallsReturn(Next(s, steps[0]), steps[1..], t);
    }
  }

  predicate Destroying(s: State) {
    !s.attached || s.parent in {DestroyLock, DestroyTest, Detach, DestroyJoin, DestroyFree} || s.parent.DestroyUnlock?
  }

  lemma DestroyGoesOn(s: State, x: Step)
    requires Inv(s) && Enabled(s, x) && Destroying(s)
    ensures Destroying(Next(s, x))
  {
  }

  /** A cancel, once begun, lets go of the block: when nothing more can happen, both threads have finished. */
  lemma {:induction false} CancelFinishes(s: State, steps: seq<Step>, t: State)
    requires Inv(s) && Run(s, steps, t) && Destroying(s)
    requires t.worker == Gone && t.parent == Idle
    ensures Finished(t)
    decreases |steps|
  {
    if steps != [] {
      StepKeeps(s, steps[0]);
      DestroyGoesOn(s, steps[0]);
      CancelFinishes(Next(s, steps[0]), steps[1..], t);
    }
  }

  // ---------------------------------------------------------------- what a call achieves

  /** Until a call completes or destroys the resolve, no address list has left the block. */
  predicate Unsettled(s: State) {
    s.attached && BeforeDestroy(s.parent) ==> s.handed == 0 && s.released == 0
  }

  predicate BeforeDestroy(p: ParentAt) {
    p.Idle? || p.PollLock? || p.PollRead? || p.PollUnlock? || p.WaitJoin? || p.Complete?
  }

  lemma WorkerKeepsUnsettled(s: State, x: Step)
    requires Inv(s) && Unsettled(s) && Enabled(s, x) && ByWorker(x)
    ensures Unsettled(Next(s, x))
  {
  }

  lemma SectionKeepsUnsettled(s: State, x: Step)
    requires Inv(s) && Unsettled(s) && Enabled(s, x) && InSection(x)
    ensures Unsettled(Next(s, x))
  {
  }

  lemma StepKeepsUnsettled(s: State, x: Step)
    requires Inv(s) && Unsettled(s) && Enabled(s, x)
    ensures Unsettled(Next(s, x))
  {
    if ByWorker(x) {
      WorkerKeepsUnsettled(s, x);
    } else if InSection(x) {
      SectionKeepsUnsettled(s, x);
    }
  }

  lemma {:induction false} RunKeepsUnsettled(s: State, steps: seq<Step>, t: State)
    requires Inv(s) && Unsettled(s) && Run(s, steps, t)
    ensures Inv(t) && Unsettled(t)
    decreases |steps|
  {
    if steps != [] {
      StepKeeps(s, steps[0]);
      StepKeepsUnsettled(s, steps[0]);
      RunKeepsUnsettled(Next(s, steps[0]), steps[1..], t);
    }
  }

  /** No further call is made. */
  ghost predicate Alone(steps: seq<Step>) {
    forall x | x in steps :: !IsCall(x)
  }

  lemma AloneTail(steps: seq<Step>)
    requires Alone(steps) && steps != []
    ensures !IsCall(steps[0]) && Alone(steps[1..])
  {
  }

  /** A poll reads `done` while it is set. */
  predicate Notices(s: State, steps: seq<Step>)
    decreases |steps|
  {
    steps != [] && ((steps[0] == PRead && s.done) || Notices(Next(s, steps[0]), steps[1..]))
  }

  /** The list that was made, if any, went to the DNS cache, or else was released. */
  predicate Settled(s: State, cached: bool) {
    if cached then s.handed == s.made && s.released == 0 else s.handed == 0 && s.released == s.made
  }

  /** The result has been taken, and the block is being given up. */
  predicate Taken(s: State) {
    && s.setter == Worker && s.worker == Gone && !s.res
    && (s.parent in {DestroyLock, DestroyTest, DestroyUnlock(true), DestroyJoin, DestroyFree}
        || (s.parent == Idle && !s.attached))
  }

  lemma TakenGoesOn(s: State, x: Step)
    requires Inv(s) && Taken(s) && Enabled(s, x) && !IsCall(x)
    ensures var n := Next(s, x);
            Taken(n) && n.made == s.made && n.handed == s.handed && n.released == s.released && !x.PComplete?
  {
  }

  lemma {:induction false} TakenEnds(s: State, steps: seq<Step>, t: State)
    requires Inv(s) && Taken(s) && Run(s, steps, t) && Alone(steps) && t.parent == Idle
    ensures Finished(t) && t.joins == 1 && PComplete(true) !in steps
    ensures t.made == s.made && t.handed == s.handed && t.released == s.released
    decreases |steps|
  {
    if steps != [] {
      AloneTail(steps);
      StepKeeps(s, steps[0]);
      TakenGoesOn(s, steps[0]);
      TakenEnds(Next(s, steps[0]), steps[1..], t);
    }
  }

  /** The parent waits for the worker, or knows that it is done. */
  predicate Concluding(s: State) {
    s.parent in {PollUnlock(true), WaitJoin, Complete} && (s.parent != WaitJoin ==> s.worker == Gone)
  }

  lemma ConcludingGoesOn(s: State, x: Step)
    requires Inv(s) && Unsettled(s) && Concluding(s) && Enabled(s, x) && !IsCall(x)
    ensures x.PComplete? ==> Taken(Next(s, x)) && Settled(Next(s, x), x.cached)
    ensures !x.PComplete? ==> Concluding(Next(s, x))
  {
  }

  lemma {:induction false} ConcludingEnds(s: State, steps: seq<Step>, t: State)
    requires Inv(s) && Unsettled(s) && Concluding(s) && Run(s, steps, t) && Alone(steps) && t.parent == Idle
    ensures Finished(t) && t.joins == 1 && Settled(t, PComplete(true) in steps)
    decreases |steps|
  {
    if steps != [] {
      var n := Next(s, steps[0]);
      AloneTail(steps);
      StepKeeps(s, steps[0]);
      StepKeepsUnsettled(s, steps[0]);
      ConcludingGoesOn(s, steps[0]);
      assert PComplete(true) in steps <==> steps[0] == PComplete(true) || PComplete(true) in steps[1..];
      if steps[0].PComplete? {
        TakenEnds(n, steps[1..], t);
      } else {
        ConcludingEnds(n, steps[1..], t);
      }
    }
  }

  /** A poll that has not noticed anything so far. */
  predicate Polling(s: State) {
    s.attached && s.parent in {PollLock, PollRead, PollUnlock(false), Idle}
  }

  lemma PollingGoesOn(s: State, x: Step)
    requires Inv(s) && Polling(s) && Enabled(s, x) && !IsCall(x)
    ensures x == PRead && s.done ==> Concluding(Next(s, x))
    ensures !(x == PRead && s.done) ==> Polling(Next(s, x))
  {
  }

  /** Nothing has been freed, joined, detached, handed over or released. */
  predicate Untouched(s: State) {
    s.frees == 0 && s.joins == 0 && s.detaches == 0 && s.handed == 0 && s.released == 0
  }

  lemma {:induction false} PollingEnds(s: State, steps: seq<Step>, t: State)
    requires Inv(s) && Unsettled(s) && Polling(s) && Run(s, steps, t) && Alone(steps) && t.parent == Idle
    ensures if Notices(s, steps) then Finished(t) && t.joins == 1 && Settled(t, PComplete(true) in steps)
            else t.attached && Untouched(t)
    decreases |steps|
  {
    if steps != [] {
      var n := Next(s, steps[0]);
      AloneTail(steps);
      StepKeeps(s, steps[0]);
      StepKeepsUnsettled(s, steps[0]);
      PollingGoesOn(s, steps[0]);
      assert PComplete(true) in steps <==> steps[0] == PComplete(true) || PComplete(true) in steps[1..];
      if steps[0] == PRead && s.done {
        ConcludingEnds(n, steps[1..], t);
      } else {
        PollingEnds(n, steps[1..], t);
      }
    }
  }

  /** Once the worker is gone, a poll that comes to its end has noticed. */
  lemma {:induction false} GoneIsNoticed(s: State, steps: seq<Step>, t: State)
    requires Inv(s) && s.attached && s.worker == Gone && s.parent in {PollLock, PollRead}
    requires Run(s, steps, t) && Alone(steps) && t.parent == Idle
    ensures Notices(s, steps)
    decreases |steps|
  {
    if steps != [] && s.parent == PollLock {
      AloneTail(steps);
      StepKeeps(s, steps[0]);
      GoneIsNoticed(Next(s, steps[0]), steps[1..], t);
    }
  }

  /** In some run from the start, `s` is reached, with no call under way and the resolve not given up. */
  ghost predicate BetweenCalls(before: seq<Step>, s: State) {
    Run(START, before, s) && s.parent == Idle && s.attached
  }

  /**
   Curl_resolver_is_resolved: a poll that reads `done` set finishes the resolve, the others leave it as it was;
   once the worker is gone, every poll reads `done` set.
   */
  lemma PollExactly(before: seq<Step>, s: State, steps: seq<Step>, t: State)
    requires BetweenCalls(before, s) && Run(s, [CallIsResolved] + steps, t) && Alone(steps) && t.parent == Idle
    ensures if Notices(s, [CallIsResolved] + steps) then
              Finished(t) && t.joins == 1 && Settled(t, PComplete(true) in steps)
            else
              t.attached && Untouched(t)
    ensures s.worker == Gone ==> Notices(s, [CallIsResolved] + steps)
  {
    RunKeepsUnsettled(START, before, s);
    assert ([CallIsResolved] + steps)[1..] == steps;
    StepKeeps(s, CallIsResolved);
    PollingEnds(Next(s, CallIsResolved), steps, t);
    if s.worker == Gone {
      GoneIsNoticed(Next(s, CallIsResolved), steps, t);
    }
  }

  /** Curl_resolver_wait_resolv: the resolve is finished when the call returns. */
  lemma WaitFinishes(before: seq<Step>, s: State, steps: seq<Step>, t: State)
    requires BetweenCalls(before, s) && Run(s, [CallWait] + steps, t) && Alone(steps) && t.parent == Idle
    ensures Finished(t) && t.joins == 1 && Settled(t, PComplete(true) in steps)
  {
    RunKeepsUnsettled(START, before, s);
    assert ([CallWait] + steps)[1..] == steps;
    StepKeeps(s, CallWait);
    ConcludingEnds(Next(s, CallWait), steps, t);
  }

  /** The resolve is being given up, and nothing has been handed over. */
  predicate Cancelling(s: State) {
    s.handed == 0 && Destroying(s)
  }

  lemma CancellingGoesOn(s: State, x: Step)
    requires Inv(s) && Cancelling(s) && Enabled(s, x) && !IsCall(x)
    ensures Cancelling(Next(s, x))
  {
  }

  lemma {:induction false} CancellingEnds(s: State, steps: seq<Step>, t: State)
    requires Inv(s) && Cancelling(s) && Run(s, steps, t) && Alone(steps)
    ensures Inv(t) && Cancelling(t)
    decreases |steps|
  {
    if steps != [] {
      AloneTail(steps);
      StepKeeps(s, steps[0]);
      CancellingGoesOn(s, steps[0]);
      CancellingEnds(Next(s, steps[0]), steps[1..], t);
    }
  }

  /** Curl_resolver_cancel: the resolve is given up when the call returns. */
  lemma CancelGivesUp(before: seq<Step>, s: State, steps: seq<Step>, t: State)
    requires BetweenCalls(before, s) && Run(s, [CallCancel] + steps, t) && Alone(steps) && t.parent == Idle
    ensures !t.attached && t.joins + t.detaches == 1 && t.handed == 0
    ensures t.worker == Gone ==> Finished(t) && t.frees == 1 && t.released == t.made
  {
    RunKeepsUnsettled(START, before, s);
    assert ([CallCancel] + steps)[1..] == steps;
    StepKeeps(s, CallCancel);
    CancellingEnds(Next(s, CallCancel), steps, t);
  }
}
