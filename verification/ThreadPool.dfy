/** The worker threads of `ctpl::thread_pool`, as a system of interleaved steps: workers,
    any number of `push` calls in flight, `resize` to more threads and `stop(true)`.
    Tasks are numbered in the order in which they enter the queue. */
module ThreadPool {

  /** Where a worker thread stands in its loop. */
  datatype Worker =
    | Fresh             // about to pop for the first time, without the pool's mutex
    | Running(task: nat)
    | Popping           // has run a task, about to pop again, without the mutex
    | Locking           // found the queue empty, about to lock the mutex
    | Testing           // holds the mutex, about to pop in the wait predicate
    | Deciding          // holds the mutex, its pop failed, about to read isDone
    | Yielding          // holds the mutex, read isDone as false, about to block
    | Waiting           // blocked on the condition variable
    | Woken             // no longer blocked, about to lock the mutex again
    | Exited

  /** A `push` call: its task is in the queue, the notification is still to come or done. */
  datatype Push = Notifying | Returned

  /** `stop(true)`: not called, isDone set, notify_all done, all threads joined. */
  datatype Stop = NotCalled | Announced | Joining | Joined

  datatype State = State(
    workers: seq<Worker>,
    queue: seq<nat>,
    pushes: seq<Push>,   // one entry per task
    stop: Stop,
    promised: set<nat>,  // once stop is called: the tasks whose push had returned by then
    ran: seq<nat>,
    dropped: seq<nat>)   // what `stop` still found in the queue after joining

  predicate HoldsMutex(w: Worker) { w.Testing? || w.Deciding? || w.Yielding? }

  predicate MutexFree(s: State) { forall i | 0 <= i < |s.workers| :: !HoldsMutex(s.workers[i]) }

  /** The worker will look at the queue again before it blocks or exits. */
  predicate Attentive(w: Worker) {
    w.Fresh? || w.Running? || w.Popping? || w.Locking? || w.Testing? || w.Woken?
  }

  predicate SomeoneAttentive(s: State) { exists i :: 0 <= i < |s.workers| && Attentive(s.workers[i]) }

  predicate SomeoneWaits(s: State) { exists i :: 0 <= i < |s.workers| && s.workers[i].Waiting? }

  predicate AllExited(s: State) { forall i | 0 <= i < |s.workers| :: s.workers[i].Exited? }

  /** Tasks whose `push` returned before `stop` set isDone, if it has. */
  ghost predicate Promised(s: State, t: nat) {
    t < |s.pushes| && if s.stop.NotCalled? then s.pushes[t].Returned? else t in s.promised
  }

  function Init(n: nat): State {
    State(seq(n, _ => Fresh), [], [], NotCalled, {}, [], [])
  }

  // ---------------------------------------------------------------- steps

  datatype Step =
    | Advance(i: nat)              // one step of worker i
    | Enqueue                      // first half of push
    | Notify(p: nat, woken: nat)   // second half of push p; wakes that worker if it waits
    | Grow                         // resize to one more thread
    | Spurious(i: nat)             // spurious wake-up of worker i
    | Announce                     // stop(true) sets isDone
    | NotifyAll
    | Join                         // all threads have ended; what is left is thrown away

  predicate Enabled(s: State, step: Step) {
    match step
    case Advance(i) =>
      i < |s.workers| && !s.workers[i].Waiting? && !s.workers[i].Exited? &&
      (s.workers[i].Locking? || s.workers[i].Woken? ==> MutexFree(s))
    case Enqueue => true
    case Notify(p, woken) =>
      p < |s.pushes| && s.pushes[p].Notifying? && MutexFree(s) &&
      (SomeoneWaits(s) ==> woken < |s.workers| && s.workers[woken].Waiting?)
    case Grow => s.stop.NotCalled?
    case Spurious(i) => i < |s.workers| && s.workers[i].Waiting?
    case Announce => s.stop.NotCalled?
    case NotifyAll => s.stop.Announced? && MutexFree(s)
    case Join => s.stop.Joining? && AllExited(s)
  }

  function Place(s: State, i: nat, w: Worker): State
    requires i < |s.workers|
  {
    s.(workers := s.workers[i := w])
  }

  /** A pop by worker i, which goes on as `empty` when there is nothing to pop. */
  function Pop(s: State, i: nat, empty: Worker): State
    requires i < |s.workers|
  {
    if s.queue == [] then Place(s, i, empty)
    else Place(s.(queue := s.queue[1..]), i, Running(s.queue[0]))
  }

  function Wake(w: Worker): Worker { if w.Waiting? then Woken else w }

  function WakeAll(ws: seq<Worker>): seq<Worker> {
    seq(|ws|, i requires 0 <= i < |ws| => Wake(ws[i]))
  }

  function ReturnedSet(pushes: seq<Push>): set<nat> {
    set t | 0 <= t < |pushes| && pushes[t].Returned?
  }

  function Next(s: State, step: Step): State
    requires Enabled(s, step)
  {
    match step
    case Advance(i) =>
      (match s.workers[i]
       case Fresh => Pop(s, i, Locking)
       case Running(t) => Place(s.(ran := s.ran + [t]), i, Popping)
       case Popping => Pop(s, i, Locking)
       case Locking => Place(s, i, Testing)
       case Testing => Pop(s, i, Deciding)
       case Deciding => Place(s, i, if s.stop.NotCalled? then Yielding else Exited)
       case Yielding => Place(s, i, Waiting)
       case Woken => Place(s, i, Testing)
       case _ => s)
    case Enqueue => s.(queue := s.queue + [|s.pushes|], pushes := s.pushes + [Notifying])
    case Notify(p, woken) =>
      var s' := s.(pushes := s.pushes[p := Returned]);
      if woken < |s.workers| then Place(s', woken, Wake(s.workers[woken])) else s'
    case Grow => s.(workers := s.workers + [Fresh])
    case Spurious(i) => Place(s, i, Woken)
    case Announce => s.(stop := Announced, promised := ReturnedSet(s.pushes))
    case NotifyAll => s.(stop := Joining, workers := WakeAll(s.workers))
    case Join => s.(stop := Joined, queue := [], dropped := s.queue)
  }

  // ---------------------------------------------------------------- conservation

  function Held(w: Worker, t: nat): nat { if w == Running(t) then 1 else 0 }

  /** How many workers have task `t` in hand. */
  function InHand(ws: seq<Worker>, t: nat): nat {
    if ws == [] then 0 else Held(ws[0], t) + InHand(ws[1..], t)
  }

  lemma {:induction false} InHandPlace(ws: seq<Worker>, i: nat, w: Worker, t: nat)
    requires i < |ws|
    ensures InHand(ws[i := w], t) + Held(ws[i], t) == InHand(ws, t) + Held(w, t)
  {
    var ws' := ws[i := w];
    if i == 0 {
      assert ws'[1..] == ws[1..];
    } else {
      InHandPlace(ws[1..], i - 1, w, t);
      assert ws'[1..] == ws[1..][i - 1 := w];
    }
  }

  lemma {:induction false} InHandAppend(ws: seq<Worker>, t: nat)
    ensures InHand(ws + [Fresh], t) == InHand(ws, t)
  {
    if ws != [] {
      InHandAppend(ws[1..], t);
      assert (ws + [Fresh])[1..] == ws[1..] + [Fresh];
    }
  }

  lemma {:induction false} InHandWakeAll(ws: seq<Worker>, t: nat)
    ensures InHand(WakeAll(ws), t) == InHand(ws, t)
  {
    if ws != [] {
      InHandWakeAll(ws[1..], t);
      assert WakeAll(ws)[1..] == WakeAll(ws[1..]);
    }
  }

  lemma {:induction false} NothingInHand(ws: seq<Worker>, t: nat)
    requires forall i | 0 <= i < |ws| :: !ws[i].Running?
    ensures InHand(ws, t) == 0
  {
    if ws != [] { NothingInHand(ws[1..], t); }
  }

  /** How often task `t` is anywhere: queued, being run, run, thrown away. */
  function Tally(s: State, t: nat): nat {
    multiset(s.queue)[t] + InHand(s.workers, t) + multiset(s.ran)[t] + multiset(s.dropped)[t]
  }

  ghost predicate Conserved(s: State) {
    forall t: nat :: Tally(s, t) == if t < |s.pushes| then 1 else 0
  }

  // ---------------------------------------------------------------- the invariant

  predicate OneHolder(s: State) {
    forall i, j | 0 <= i < j < |s.workers| :: !(HoldsMutex(s.workers[i]) && HoldsMutex(s.workers[j]))
  }

  predicate StopInOrder(s: State) {
    && (s.stop.NotCalled? ==> forall i | 0 <= i < |s.workers| :: !s.workers[i].Exited?)
    && (s.stop.Joining? || s.stop.Joined? ==>
          forall i | 0 <= i < |s.workers| :: !s.workers[i].Waiting? && !s.workers[i].Yielding?)
    && (s.stop.Joined? ==> AllExited(s))
    && (!s.stop.Joined? ==> s.dropped == [])
    && (forall t | t in s.promised :: t < |s.pushes|)
  }

  /** Somebody attends to every queued task whose push had returned in time, and no such
      task is thrown away. */
  ghost predicate Attended(s: State) {
    && (forall t: nat | t in s.queue && Promised(s, t) :: SomeoneAttentive(s))
    && (forall t: nat | t in s.dropped :: !Promised(s, t))
  }

  ghost predicate Inv(s: State) {
    s.workers != [] && Conserved(s) && OneHolder(s) && StopInOrder(s) && Attended(s)
  }

  lemma InitInv(n: nat)
    requires n > 0
    ensures Inv(Init(n))
  {
    forall t: nat ensures Tally(Init(n), t) == 0 { NothingInHand(Init(n).workers, t); }
  }

  lemma PopKeepsTally(s: State, i: nat, empty: Worker, t: nat)
    requires i < |s.workers| && !s.workers[i].Running? && !empty.Running?
    ensures Tally(Pop(s, i, empty), t) == Tally(s, t)
  {
    var s' := Pop(s, i, empty);
    InHandPlace(s.workers, i, s'.workers[i], t);
    if s.queue != [] { assert s.queue == [s.queue[0]] + s.queue[1..]; }
  }

  lemma AdvanceKeepsTally(s: State, i: nat, t: nat)
    requires Enabled(s, Advance(i))
    ensures Tally(Next(s, Advance(i)), t) == Tally(s, t)
  {
    if s.workers[i].Fresh? || s.workers[i].Popping? {
      PopKeepsTally(s, i, Locking, t);
    } else if s.workers[i].Testing? {
      PopKeepsTally(s, i, Deciding, t);
    } else {
      InHandPlace(s.workers, i, Next(s, Advance(i)).workers[i], t);
    }
  }

  lemma TallyKept(s: State, step: Step, t: nat)
    requires Enabled(s, step) && (!s.stop.Joined? ==> s.dropped == [])
    ensures Tally(Next(s, step), t) == Tally(s, t) + if step.Enqueue? && t == |s.pushes| then 1 else 0
  {
    match step
    case Advance(i) => AdvanceKeepsTally(s, i, t);
    case Notify(p, woken) =>
      if woken < |s.workers| { InHandPlace(s.workers, woken, Wake(s.workers[woken]), t); }
    case Grow => InHandAppend(s.workers, t);
    case Spurious(i) => InHandPlace(s.workers, i, Woken, t);
    case NotifyAll => InHandWakeAll(s.workers, t);
    case _ =>
  }

  lemma ConservedKept(s: State, step: Step)
    requires Enabled(s, step) && Conserved(s) && StopInOrder(s)
    ensures Conserved(Next(s, step))
  {
    forall t: nat ensures Tally(Next(s, step), t) == if t < |Next(s, step).pushes| then 1 else 0 {
      TallyKept(s, step, t);
    }
  }

  lemma OneHolderKept(s: State, step: Step)
    requires Enabled(s, step) && OneHolder(s)
    ensures OneHolder(Next(s, step))
  {
    var s' := Next(s, step);
    if !step.Advance? {
      assert forall k | 0 <= k < |s.workers| :: HoldsMutex(s'.workers[k]) <==> HoldsMutex(s.workers[k]);
    }
  }

  lemma StopInOrderKept(s: State, step: Step)
    requires Enabled(s, step) && StopInOrder(s)
    ensures StopInOrder(Next(s, step))
  {
  }

  /** An attentive worker stays so, unless it has just found the queue empty. */
  lemma AttentionLasts(s: State, step: Step)
    requires Enabled(s, step) && SomeoneAttentive(s)
    ensures SomeoneAttentive(Next(s, step)) || Next(s, step).queue == []
  {
    var s' := Next(s, step);
    var k :| 0 <= k < |s.workers| && Attentive(s.workers[k]);
    assert s'.queue == [] || Attentive(s'.workers[k]);
  }

  /** The notification finds somebody attentive or makes somebody so. */
  lemma NotificationIsHeard(s: State, p: nat, woken: nat)
    requires s.workers != [] && StopInOrder(s) && s.stop.NotCalled? && Enabled(s, Notify(p, woken))
    ensures SomeoneAttentive(Next(s, Notify(p, woken)))
  {
    var s' := Next(s, Notify(p, woken));
    if SomeoneWaits(s) {
      assert Attentive(s'.workers[woken]);
    } else {
      assert Attentive(s.workers[0]) && s'.workers[0] == s.workers[0];
    }
  }

  lemma AttendedKept(s: State, step: Step)
    requires Enabled(s, step) && Inv(s)
    ensures Attended(Next(s, step))
  {
    var s' := Next(s, step);
    forall t: nat | t in s'.queue && Promised(s', t)
      ensures SomeoneAttentive(s')
    {
      if step.Notify? && s.stop.NotCalled? {
        NotificationIsHeard(s, step.p, step.woken);
      } else {
        assert t in s.queue && Promised(s, t);
        AttentionLasts(s, step);
      }
    }
    forall t: nat | t in s'.dropped
      ensures !Promised(s', t)
    {
      if step.Join? && Promised(s, t) { assert false; }
    }
  }

  lemma InvKept(s: State, step: Step)
    requires Enabled(s, step) && Inv(s)
    ensures Inv(Next(s, step))
  {
    ConservedKept(s, step);
    OneHolderKept(s, step);
    StopInOrderKept(s, step);
    AttendedKept(s, step);
  }

  // ---------------------------------------------------------------- runs

  /** `s` is where `run` leads from a pool of `n` fresh threads. */
  ghost predicate IsRun(n: nat, run: seq<Step>, s: State) {
    Leads(Init(n), run, s)
  }

  ghost predicate Leads(s: State, run: seq<Step>, end: State)
    decreases |run|
  {
    if run == [] then s == end
    else Enabled(s, run[0]) && Leads(Next(s, run[0]), run[1..], end)
  }

  lemma {:induction false} LeadsKeepsInv(s: State, run: seq<Step>, end: State)
    requires Inv(s) && Leads(s, run, end)
    ensures Inv(end)
    decreases |run|
  {
    if run != [] {
      InvKept(s, run[0]);
      LeadsKeepsInv(Next(s, run[0]), run[1..], end);
    }
  }

  lemma RunInv(n: nat, run: seq<Step>, s: State)
    requires n > 0 && IsRun(n, run, s)
    ensures Inv(s)
  {
    InitInv(n);
    LeadsKeepsInv(Init(n), run, s);
  }

  /** No lost wake-up: after any run, a task in the queue has somebody attentive to it or
      a push that has yet to notify; once the stop is called this is so for the tasks
      pushed before it. */
  lemma NoLostWakeUp(n: nat, run: seq<Step>, s: State, t: nat)
    requires n > 0 && IsRun(n, run, s) && t in s.queue
    ensures t < |s.pushes|
    ensures Promised(s, t) || s.stop.NotCalled? ==> SomeoneAttentive(s) || s.pushes[t].Notifying?
  {
    RunInv(n, run, s);
    assert Tally(s, t) > 0;
  }

  /** No task runs twice, or runs and is still queued, and none runs unless pushed. */
  lemma AtMostOnce(n: nat, run: seq<Step>, s: State, t: nat)
    requires n > 0 && IsRun(n, run, s)
    ensures multiset(s.ran)[t] + multiset(s.queue)[t] + InHand(s.workers, t) + multiset(s.dropped)[t]
            == if t < |s.pushes| then 1 else 0
  {
    RunInv(n, run, s);
    assert Tally(s, t) == if t < |s.pushes| then 1 else 0;
  }

  /** What was promised when the stop was announced stays so. */
  lemma {:induction false} LeadsKeepsPromise(s: State, run: seq<Step>, end: State)
    requires !s.stop.NotCalled? && Leads(s, run, end)
    ensures end.promised == s.promised
    decreases |run|
  {
    if run != [] { LeadsKeepsPromise(Next(s, run[0]), run[1..], end); }
  }

  /** When `stop(true)` has joined, every task whose push had returned before it was
      announced has run, exactly once. */
  lemma StopWaitsForAll(n: nat, before: seq<Step>, s: State, run: seq<Step>, end: State, t: nat)
    requires n > 0 && IsRun(n, before, s) && s.stop.NotCalled? && t < |s.pushes| && s.pushes[t].Returned?
    requires Leads(Next(s, Announce), run, end) && end.stop.Joined?
    ensures multiset(end.ran)[t] == 1
  {
    RunInv(n, before, s);
    InvKept(s, Announce);
    LeadsKeepsInv(Next(s, Announce), run, end);
    LeadsKeepsPromise(Next(s, Announce), run, end);
    assert t in end.promised;
    PromiseIsKept(end, t);
  }

  /** The same in terms of what was promised. */
  lemma PromisedHaveRun(n: nat, run: seq<Step>, s: State, t: nat)
    requires n > 0 && IsRun(n, run, s) && s.stop.Joined? && t in s.promised
    ensures multiset(s.ran)[t] == 1
  {
    RunInv(n, run, s);
    PromiseIsKept(s, t);
  }

  /** With every worker blocked or gone, a promised task can only have run. */
  lemma PromiseIsKept(s: State, t: nat)
    requires Inv(s) && Promised(s, t) && !SomeoneAttentive(s)
    ensures multiset(s.ran)[t] == 1
  {
    assert t !in s.queue && t !in s.dropped;
    NothingInHand(s.workers, t);
    assert Tally(s, t) == 1;
  }

  // ---------------------------------------------------------------- first in, first out

  /** How many tasks have left the queue. */
  function Gone(s: State): int { |s.pushes| - |s.queue| }

  /** The queue holds the latest tasks, in the order of their pushes. */
  predicate InOrder(s: State) {
    Gone(s) >= 0 && forall i | 0 <= i < |s.queue| :: s.queue[i] == Gone(s) + i
  }

  lemma InOrderKept(s: State, step: Step)
    requires Enabled(s, step) && InOrder(s)
    ensures InOrder(Next(s, step))
  {
  }

  lemma {:induction false} LeadsKeepsOrder(s: State, run: seq<Step>, end: State)
    requires InOrder(s) && Leads(s, run, end)
    ensures InOrder(end)
    decreases |run|
  {
    if run != [] {
      InOrderKept(s, run[0]);
      LeadsKeepsOrder(Next(s, run[0]), run[1..], end);
    }
  }

  lemma {:induction false} InHandOf(ws: seq<Worker>, i: nat, t: nat)
    requires i < |ws| && ws[i] == Running(t)
    ensures InHand(ws, t) > 0
  {
    if i > 0 { InHandOf(ws[1..], i - 1, t); }
  }

  /** Tasks leave the queue in the order in which they entered it: it is increasing without gaps up
      to the latest push, and whatever was taken, run or thrown away was pushed before. */
  lemma FirstInFirstOut(n: nat, run: seq<Step>, s: State, t: nat)
    requires n > 0 && IsRun(n, run, s)
    ensures forall i, j | 0 <= i < j < |s.queue| :: s.queue[i] < s.queue[j]
    ensures t in s.queue <==> Gone(s) <= t < |s.pushes|
    ensures t in s.ran || t in s.dropped || Running(t) in s.workers ==> forall u | u in s.queue :: t < u
  {
    RunInv(n, run, s);
    LeadsKeepsOrder(Init(n), run, s);
    if Gone(s) <= t < |s.pushes| { assert s.queue[t - Gone(s)] == t; }
    if Running(t) in s.workers {
      var i :| 0 <= i < |s.workers| && s.workers[i] == Running(t);
      InHandOf(s.workers, i, t);
    }
    assert Tally(s, t) == if t < |s.pushes| then 1 else 0;
  }

  function Hand(w: Worker): seq<nat> { if w.Running? then [w.task] else [] }

  /** A pool that has one thread only: what ran, is running, was thrown away and is queued, in this
      order, are all tasks in the order of their pushes. */
  predicate LoneOrder(s: State) {
    |s.workers| == 1 ==> s.ran + Hand(s.workers[0]) + s.dropped + s.queue == seq(|s.pushes|, i => i)
  }

  lemma LoneOrderKept(s: State, step: Step)
    requires Enabled(s, step) && StopInOrder(s) && LoneOrder(s) && s.workers != []
    ensures LoneOrder(Next(s, step))
  {
    var s' := Next(s, step);
    if |s'.workers| == 1 {
      match step
      case Advance(i) =>
        assert |s.workers| == 1 && i == 0;
        LoneAdvance(s);
      case Enqueue =>
        var before := s.ran + Hand(s.workers[0]) + s.dropped;
        assert before + (s.queue + [|s.pushes|]) == (before + s.queue) + [|s.pushes|];
      case Join =>
        assert s.ran + Hand(s.workers[0]) + [] + s.queue == s.ran + Hand(s.workers[0]) + s.queue + [];
      case _ =>
    }
  }

  lemma LoneAdvance(s: State)
    requires Enabled(s, Advance(0)) && |s.workers| == 1 && LoneOrder(s) && StopInOrder(s)
    ensures LoneOrder(Next(s, Advance(0)))
  {
    var w := s.workers[0];
    if w.Running? {
      assert s.ran + [w.task] + s.dropped + s.queue == (s.ran + [w.task]) + [] + s.dropped + s.queue;
    } else if (w.Fresh? || w.Popping? || w.Testing?) && s.queue != [] {
      assert s.dropped == [];
      assert s.queue == [s.queue[0]] + s.queue[1..];
      assert s.ran + [] + [] + ([s.queue[0]] + s.queue[1..]) == s.ran + [s.queue[0]] + [] + s.queue[1..];
    }
  }

  lemma {:induction false} LeadsKeepsLoneOrder(s: State, run: seq<Step>, end: State)
    requires Inv(s) && LoneOrder(s) && Leads(s, run, end)
    ensures LoneOrder(end)
    decreases |run|
  {
    if run != [] {
      LoneOrderKept(s, run[0]);
      InvKept(s, run[0]);
      LeadsKeepsLoneOrder(Next(s, run[0]), run[1..], end);
    }
  }

  /** One worker runs the tasks in the order of their pushes. */
  lemma LoneWorkerKeepsOrder(run: seq<Step>, s: State)
    requires IsRun(1, run, s) && |s.workers| == 1
    ensures s.ran + Hand(s.workers[0]) + s.dropped + s.queue == seq(|s.pushes|, i => i)
    ensures !s.stop.Joined? ==> s.dropped == []
  {
    InitInv(1);
    assert LoneOrder(Init(1));
    LeadsKeepsLoneOrder(Init(1), run, s);
    RunInv(1, run, s);
  }

  // ---------------------------------------------------------------- progress

  function Weight(w: Worker): nat {
    match w
    case Running(_) => 6
    case Fresh => 5
    case Popping => 5
    case Locking => 4
    case Woken => 4
    case Testing => 3
    case Deciding => 2
    case Yielding => 1
    case Waiting => 0
    case Exited => 0
  }

  function Weights(ws: seq<Worker>): nat {
    if ws == [] then 0 else Weight(ws[0]) + Weights(ws[1..])
  }

  function Pending(ps: seq<Push>): nat {
    if ps == [] then 0 else (if ps[0].Notifying? then 1 else 0) + Pending(ps[1..])
  }

  /** How much the pool has left to do by itself. */
  function Rank(s: State): nat {
    Weights(s.workers) + 4 * |s.queue| + 5 * Pending(s.pushes) +
    match s.stop
    case NotCalled => 4 * |s.workers| + 3
    case Announced => 4 * |s.workers| + 2
    case Joining => 1
    case Joined => 0
  }

  lemma {:induction false} WeightsPlace(ws: seq<Worker>, i: nat, w: Worker)
    requires i < |ws|
    ensures Weights(ws[i := w]) + Weight(ws[i]) == Weights(ws) + Weight(w)
  {
    var ws' := ws[i := w];
    if i == 0 {
      assert ws'[1..] == ws[1..];
    } else {
      WeightsPlace(ws[1..], i - 1, w);
      assert ws'[1..] == ws[1..][i - 1 := w];
    }
  }

  lemma {:induction false} WeightsWakeAll(ws: seq<Worker>)
    ensures Weights(WakeAll(ws)) <= Weights(ws) + 4 * |ws|
  {
    if ws != [] {
      WeightsWakeAll(ws[1..]);
      assert WakeAll(ws)[1..] == WakeAll(ws[1..]);
    }
  }

  lemma {:induction false} PendingReturns(ps: seq<Push>, p: nat)
    requires p < |ps| && ps[p].Notifying?
    ensures Pending(ps[p := Returned]) == Pending(ps) - 1
  {
    var ps' := ps[p := Returned];
    if p == 0 {
      assert ps'[1..] == ps[1..];
    } else {
      PendingReturns(ps[1..], p - 1);
      assert ps'[1..] == ps[1..][p - 1 := Returned];
    }
  }

  /** Neither new work, nor a new thread, nor a spurious wake-up. */
  predicate Internal(step: Step) { !step.Enqueue? && !step.Grow? && !step.Spurious? }

  lemma PopDecreasesRank(s: State, i: nat, empty: Worker)
    requires i < |s.workers| && s.workers[i] in {Fresh, Popping, Testing} && Weight(empty) < Weight(s.workers[i])
    ensures Rank(Pop(s, i, empty)) < Rank(s)
  {
    WeightsPlace(s.workers, i, if s.queue == [] then empty else Running(s.queue[0]));
  }

  lemma AdvanceDecreasesRank(s: State, i: nat)
    requires Enabled(s, Advance(i))
    ensures Rank(Next(s, Advance(i))) < Rank(s)
  {
    if s.workers[i].Fresh? || s.workers[i].Popping? {
      PopDecreasesRank(s, i, Locking);
    } else if s.workers[i].Testing? {
      PopDecreasesRank(s, i, Deciding);
    } else {
      WeightsPlace(s.workers, i, Next(s, Advance(i)).workers[i]);
    }
  }

  lemma RankDecreases(s: State, step: Step)
    requires Enabled(s, step) && Internal(step)
    ensures Rank(Next(s, step)) < Rank(s)
  {
    match step
    case Advance(i) => AdvanceDecreasesRank(s, i);
    case Notify(p, woken) =>
      PendingReturns(s.pushes, p);
      if woken < |s.workers| { WeightsPlace(s.workers, woken, Wake(s.workers[woken])); }
    case NotifyAll => WeightsWakeAll(s.workers);
    case _ =>
  }

  /** Nothing more happens until somebody pushes, stops, grows the pool or a thread wakes
      up for no reason. */
  ghost predicate AtRest(s: State) {
    forall step :: Internal(step) && !step.Announce? ==> !Enabled(s, step)
  }

  lemma {:induction false} PendingPush(ps: seq<Push>) returns (p: nat)
    requires Pending(ps) > 0
    ensures p < |ps| && ps[p].Notifying?
  {
    if ps[0].Notifying? {
      p := 0;
    } else {
      p := PendingPush(ps[1..]);
      p := p + 1;
    }
  }

  lemma {:induction false} NonePending(ps: seq<Push>, t: nat)
    requires Pending(ps) == 0 && t < |ps|
    ensures ps[t].Returned?
  {
    if t > 0 { NonePending(ps[1..], t - 1); }
  }

  /** Rest means that no thread is on the move and nothing is due. */
  lemma RestIsQuiet(s: State)
    requires AtRest(s)
    ensures MutexFree(s) && !SomeoneAttentive(s) && Pending(s.pushes) == 0
    ensures !s.stop.Announced? && (s.stop.Joining? ==> !AllExited(s))
  {
    if !MutexFree(s) {
      var i :| 0 <= i < |s.workers| && HoldsMutex(s.workers[i]);
      assert Enabled(s, Advance(i)) && Internal(Advance(i));
    }
    if SomeoneAttentive(s) {
      var i :| 0 <= i < |s.workers| && Attentive(s.workers[i]);
      assert Enabled(s, Advance(i)) && Internal(Advance(i));
    }
    if Pending(s.pushes) > 0 {
      var p := PendingPush(s.pushes);
      var i := |s.workers|;
      if SomeoneWaits(s) { i :| 0 <= i < |s.workers| && s.workers[i].Waiting?; }
      assert Enabled(s, Notify(p, i)) && Internal(Notify(p, i));
    }
    assert Internal(NotifyAll) && Internal(Join);
    assert !Enabled(s, NotifyAll) && !Enabled(s, Join);
  }

  /** However it got there, a pool at rest has run every task it ever accepted, exactly
      once, if `stop` was not called; else it has joined all its threads and has run every
      task whose push had returned before the call. */
  lemma DoneAtRest(s: State, t: nat)
    requires Inv(s) && AtRest(s) && t < |s.pushes|
    ensures s.stop.NotCalled? || s.stop.Joined?
    ensures s.stop.NotCalled? || t in s.promised ==> multiset(s.ran)[t] == 1
  {
    RestIsQuiet(s);
    NonePending(s.pushes, t);
    if Promised(s, t) { PromiseIsKept(s, t); }
  }

  /** No schedule keeps the pool busy for longer than its rank, so it does come to rest. */
  lemma {:induction false} BoundedWork(s: State, run: seq<Step>, end: State)
    requires Leads(s, run, end) && forall i | 0 <= i < |run| :: Internal(run[i])
    ensures |run| <= Rank(s) - Rank(end)
    decreases |run|
  {
    if run != [] {
      RankDecreases(s, run[0]);
      BoundedWork(Next(s, run[0]), run[1..], end);
    }
  }

  // ---------------------------------------------------------------- what is queued when the stop is announced

  /** The worker will look at the queue again although the stop has been announced: it is
      attentive, or it blocks and is woken by the notification still to come. */
  predicate Hopeful(w: Worker, stop: Stop) {
    Attentive(w) || (stop.Announced? && (w.Waiting? || w.Yielding?))
  }

  predicate SomeoneHopeful(s: State) { exists i :: 0 <= i < |s.workers| && Hopeful(s.workers[i], s.stop) }

  /** Some worker has not just tried the queue in vain. */
  predicate SomeoneUndecided(s: State) { exists i :: 0 <= i < |s.workers| && !s.workers[i].Deciding? }

  ghost predicate Saved(s: State, t: nat) {
    !s.stop.NotCalled? && t < |s.pushes| && t !in s.dropped && (t in s.queue ==> SomeoneHopeful(s))
  }

  /** Hope lasts until the queue is empty. */
  lemma HopeLasts(s: State, step: Step)
    requires Enabled(s, step) && !s.stop.NotCalled? && StopInOrder(s) && SomeoneHopeful(s)
    ensures SomeoneHopeful(Next(s, step)) || Next(s, step).queue == []
  {
    var s' := Next(s, step);
    var k :| 0 <= k < |s.workers| && Hopeful(s.workers[k], s.stop);
    assert s'.queue == [] || Hopeful(s'.workers[k], s'.stop);
  }

  lemma SavedKept(s: State, step: Step, t: nat)
    requires Enabled(s, step) && Inv(s) && Saved(s, t)
    ensures Saved(Next(s, step), t)
  {
    var s' := Next(s, step);
    if t in s'.queue {
      assert t in s.queue;
      HopeLasts(s, step);
    }
    if step.Join? { NobodyHopes(s); }
  }

  lemma NobodyHopes(s: State)
    requires AllExited(s)
    ensures !SomeoneHopeful(s)
  {
  }

  lemma {:induction false} LeadsKeepsSaved(s: State, run: seq<Step>, end: State, t: nat)
    requires Inv(s) && Saved(s, t) && Leads(s, run, end)
    ensures Inv(end) && Saved(end, t)
    decreases |run|
  {
    if run != [] {
      InvKept(s, run[0]);
      SavedKept(s, run[0], t);
      LeadsKeepsSaved(Next(s, run[0]), run[1..], end, t);
    }
  }

  /** Every worker has tried the queue in vain and is about to read isDone, or has exited. */
  predicate AllGaveUp(s: State) {
    !s.stop.NotCalled? && forall i | 0 <= i < |s.workers| :: s.workers[i].Deciding? || s.workers[i].Exited?
  }

  lemma {:induction false} NothingMoreRuns(s: State, run: seq<Step>, end: State)
    requires AllGaveUp(s) && Leads(s, run, end)
    ensures end.ran == s.ran
    decreases |run|
  {
    if run != [] {
      assert AllGaveUp(Next(s, run[0]));
      NothingMoreRuns(Next(s, run[0]), run[1..], end);
    }
  }

  /** A task that is in the queue when `stop(true)` sets isDone, whether or not its push has
      returned, has run by the time the threads are joined if and only if some worker was not
      about to read isDone with a failed pop behind it. */
  lemma StopRunsWhatIsQueued(s: State, run: seq<Step>, end: State, t: nat)
    requires Inv(s) && s.stop.NotCalled? && t in s.queue
    requires Leads(Next(s, Announce), run, end) && end.stop.Joined?
    ensures multiset(end.ran)[t] == if SomeoneUndecided(s) then 1 else 0
  {
    assert Tally(s, t) == 1;
    if SomeoneUndecided(s) {
      StopRunsAll(s, run, end, t);
    } else {
      NothingMoreRuns(Next(s, Announce), run, end);
    }
  }

  /** Then every task ever accepted has run, once. */
  lemma StopRunsAll(s: State, run: seq<Step>, end: State, t: nat)
    requires Inv(s) && s.stop.NotCalled? && t < |s.pushes| && SomeoneUndecided(s)
    requires Leads(Next(s, Announce), run, end) && end.stop.Joined?
    ensures multiset(end.ran)[t] == 1
  {
    var s' := Next(s, Announce);
    InvKept(s, Announce);
    var k :| 0 <= k < |s.workers| && !s.workers[k].Deciding?;
    assert Hopeful(s'.workers[k], s'.stop);
    LeadsKeepsSaved(s', run, end, t);
    assert !SomeoneHopeful(end);
    NothingInHand(end.workers, t);
    assert Tally(end, t) == 1;
  }

  /** A pool of two threads or more drops nothing that was pushed before the stop. */
  lemma TwoThreadsDropNothing(n: nat, before: seq<Step>, s: State, run: seq<Step>, end: State, t: nat)
    requires n > 0 && IsRun(n, before, s) && s.stop.NotCalled? && |s.workers| >= 2 && t < |s.pushes|
    requires Leads(Next(s, Announce), run, end) && end.stop.Joined?
    ensures multiset(end.ran)[t] == 1
  {
    RunInv(n, before, s);
    assert !(HoldsMutex(s.workers[0]) && HoldsMutex(s.workers[1]));
    assert !s.workers[0].Deciding? || !s.workers[1].Deciding?;
    StopRunsAll(s, run, end, t);
  }

  // ---------------------------------------------------------------- a push that overlaps the stop

  lemma LeadsFurther(s: State, step: Step, run: seq<Step>, end: State)
    requires Enabled(s, step) && Leads(Next(s, step), run, end)
    ensures Leads(s, [step] + run, end)
  {
    assert ([step] + run)[1..] == run;
  }

  const DROPPED := State([Exited], [], [Returned], Joined, {}, [], [0])

  const OVERTAKEN := State([Deciding], [0], [Notifying], Announced, {}, [], [])

  lemma OvertakenIsDropped()
    ensures Leads(OVERTAKEN, [Advance(0), Notify(0, 1), NotifyAll, Join], DROPPED)
  {
    var s3 := State([Exited], [0], [Returned], Joining, {}, [], []);
    var s2 := s3.(stop := Announced);
    var s1 := s2.(pushes := [Notifying]);
    assert Leads(DROPPED, [], DROPPED) && Next(s3, Join) == DROPPED;
    LeadsFurther(s3, Join, [], DROPPED);
    assert WakeAll([Exited]) == [Exited] && Next(s2, NotifyAll) == s3;
    LeadsFurther(s2, NotifyAll, [Join], DROPPED);
    assert Next(s1, Notify(0, 1)) == s2;
    LeadsFurther(s1, Notify(0, 1), [NotifyAll, Join], DROPPED);
    assert Next(OVERTAKEN, Advance(0)) == s1;
    LeadsFurther(OVERTAKEN, Advance(0), [Notify(0, 1), NotifyAll, Join], DROPPED);
  }

  lemma PushOvertakesStop()
    ensures Leads(State([Deciding], [], [], NotCalled, {}, [], []),
                  [Enqueue, Announce, Advance(0), Notify(0, 1), NotifyAll, Join], DROPPED)
  {
    OvertakenIsDropped();
    var rest := [Advance(0), Notify(0, 1), NotifyAll, Join];
    var s4 := OVERTAKEN.(stop := NotCalled);
    var s3 := State([Deciding], [], [], NotCalled, {}, [], []);
    assert Next(s4, Announce) == OVERTAKEN;
    LeadsFurther(s4, Announce, rest, DROPPED);
    assert Next(s3, Enqueue) == s4;
    LeadsFurther(s3, Enqueue, [Announce] + rest, DROPPED);
    assert [Enqueue] + ([Announce] + rest) == [Enqueue, Announce] + rest;
  }

  /** That case is reached: one thread, one task that is queued while the thread has already
      tried the queue, and before `stop` sets isDone. The task is thrown away. */
  lemma OverlappingPushCanBeDropped() returns (run: seq<Step>)
    ensures IsRun(1, run, DROPPED) && DROPPED.stop.Joined? && DROPPED.dropped == [0] && DROPPED.ran == []
    ensures exists i, j | 0 <= i < j < |run| :: run[i].Enqueue? && run[j].Announce?
  {
    PushOvertakesStop();
    var a, rest := Advance(0), [Enqueue, Announce, Advance(0), Notify(0, 1), NotifyAll, Join];
    var s3 := State([Deciding], [], [], NotCalled, {}, [], []);
    var s2 := s3.(workers := [Testing]);
    var s1 := s3.(workers := [Locking]);
    assert Next(s2, a) == s3 && Next(s1, a) == s2 && Next(Init(1), a) == s1;
    LeadsFurther(s2, a, rest, DROPPED);
    LeadsFurther(s1, a, [a] + rest, DROPPED);
    LeadsFurther(Init(1), a, [a] + ([a] + rest), DROPPED);
    run := [a] + ([a] + ([a] + rest));
    assert run[3].Enqueue? && run[4].Announce?;
  }
}
