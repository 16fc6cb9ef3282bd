/** The hand-off between a thread that awaits a notification and the threads that notify or
    interrupt it, as a system of interleaved steps over any number of threads. */
module StateObserver {
  import opened Bytes
  import opened Wrappers

  // ---------------------------------------------------------------- the timed semaphore

  /** `BinaryTimedSemaphore`: its two counters. */
  datatype Semaphore = Semaphore(count: int, wakeups: nat)

  const NEW_SEMAPHORE := Semaphore(0, 0)

  /** `wait` up to the point where it may block; it does iff the count is then negative. */
  function Enter(m: Semaphore): Semaphore { m.(count := m.count - 1) }

  function Post(m: Semaphore): Semaphore {
    var count := m.count + 1;
    Semaphore(count, if count <= 0 then m.wakeups + 1 else m.wakeups)
  }

  /** A blocked `wait` that finds a wake-up. */
  function Wake(m: Semaphore): Semaphore
    requires m.wakeups > 0
  {
    m.(wakeups := m.wakeups - 1)
  }

  /** A blocked `wait` whose time is over and that finds no wake-up. */
  function GiveUp(m: Semaphore): Semaphore { m.(count := m.count + 1) }

  /** A semaphore in use: its counters and the tally of what its callers saw. */
  datatype Use = Use(sem: Semaphore, blocked: nat, posts: nat, waits: nat, successes: nat, timeouts: nat)

  const UNUSED := Use(NEW_SEMAPHORE, 0, 0, 0, 0, 0)

  datatype SemStep = WaitStep | PostStep | WakeStep | TimeoutStep

  predicate SemEnabled(u: Use, step: SemStep) {
    match step
    case WakeStep => u.blocked > 0 && u.sem.wakeups > 0
    case TimeoutStep => u.blocked > 0 && u.sem.wakeups == 0
    case _ => true
  }

  function SemNext(u: Use, step: SemStep): Use
    requires SemEnabled(u, step)
  {
    match step
    case WaitStep =>
      var m := Enter(u.sem);
      var u' := u.(sem := m, waits := u.waits + 1);
      if m.count < 0 then u'.(blocked := u.blocked + 1) else u'.(successes := u.successes + 1)
    case PostStep => u.(sem := Post(u.sem), posts := u.posts + 1)
    case WakeStep => u.(sem := Wake(u.sem), blocked := u.blocked - 1, successes := u.successes + 1)
    case TimeoutStep => u.(sem := GiveUp(u.sem), blocked := u.blocked - 1, timeouts := u.timeouts + 1)
  }

  ghost predicate SemLeads(u: Use, run: seq<SemStep>, end: Use)
    decreases |run|
  {
    if run == [] then u == end
    else SemEnabled(u, run[0]) && SemLeads(SemNext(u, run[0]), run[1..], end)
  }

  predicate Balanced(u: Use) {
    && Max(0, -u.sem.count) + u.sem.wakeups == u.blocked
    && u.posts == u.successes + u.sem.wakeups + Max(0, u.sem.count)
    && u.waits == u.successes + u.timeouts + u.blocked
  }

  lemma {:induction false} BalanceKept(u: Use, run: seq<SemStep>, end: Use)
    requires Balanced(u) && SemLeads(u, run, end)
    ensures Balanced(end)
    decreases |run|
  {
    if run != [] { BalanceKept(SemNext(u, run[0]), run[1..], end); }
  }

  /** Conservation, for any number of threads and any interleaving: every successful wait
      consumes a post of its own, every blocked thread is waiting for a post that has not
      come or has a wake-up in store, no post is lost to a timeout, and every wait is blocked, has
      succeeded or has timed out. */
  lemma SemaphoreConserves(run: seq<SemStep>, end: Use)
    requires SemLeads(UNUSED, run, end)
    ensures Max(0, -end.sem.count) + end.sem.wakeups == end.blocked
    ensures end.posts == end.successes + end.sem.wakeups + Max(0, end.sem.count)
    ensures end.waits == end.successes + end.timeouts + end.blocked
  {
    assert Balanced(UNUSED);
    BalanceKept(UNUSED, run, end);
  }

  /** A thread that is blocked can wake up if and only if there was a post that no wait has consumed,
      and can time out if and only if there was none; nobody else is ever held up. */
  lemma PostIsNotMissed(run: seq<SemStep>, end: Use)
    requires SemLeads(UNUSED, run, end)
    ensures SemEnabled(end, WakeStep) <==> end.blocked > 0 && end.posts > end.successes
    ensures SemEnabled(end, TimeoutStep) <==> end.blocked > 0 && end.posts == end.successes
    ensures SemEnabled(end, WaitStep) && SemEnabled(end, PostStep)
  {
    SemaphoreConserves(run, end);
  }

  // ---------------------------------------------------------------- the observer

  type Payload = Option<seq<byte>>

  /** What a call has seen: how many posts by the time its wait ended, the contents of its
      buffer when it registered, and what was notified until it deregistered. */
  datatype Outcome = Outcome(ok: bool, early: nat, start: seq<byte>, window: seq<Payload>)

  datatype Caller =
    | Outside
    | Calling                         // about to lock the await mutex
    | Entered                         // holds it, about to read `active`
    | Checked                         // about to register
    | Registered                      // about to wait on its semaphore
    | Blocked
    | Finishing(ok: bool, early: nat) // wait returned, about to deregister
    | Left(outcome: Outcome)

  datatype Notifier =
    | Idle
    | Committed(payload: Payload)     // past its access to `active`, about to lock the registry
    | Locked(payload: Payload)        // holds the registry mutex
    | Posting(id: nat)                // holds it, has found semaphore `id` and stored the payload

  datatype State = State(
    callers: seq<Caller>,
    notifiers: seq<Notifier>,
    buffers: seq<seq<byte>>,          // one per caller
    active: bool,
    semaphore: Option<(nat, Semaphore)>,
    nextId: nat,                      // identity of the next semaphore
    target: Option<nat>,              // remoteStorage: whose buffer it points at
    // since the last registration:
    start: seq<byte>, window: seq<Payload>, posts: nat)

  function Init(callers: nat, notifiers: nat): State {
    State(seq(callers, _ => Outside), seq(notifiers, _ => Idle), seq(callers, _ => []), true, None, 0, None, [], [], 0)
  }

  /** memcpy over the front of a buffer. */
  function Overlay(buffer: seq<byte>, payload: Payload): seq<byte> {
    match payload
    case None => buffer
    case Some(p) => if |p| < |buffer| then p + buffer[|p|..] else p
  }

  function Contents(start: seq<byte>, window: seq<Payload>): seq<byte> {
    if window == [] then start
    else Overlay(Contents(start, window[..|window| - 1]), window[|window| - 1])
  }

  predicate HoldsAwaitMutex(c: Caller) {
    c.Entered? || c.Checked? || c.Registered? || c.Blocked? || c.Finishing?
  }

  /** Between registration and deregistration. */
  predicate InWindow(c: Caller) { c.Registered? || c.Blocked? || c.Finishing? }

  predicate HoldsRegistry(n: Notifier) { n.Locked? || n.Posting? }

  predicate AwaitFree(s: State) { forall i | 0 <= i < |s.callers| :: !HoldsAwaitMutex(s.callers[i]) }

  predicate RegistryFree(s: State) { forall i | 0 <= i < |s.notifiers| :: !HoldsRegistry(s.notifiers[i]) }

  datatype Step =
    | Call(i: nat, buffer: seq<byte>)
    | Lock(i: nat)
    | ReadActive(i: nat)
    | Register(i: nat)
    | Wait(i: nat)
    | WakeUp(i: nat)
    | TimeOut(i: nat)
    | Deregister(i: nat)
    | Notify(n: nat, payload: Payload) // notify() reads `active`
    | Interrupt(n: nat)                // interrupt() clears it
    | LockRegistry(n: nat)
    | Store(n: nat)                    // finds the semaphore, writes the buffer
    | PostTo(n: nat)

  predicate Enabled(s: State, step: Step) {
    match step
    case Call(i, _) => i < |s.callers| == |s.buffers| && (s.callers[i].Outside? || s.callers[i].Left?)
    case Lock(i) => i < |s.callers| && s.callers[i].Calling? && AwaitFree(s)
    case ReadActive(i) => i < |s.callers| == |s.buffers| && s.callers[i].Entered?
    case Register(i) => i < |s.callers| == |s.buffers| && s.callers[i].Checked? && RegistryFree(s)
    case Wait(i) => i < |s.callers| && s.callers[i].Registered? && s.semaphore.Some?
    case WakeUp(i) => i < |s.callers| && s.callers[i].Blocked? && s.semaphore.Some? && s.semaphore.value.1.wakeups > 0
    case TimeOut(i) => i < |s.callers| && s.callers[i].Blocked? && s.semaphore.Some? && s.semaphore.value.1.wakeups == 0
    case Deregister(i) => i < |s.callers| && s.callers[i].Finishing? && RegistryFree(s)
    case Notify(n, _) => n < |s.notifiers| && s.notifiers[n].Idle?
    case Interrupt(n) => n < |s.notifiers| && s.notifiers[n].Idle?
    case LockRegistry(n) => n < |s.notifiers| && s.notifiers[n].Committed? && RegistryFree(s)
    case Store(n) => n < |s.notifiers| && s.notifiers[n].Locked?
    case PostTo(n) => n < |s.notifiers| && s.notifiers[n].Posting?
  }

  function Go(s: State, i: nat, c: Caller): State
    requires i < |s.callers|
  {
    s.(callers := s.callers[i := c])
  }

  function Move(s: State, n: nat, m: Notifier): State
    requires n < |s.notifiers|
  {
    s.(notifiers := s.notifiers[n := m])
  }

  /** A payload goes to wherever the storage points; nowhere is not modelled, as it never
      happens (see SafeSteps). */
  function Write(s: State, payload: Payload): State {
    var s' := s.(window := s.window + [payload]);
    if s.target.None? || s.target.value >= |s.buffers| then s'
    else s'.(buffers := s.buffers[s.target.value := Overlay(s.buffers[s.target.value], payload)])
  }

  function Next(s: State, step: Step): State
    requires Enabled(s, step)
  {
    match step
    case Call(i, buffer) => Go(s.(buffers := s.buffers[i := buffer]), i, Calling)
    case Lock(i) => Go(s, i, Entered)
    case ReadActive(i) => Go(s, i, if s.active then Checked else Left(Outcome(false, 0, s.buffers[i], [])))
    case Register(i) =>
      Go(s.(semaphore := Some((s.nextId, NEW_SEMAPHORE)), nextId := s.nextId + 1, target := Some(i),
            start := s.buffers[i], window := [], posts := 0), i, Registered)
    case Wait(i) =>
      var m := Enter(s.semaphore.value.1);
      Go(s.(semaphore := Some((s.semaphore.value.0, m))), i, if m.count < 0 then Blocked else Finishing(true, s.posts))
    case WakeUp(i) =>
      Go(s.(semaphore := Some((s.semaphore.value.0, Wake(s.semaphore.value.1)))), i, Finishing(true, s.posts))
    case TimeOut(i) =>
      Go(s.(semaphore := Some((s.semaphore.value.0, GiveUp(s.semaphore.value.1)))), i, Finishing(false, s.posts))
    case Deregister(i) =>
      Go(s.(semaphore := None), i, Left(Outcome(s.callers[i].ok, s.callers[i].early, s.start, s.window)))
    case Notify(n, payload) => if s.active then Move(s, n, Committed(payload)) else s
    case Interrupt(n) => Move(s.(active := false), n, Committed(None))
    case LockRegistry(n) => Move(s, n, Locked(s.notifiers[n].payload))
    case Store(n) =>
      if s.semaphore.None? then Move(s, n, Idle)
      else
        Move(Write(s, s.notifiers[n].payload), n, Posting(s.semaphore.value.0))
    case PostTo(n) =>
      if s.semaphore.None? then Move(s, n, Idle)  // never happens, see SafeSteps
      else Move(s.(semaphore := Some((s.semaphore.value.0, Post(s.semaphore.value.1))), posts := s.posts + 1), n, Idle)
  }

  // ---------------------------------------------------------------- the invariant

  predicate OneCaller(s: State) {
    forall i, j | 0 <= i < j < |s.callers| :: !(HoldsAwaitMutex(s.callers[i]) && HoldsAwaitMutex(s.callers[j]))
  }

  predicate OneNotifier(s: State) {
    forall i, j | 0 <= i < j < |s.notifiers| :: !(HoldsRegistry(s.notifiers[i]) && HoldsRegistry(s.notifiers[j]))
  }

  /** The published semaphore belongs to the one caller in its window, to whose buffer the
      storage points. */
  predicate Published(s: State) {
    && |s.buffers| == |s.callers|
    && (s.semaphore.None? ==> forall i | 0 <= i < |s.callers| :: !InWindow(s.callers[i]))
    && (s.semaphore.Some? ==>
          s.target.Some? && s.target.value < |s.callers| && InWindow(s.callers[s.target.value])
          && s.semaphore.value.0 < s.nextId)
  }

  /** A notifier that is about to post has found the semaphore that is still there. */
  predicate PostsAlive(s: State) {
    && (forall n | 0 <= n < |s.notifiers| && s.notifiers[n].Posting? ::
          s.semaphore.Some? && s.semaphore.value.0 == s.notifiers[n].id && |s.window| == s.posts + 1)
    && ((forall n | 0 <= n < |s.notifiers| :: !s.notifiers[n].Posting?) ==> |s.window| == s.posts)
  }

  /** The counters of the semaphore follow from the number of posts. */
  predicate Counted(s: State) {
    s.semaphore.Some? ==>
      s.target.Some? && s.target.value < |s.callers| &&
      var m := s.semaphore.value.1;
      match s.callers[s.target.value]
      case Registered => m == Semaphore(s.posts, 0)
      case Blocked => m == Semaphore(s.posts - 1, if s.posts > 0 then 1 else 0)
      case Finishing(ok, early) => early <= s.posts && (ok <==> early > 0)
      case _ => true
  }

  predicate Honest(s: State, i: nat)
    requires i < |s.callers| && s.callers[i].Left? && |s.buffers| == |s.callers|
  {
    var o := s.callers[i].outcome;
    o.early <= |o.window| && (o.ok <==> o.early > 0) && s.buffers[i] == Contents(o.start, o.window)
  }

  predicate Inv(s: State) {
    && OneCaller(s) && OneNotifier(s) && Published(s) && PostsAlive(s) && Counted(s)
    && (s.semaphore.Some? ==> s.buffers[s.target.value] == Contents(s.start, s.window))
    && forall i | 0 <= i < |s.callers| && s.callers[i].Left? :: Honest(s, i)
  }

  lemma InitInv(callers: nat, notifiers: nat)
    ensures Inv(Init(callers, notifiers))
  {
  }

  lemma MutexesKept(s: State, step: Step)
    requires Enabled(s, step) && OneCaller(s) && OneNotifier(s)
    ensures OneCaller(Next(s, step)) && OneNotifier(Next(s, step))
  {
  }

  lemma PublishedKept(s: State, step: Step)
    requires Enabled(s, step) && OneCaller(s) && Published(s)
    ensures Published(Next(s, step))
  {
  }

  lemma PostsAliveKept(s: State, step: Step)
    requires Enabled(s, step) && OneNotifier(s) && PostsAlive(s)
    ensures PostsAlive(Next(s, step))
  {
    var s' := Next(s, step);
    if step.PostTo? {
      assert |s.window| == s.posts + 1;
    } else {
      assert forall k | 0 <= k < |s.notifiers| :: s.notifiers[k].Posting? ==> s'.notifiers[k].Posting?;
      if step.Store? { assert s'.notifiers[step.n].Posting? || s.semaphore.None?; }
    }
  }

  lemma CountedKept(s: State, step: Step)
    requires Enabled(s, step) && OneCaller(s) && Published(s) && Counted(s)
    ensures Counted(Next(s, step))
  {
    hide Overlay;
  }

  lemma ContentsGrow(start: seq<byte>, window: seq<Payload>, payload: Payload)
    ensures Contents(start, window + [payload]) == Overlay(Contents(start, window), payload)
  {
    assert (window + [payload])[..|window|] == window;
  }

  lemma ContentsKept(s: State, step: Step)
    requires Enabled(s, step) && Inv(s)
    ensures var s' := Next(s, step);
            s'.semaphore.Some? ==> s'.target.Some? && s'.target.value < |s'.buffers|
                                   && s'.buffers[s'.target.value] == Contents(s'.start, s'.window)
  {
    if step.Store? { ContentsGrow(s.start, s.window, s.notifiers[step.n].payload); }
  }

  lemma {:induction false} HonestKept(s: State, step: Step, i: nat)
    requires Enabled(s, step) && Inv(s) && i < |Next(s, step).callers| && Next(s, step).callers[i].Left?
    ensures |Next(s, step).buffers| == |Next(s, step).callers| && Honest(Next(s, step), i)
  {
    hide Overlay;
    var s' := Next(s, step);
    if s.callers[i].Left? {
      assert Honest(s, i);
      assert s'.callers[i] == s.callers[i] && s'.buffers[i] == s.buffers[i];
    } else if step.Deregister? {
      assert |s.window| >= s.posts;
    }
  }

  lemma InvKept(s: State, step: Step)
    requires Enabled(s, step) && Inv(s)
    ensures Inv(Next(s, step))
  {
    hide Next, Enabled, Honest, Published, PostsAlive, Counted, OneCaller, OneNotifier;
    MutexesKept(s, step);
    PublishedKept(s, step);
    PostsAliveKept(s, step);
    CountedKept(s, step);
    ContentsKept(s, step);
    forall i | 0 <= i < |Next(s, step).callers| && Next(s, step).callers[i].Left?
      ensures i < |Next(s, step).buffers| && Honest(Next(s, step), i)
    {
      HonestKept(s, step, i);
    }
  }

  // ---------------------------------------------------------------- what every run keeps

  ghost predicate Leads(s: State, run: seq<Step>, end: State)
    decreases |run|
  {
    if run == [] then s == end
    else Enabled(s, run[0]) && Leads(Next(s, run[0]), run[1..], end)
  }

  ghost predicate Reachable(callers: nat, notifiers: nat, run: seq<Step>, s: State) {
    Leads(Init(callers, notifiers), run, s)
  }

  lemma {:induction false} LeadsKeepsInv(s: State, run: seq<Step>, end: State)
    requires Inv(s) && Leads(s, run, end)
    ensures Inv(end)
    decreases |run|
  {
    hide Inv, Next, Enabled;
    if run != [] {
      InvKept(s, run[0]);
      LeadsKeepsInv(Next(s, run[0]), run[1..], end);
    }
  }

  lemma RunInv(callers: nat, notifiers: nat, run: seq<Step>, s: State)
    requires Reachable(callers, notifiers, run, s)
    ensures Inv(s)
  {
    hide Inv;
    InitInv(callers, notifiers);
    LeadsKeepsInv(Init(callers, notifiers), run, s);
  }

  /** In every interleaving: a payload is stored only into the buffer of a caller between
      its registration and its deregistration, and a post goes to the very semaphore that
      the notifier has found, never to a deleted one. */
  lemma SafeSteps(callers: nat, notifiers: nat, run: seq<Step>, s: State, n: nat)
    requires Reachable(callers, notifiers, run, s) && n < |s.notifiers|
    ensures s.notifiers[n].Locked? && s.semaphore.Some? ==>
              s.target.Some? && s.target.value < |s.callers| == |s.buffers| && InWindow(s.callers[s.target.value])
    ensures s.notifiers[n].Posting? ==>
              && s.semaphore.Some? && s.semaphore.value.0 == s.notifiers[n].id
              && s.target.Some? && s.target.value < |s.callers| && InWindow(s.callers[s.target.value])
  {
    RunInv(callers, notifiers, run, s);
  }

  /** Nobody but its own caller, and notifiers inside its window, changes a buffer. */
  lemma BufferIsPrivate(callers: nat, notifiers: nat, run: seq<Step>, s: State, step: Step, i: nat)
    requires Reachable(callers, notifiers, run, s) && Enabled(s, step) && i < |s.callers| && !InWindow(s.callers[i])
    requires !(step.Call? && step.i == i)
    ensures i < |s.buffers| == |Next(s, step).buffers| && Next(s, step).buffers[i] == s.buffers[i]
  {
    RunInv(callers, notifiers, run, s);
  }

  /** What a call returns, in every interleaving: true exactly when something was notified
      (or interrupted) in its window before its wait ended; and the buffer holds, over its
      initial contents, what was notified in the window, the latest last. */
  lemma AwaitIsHonest(callers: nat, notifiers: nat, run: seq<Step>, s: State, i: nat)
    requires Reachable(callers, notifiers, run, s) && i < |s.callers| && s.callers[i].Left?
    ensures var o := s.callers[i].outcome;
            && (o.ok <==> o.early > 0) && o.early <= |o.window|
            && i < |s.buffers| && s.buffers[i] == Contents(o.start, o.window)
  {
    RunInv(callers, notifiers, run, s);
    assert Honest(s, i);
  }

  /** Every payload of the window fills the buffer, as the 8 bytes of an SDO answer do. */
  predicate FillsBuffer(start: seq<byte>, window: seq<Payload>) {
    forall i | 0 <= i < |window| :: window[i].Some? ==> |window[i].value| == |start|
  }

  /** Then the buffer holds the last payload, whatever was notified without one and whether or
      not an interrupt came after it; without any, it is as it was. */
  lemma {:induction false} LastPayloadWins(start: seq<byte>, window: seq<Payload>, last: nat)
    requires FillsBuffer(start, window) && last <= |window|
    requires forall i | last <= i < |window| :: window[i].None?
    ensures last == 0 ==> Contents(start, window) == start
    ensures last > 0 && window[last - 1].Some? ==> Some(Contents(start, window)) == window[last - 1]
    decreases |window|
  {
    if window != [] {
      var before := window[..|window| - 1];
      if last < |window| {
        LastPayloadWins(start, before, last);
      } else {
        ContentsLength(start, before);
      }
    }
  }

  /** So a call that timed out has its buffer as it was if and only if nothing was notified with
      another payload last: a caller must not rely on it. */
  lemma BufferAfterAwait(callers: nat, notifiers: nat, run: seq<Step>, s: State, i: nat, last: nat)
    requires Reachable(callers, notifiers, run, s) && i < |s.callers| && s.callers[i].Left?
    requires var o := s.callers[i].outcome;
             && FillsBuffer(o.start, o.window) && last <= |o.window| && (last > 0 ==> o.window[last - 1].Some?)
             && forall j | last <= j < |o.window| :: o.window[j].None?
    ensures var o := s.callers[i].outcome;
            && i < |s.buffers|
            && (s.buffers[i] == o.start <==> last == 0 || o.window[last - 1].value == o.start)
  {
    AwaitIsHonest(callers, notifiers, run, s, i);
    LastPayloadWins(s.callers[i].outcome.start, s.callers[i].outcome.window, last);
  }

  lemma {:induction false} ContentsLength(start: seq<byte>, window: seq<Payload>)
    requires FillsBuffer(start, window)
    ensures |Contents(start, window)| == |start|
    decreases |window|
  {
    if window != [] { ContentsLength(start, window[..|window| - 1]); }
  }

  /** Once notified, a blocked caller cannot time out any more: it can only wake up. */
  lemma NotifiedCallerWakes(callers: nat, notifiers: nat, run: seq<Step>, s: State, i: nat)
    requires Reachable(callers, notifiers, run, s) && i < |s.callers| && s.callers[i].Blocked?
    ensures s.posts > 0 <==> Enabled(s, WakeUp(i))
    ensures s.posts > 0 <==> !Enabled(s, TimeOut(i))
  {
    RunInv(callers, notifiers, run, s);
    assert s.semaphore.Some? && s.target == Some(i);
  }

  // ---------------------------------------------------------------- what an interrupt does

  /** A call that has not got past its look at `active`, or has left with false at that look, its
      buffer as the caller gave it. */
  predicate TurnedAway(s: State, i: nat, buffer: seq<byte>) {
    && !s.active && i < |s.callers| == |s.buffers| && s.buffers[i] == buffer
    && (s.callers[i].Calling? || s.callers[i].Entered? || s.callers[i] == Left(Outcome(false, 0, buffer, [])))
  }

  lemma TurnedAwayKept(s: State, step: Step, i: nat, buffer: seq<byte>)
    requires Enabled(s, step) && Inv(s) && TurnedAway(s, i, buffer) && !(step.Call? && step.i == i)
    ensures TurnedAway(Next(s, step), i, buffer)
  {
    hide Overlay;
  }

  lemma {:induction false} LeadsKeepsTurnedAway(s: State, run: seq<Step>, end: State, i: nat, buffer: seq<byte>)
    requires Inv(s) && TurnedAway(s, i, buffer) && Leads(s, run, end)
    requires forall k | 0 <= k < |run| :: !(run[k].Call? && run[k].i == i)
    ensures TurnedAway(end, i, buffer)
    decreases |run|
  {
    hide Inv, TurnedAway, Next, Enabled;
    if run != [] {
      InvKept(s, run[0]);
      TurnedAwayKept(s, run[0], i, buffer);
      LeadsKeepsTurnedAway(Next(s, run[0]), run[1..], end, i, buffer);
    }
  }

  /** After an interrupt an await that has not yet looked at `active` leaves at once with false, in
      every interleaving, and its buffer is as it was. */
  lemma InterruptedAwaitLeaves(callers: nat, notifiers: nat, before: seq<Step>, s: State, n: nat,
                               run: seq<Step>, end: State, i: nat)
    requires Reachable(callers, notifiers, before, s) && Enabled(s, Interrupt(n))
    requires i < |s.callers| && (s.callers[i].Calling? || s.callers[i].Entered?)
    requires Leads(Next(s, Interrupt(n)), run, end) && forall k | 0 <= k < |run| :: !(run[k].Call? && run[k].i == i)
    ensures i < |end.callers| && i < |end.buffers| && i < |s.buffers| && end.buffers[i] == s.buffers[i]
    ensures end.callers[i].Calling? || end.callers[i].Entered? ||
            end.callers[i] == Left(Outcome(false, 0, s.buffers[i], []))
  {
    RunInv(callers, notifiers, before, s);
    InvKept(s, Interrupt(n));
    LeadsKeepsTurnedAway(Next(s, Interrupt(n)), run, end, i, s.buffers[i]);
  }

  /** A notification under way with a payload, or done and posted, while a caller is blocked. */
  predicate UnderWay(s: State, n: nat, payload: Payload, i: nat) {
    && i < |s.callers| && s.callers[i].Blocked? && n < |s.notifiers|
    && if s.posts > 0 && payload in s.window then true
       else match s.notifiers[n]
            case Committed(p) => p == payload
            case Locked(p) => p == payload
            case Posting(_) => payload in s.window
            case Idle => false
  }

  lemma {:induction false} UnderWayKept(s: State, step: Step, n: nat, payload: Payload, i: nat)
    requires Enabled(s, step) && Inv(s) && UnderWay(s, n, payload, i)
    requires step != WakeUp(i) && step != TimeOut(i)
    ensures UnderWay(Next(s, step), n, payload, i)
  {
    hide Overlay, Honest, Contents;
    assert s.semaphore.Some? && s.target == Some(i);
  }

  lemma {:induction false} LeadsKeepsUnderWay(s: State, run: seq<Step>, end: State, n: nat, payload: Payload, i: nat)
    requires Inv(s) && UnderWay(s, n, payload, i) && Leads(s, run, end)
    requires forall k | 0 <= k < |run| :: run[k] != WakeUp(i) && run[k] != TimeOut(i)
    ensures Inv(end) && UnderWay(end, n, payload, i)
    decreases |run|
  {
    hide Inv, UnderWay, Next, Enabled;
    if run != [] {
      InvKept(s, run[0]);
      UnderWayKept(s, run[0], n, payload, i);
      LeadsKeepsUnderWay(Next(s, run[0]), run[1..], end, n, payload, i);
    }
  }

  /** A notification, or an interrupt, that begins while a caller is blocked reaches it: once the
      notifier is through, and the caller still blocked, what it brought is in the window of the
      call and the caller can wake up, and only that. */
  lemma {:induction false} BlockedCallerIsReached(callers: nat, notifiers: nat, before: seq<Step>, s: State,
                                                  step: Step, run: seq<Step>, end: State, i: nat)
    requires Reachable(callers, notifiers, before, s) && i < |s.callers| && s.callers[i].Blocked?
    requires Enabled(s, step) && (step.Interrupt? || (step.Notify? && s.active))
    requires Leads(Next(s, step), run, end)
    requires forall k | 0 <= k < |run| :: run[k] != WakeUp(i) && run[k] != TimeOut(i)
    ensures var payload := if step.Interrupt? then None else step.payload;
            && i < |end.callers| && end.callers[i].Blocked? && step.n < |end.notifiers|
            && (end.notifiers[step.n].Idle? ==>
                  payload in end.window && Enabled(end, WakeUp(i)) && !Enabled(end, TimeOut(i)))
  {
    hide Next, Contents, Overlay, Honest;
    var payload := if step.Interrupt? then None else step.payload;
    RunInv(callers, notifiers, before, s);
    InvKept(s, step);
    NotifierSetsOut(s, step, i);
    LeadsKeepsUnderWay(Next(s, step), run, end, step.n, payload, i);
    if end.notifiers[step.n].Idle? {
      assert end.semaphore.Some? && end.target == Some(i);
    }
  }

  lemma NotifierSetsOut(s: State, step: Step, i: nat)
    requires Enabled(s, step) && (step.Interrupt? || (step.Notify? && s.active))
    requires i < |s.callers| && s.callers[i].Blocked?
    ensures UnderWay(Next(s, step), step.n, if step.Interrupt? then None else step.payload, i)
  {
  }

  /** A notifier that has set out is never stuck: somebody can take a step on its way. */
  lemma NotifiersGetOn(s: State, n: nat)
    requires n < |s.notifiers| && !s.notifiers[n].Idle?
    ensures exists m :: Enabled(s, LockRegistry(m)) || Enabled(s, Store(m)) || Enabled(s, PostTo(m))
  {
    if RegistryFree(s) {
      assert Enabled(s, LockRegistry(n));
    } else {
      var m :| 0 <= m < |s.notifiers| && HoldsRegistry(s.notifiers[m]);
      assert Enabled(s, Store(m)) || Enabled(s, PostTo(m));
    }
  }

  // ---------------------------------------------------------------- a late notification

  lemma LeadsFurther(s: State, step: Step, run: seq<Step>, end: State)
    requires Enabled(s, step) && Leads(Next(s, step), run, end)
    ensures Leads(s, [step] + run, end)
  {
    assert ([step] + run)[1..] == run;
  }

  /** One caller, one notifier, the caller blocked on a buffer of one byte. */
  const ASLEEP := State([Blocked], [Idle], [[0]], true, Some((0, Semaphore(-1, 0))), 1, Some(0), [0], [], 0)

  const MISLED := State([Left(Outcome(false, 0, [0], [Some([7])]))], [Idle], [[7]], true, None, 1, Some(0),
                        [0], [Some([7])], 1)

  const READY := State([Checked], [Idle], [[0]], true, None, 0, None, [], [], 0)

  const OVERTAKEN := ASLEEP.(notifiers := [Posting(0)], buffers := [[7]], window := [Some([7])])

  lemma ReadyCallerSleeps()
    ensures Leads(READY, [Register(0), Wait(0)], ASLEEP)
  {
    var s4 := ASLEEP.(callers := [Registered], semaphore := Some((0, NEW_SEMAPHORE)));
    assert Leads(ASLEEP, [], ASLEEP) && Next(s4, Wait(0)) == ASLEEP && Next(READY, Register(0)) == s4;
    LeadsFurther(s4, Wait(0), [], ASLEEP);
    LeadsFurther(READY, Register(0), [Wait(0)], ASLEEP);
  }

  lemma CallerFallsAsleep() returns (run: seq<Step>)
    ensures Leads(Init(1, 1), run, ASLEEP)
  {
    ReadyCallerSleeps();
    var s1 := READY.(callers := [Calling]);
    var s2 := READY.(callers := [Entered]);
    assert Next(s2, ReadActive(0)) == READY && Next(s1, Lock(0)) == s2 && Next(Init(1, 1), Call(0, [0])) == s1;
    run := [Register(0), Wait(0)];
    LeadsFurther(s2, ReadActive(0), run, ASLEEP);
    LeadsFurther(s1, Lock(0), [ReadActive(0)] + run, ASLEEP);
    LeadsFurther(Init(1, 1), Call(0, [0]), [Lock(0)] + ([ReadActive(0)] + run), ASLEEP);
    run := [Call(0, [0])] + ([Lock(0)] + ([ReadActive(0)] + run));
  }

  lemma OvertakenCallerLeaves()
    ensures Leads(OVERTAKEN, [TimeOut(0), PostTo(0), Deregister(0)], MISLED)
  {
    var s4 := OVERTAKEN.(callers := [Finishing(false, 0)], semaphore := Some((0, NEW_SEMAPHORE)));
    var s5 := s4.(notifiers := [Idle], posts := 1, semaphore := Some((0, Semaphore(1, 0))));
    assert Leads(MISLED, [], MISLED) && Next(s5, Deregister(0)) == MISLED && Next(s4, PostTo(0)) == s5;
    LeadsFurther(s5, Deregister(0), [], MISLED);
    LeadsFurther(s4, PostTo(0), [Deregister(0)], MISLED);
    assert Next(OVERTAKEN, TimeOut(0)) == s4;
    LeadsFurther(OVERTAKEN, TimeOut(0), [PostTo(0), Deregister(0)], MISLED);
  }

  /** A call may return false and yet find its buffer changed: the notifier stores the
      payload before it posts, and the wait may time out in between. */
  lemma TimedOutBufferMayChange() returns (run: seq<Step>)
    ensures Leads(ASLEEP, run, MISLED)
    ensures !MISLED.callers[0].outcome.ok && MISLED.buffers[0] != MISLED.callers[0].outcome.start
  {
    OvertakenCallerLeaves();
    var s1 := ASLEEP.(notifiers := [Committed(Some([7]))]);
    var s2 := ASLEEP.(notifiers := [Locked(Some([7]))]);
    run := [TimeOut(0), PostTo(0), Deregister(0)];
    var s3 := Next(s2, Store(0));
    assert s3.window == [Some([7])] && s3.buffers == [[7]] && s3 == OVERTAKEN;
    LeadsFurther(s2, Store(0), run, MISLED);
    assert Next(s1, LockRegistry(0)) == s2 && Next(ASLEEP, Notify(0, Some([7]))) == s1;
    LeadsFurther(s1, LockRegistry(0), [Store(0)] + run, MISLED);
    LeadsFurther(ASLEEP, Notify(0, Some([7])), [LockRegistry(0)] + ([Store(0)] + run), MISLED);
    run := [Notify(0, Some([7]))] + ([LockRegistry(0)] + ([Store(0)] + run));
  }
}
