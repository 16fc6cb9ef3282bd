/** Deferred calls to devices, run one after another or by a pool of threads. A call issues
    commands to axes; what a command does to an axis is a parameter. */
module FutureTask {

  datatype Axis = Axis(device: nat, local: nat)

  datatype Command<R> = Command(axis: Axis, value: R)

  /** The states of the axes. */
  type World<S> = map<Axis, S>

  predicate Known<S, R>(w: World<S>, cs: seq<Command<R>>) {
    forall i | 0 <= i < |cs| :: cs[i].axis in w
  }

  predicate AllKnown<S, R>(w: World<S>, calls: seq<seq<Command<R>>>) {
    forall k | 0 <= k < |calls| :: Known(w, calls[k])
  }

  /** Commands in order; true if all of them succeed. None is skipped. */
  function Run<S, R>(cmd: (S, R) -> (S, bool), w: World<S>, cs: seq<Command<R>>): (World<S>, bool)
    requires Known(w, cs)
    decreases |cs|
  {
    if cs == [] then (w, true)
    else
      var (s, ok) := cmd(w[cs[0].axis], cs[0].value);
      var r := Run(cmd, w[cs[0].axis := s], cs[1..]);
      (r.0, ok && r.1)
  }

  function Flatten<R>(calls: seq<seq<Command<R>>>): seq<Command<R>>
    decreases |calls|
  {
    if calls == [] then [] else calls[0] + Flatten(calls[1..])
  }

  lemma {:induction false} FlattenKnown<S, R>(w: World<S>, calls: seq<seq<Command<R>>>)
    requires AllKnown(w, calls)
    ensures Known(w, Flatten(calls))
    decreases |calls|
  {
    if calls != [] { FlattenKnown(w, calls[1..]); }
  }

  lemma {:induction false} RunAppend<S, R>(cmd: (S, R) -> (S, bool), w: World<S>, cs: seq<Command<R>>,
                                           ds: seq<Command<R>>)
    requires Known(w, cs) && Known(w, ds)
    ensures Known(w, cs + ds) && Run(cmd, w, cs).0.Keys == w.Keys && Known(Run(cmd, w, cs).0, ds)
    ensures var r := Run(cmd, w, cs); var r' := Run(cmd, r.0, ds);
            Run(cmd, w, cs + ds) == (r'.0, r.1 && r'.1)
    decreases |cs|
  {
    if cs == [] {
      assert cs + ds == ds;
    } else {
      var w' := w[cs[0].axis := cmd(w[cs[0].axis], cs[0].value).0];
      RunAppend(cmd, w', cs[1..], ds);
      assert (cs + ds)[1..] == cs[1..] + ds;
    }
  }

  /** One more command acts on its axis as the others have left it, and must succeed besides. */
  lemma RunNext<S, R>(cmd: (S, R) -> (S, bool), w: World<S>, cs: seq<Command<R>>, c: Command<R>)
    requires Known(w, cs) && c.axis in w
    ensures Known(w, cs + [c]) && c.axis in Run(cmd, w, cs).0
    ensures var (w', ok) := Run(cmd, w, cs);
            var (s, done) := cmd(w'[c.axis], c.value);
            Run(cmd, w, cs + [c]) == (w'[c.axis := s], ok && done)
    ensures Run<S, R>(cmd, w, []) == (w, true)
  {
    assert [c][0] == c && [c][1..] == [];
    RunAppend(cmd, w, cs, [c]);
  }

  ghost predicate Overwrites<R(!new)>(cmd: (R, R) -> (R, bool)) { forall s, r :: cmd(s, r) == (r, true) }

  /** Commands that overwrite, to axes that all differ: each axis has the value meant for it in the
      end, every other axis is as it was, and all succeed. */
  lemma {:induction false} OverwritingRun<R(!new)>(cmd: (R, R) -> (R, bool), w: World<R>, cs: seq<Command<R>>)
    requires Known(w, cs) && Overwrites(cmd)
    requires forall i, j | 0 <= i < j < |cs| :: cs[i].axis != cs[j].axis
    ensures var (w', ok) := Run(cmd, w, cs);
            && ok && w'.Keys == w.Keys
            && (forall i | 0 <= i < |cs| :: cs[i].axis in w' && w'[cs[i].axis] == cs[i].value)
            && (forall a | a in w && forall i | 0 <= i < |cs| :: cs[i].axis != a :: a in w' && w'[a] == w[a])
    decreases |cs|
  {
    hide Run;
    if cs == [] {
      NothingToRun(cmd, w);
    } else {
      var n := |cs| - 1;
      OverwritingRun(cmd, w, cs[..n]);
      RunNext(cmd, w, cs[..n], cs[n]);
      assert cs == cs[..n] + [cs[n]];
      forall a | a in w && forall i | 0 <= i < |cs| :: cs[i].axis != a
        ensures a in Run(cmd, w, cs).0 && Run(cmd, w, cs).0[a] == w[a]
      {
        assert cs[n].axis != a;
      }
    }
  }

  // ---------------------------------------------------------------- one after another

  /** The sequential task: no call is skipped, whatever the ones before it returned. */
  method DispatchSequentially<S, R>(cmd: (S, R) -> (S, bool), w: World<S>, deferreds: seq<seq<Command<R>>>)
    returns (w': World<S>, ok: bool)
    requires AllKnown(w, deferreds)
    ensures Known(w, Flatten(deferreds)) && (w', ok) == Run(cmd, w, Flatten(deferreds))
  {
    hide Run, Known;
    FlattenKnown(w, deferreds);
    w', ok := w, true;
    NothingToRun(cmd, w);
    var i := 0;
    assert deferreds[..0] == [];
    while i < |deferreds|
      invariant 0 <= i <= |deferreds|
      invariant Known(w, Flatten(deferreds[..i])) && (w', ok) == Run(cmd, w, Flatten(deferreds[..i]))
      invariant w'.Keys == w.Keys
    {
      SameKeys(w, w', deferreds[i]);
      RunAppend(cmd, w, Flatten(deferreds[..i]), deferreds[i]);
      RunKeeps(cmd, w', deferreds[i]);
      FlattenNext(deferreds, i);
      var r := Run(cmd, w', deferreds[i]);
      w', ok := r.0, ok && r.1;
      i := i + 1;
    }
    assert deferreds[..|deferreds|] == deferreds;
  }

  lemma NothingToRun<S, R>(cmd: (S, R) -> (S, bool), w: World<S>)
    ensures Known<S, R>(w, []) && Run(cmd, w, []) == (w, true)
  {
  }

  lemma SameKeys<S, R>(w: World<S>, w': World<S>, cs: seq<Command<R>>)
    requires w.Keys == w'.Keys && Known(w, cs)
    ensures Known(w', cs)
  {
    forall i | 0 <= i < |cs| ensures cs[i].axis in w' { assert cs[i].axis in w.Keys; }
  }

  lemma RunKeeps<S, R>(cmd: (S, R) -> (S, bool), w: World<S>, cs: seq<Command<R>>)
    requires Known(w, cs)
    ensures Run(cmd, w, cs).0.Keys == w.Keys
  {
    RunAppend(cmd, w, cs, []);
  }

  lemma {:induction false} FlattenAppend<R>(a: seq<seq<Command<R>>>, b: seq<seq<Command<R>>>)
    ensures Flatten(a + b) == Flatten(a) + Flatten(b)
    decreases |a|
  {
    if a == [] {
      assert a + b == b;
    } else {
      FlattenAppend(a[1..], b);
      assert (a + b)[1..] == a[1..] + b;
    }
  }

  lemma FlattenNext<R>(calls: seq<seq<Command<R>>>, i: nat)
    requires i < |calls|
    ensures Flatten(calls[..i + 1]) == Flatten(calls[..i]) + calls[i]
  {
    assert calls[..i + 1] == calls[..i] + [calls[i]];
    FlattenAppend(calls[..i], [calls[i]]);
    assert [calls[i]][1..] == [];
  }

  // ---------------------------------------------------------------- by several threads

  /** A schedule says which call issues its next command; it lets every call come to an end. */
  predicate Completes<R>(calls: seq<seq<Command<R>>>, schedule: seq<nat>)
    decreases |schedule|
  {
    if schedule == [] then forall k | 0 <= k < |calls| :: calls[k] == []
    else
      var k := schedule[0];
      k < |calls| && calls[k] != [] && Completes(calls[k := calls[k][1..]], schedule[1..])
  }

  /** The commands in the order in which a schedule issues them. */
  function Merge<R>(calls: seq<seq<Command<R>>>, schedule: seq<nat>): seq<Command<R>>
    requires Completes(calls, schedule)
    decreases |schedule|
  {
    if schedule == [] then []
    else
      var k := schedule[0];
      [calls[k][0]] + Merge(calls[k := calls[k][1..]], schedule[1..])
  }

  lemma {:induction false} MergeKnown<S, R>(w: World<S>, calls: seq<seq<Command<R>>>, schedule: seq<nat>)
    requires AllKnown(w, calls) && Completes(calls, schedule)
    ensures Known(w, Merge(calls, schedule))
    decreases |schedule|
  {
    if schedule != [] {
      var k := schedule[0];
      assert Known(w, calls[k]);
      MergeKnown(w, calls[k := calls[k][1..]], schedule[1..]);
    }
  }

  // What happens to one axis.

  function Project<R>(cs: seq<Command<R>>, a: Axis): seq<R>
    decreases |cs|
  {
    if cs == [] then []
    else if cs[0].axis == a then [cs[0].value] + Project(cs[1..], a)
    else Project(cs[1..], a)
  }

  function RunAxis<S, R>(cmd: (S, R) -> (S, bool), s: S, values: seq<R>): (S, bool)
    decreases |values|
  {
    if values == [] then (s, true)
    else
      var (s', ok) := cmd(s, values[0]);
      var r := RunAxis(cmd, s', values[1..]);
      (r.0, ok && r.1)
  }

  lemma {:induction false} ProjectAppend<R>(cs: seq<Command<R>>, ds: seq<Command<R>>, a: Axis)
    ensures Project(cs + ds, a) == Project(cs, a) + Project(ds, a)
    decreases |cs|
  {
    if cs == [] {
      assert cs + ds == ds;
    } else {
      ProjectAppend(cs[1..], ds, a);
      assert (cs + ds)[1..] == cs[1..] + ds;
    }
  }

  lemma {:induction false} AxisByAxis<S, R>(cmd: (S, R) -> (S, bool), w: World<S>, cs: seq<Command<R>>, a: Axis)
    requires Known(w, cs) && a in w
    ensures var r := Run(cmd, w, cs);
            && a in r.0 && r.0[a] == RunAxis(cmd, w[a], Project(cs, a)).0
            && (r.1 ==> RunAxis(cmd, w[a], Project(cs, a)).1)
    decreases |cs|
  {
    if cs != [] {
      var w' := w[cs[0].axis := cmd(w[cs[0].axis], cs[0].value).0];
      AxisByAxis(cmd, w', cs[1..], a);
      if cs[0].axis == a {
        assert ([cs[0].value] + Project(cs[1..], a))[1..] == Project(cs[1..], a);
      }
    }
  }

  predicate AllSucceed<S, R>(cmd: (S, R) -> (S, bool), w: World<S>, cs: seq<Command<R>>) {
    forall a | a in w :: RunAxis(cmd, w[a], Project(cs, a)).1
  }

  lemma {:induction false} SucceedsOnEveryAxis<S, R>(cmd: (S, R) -> (S, bool), w: World<S>, cs: seq<Command<R>>)
    requires Known(w, cs) && AllSucceed(cmd, w, cs)
    ensures Run(cmd, w, cs).1
    decreases |cs|
  {
    if cs != [] {
      var b := cs[0].axis;
      var w' := w[b := cmd(w[b], cs[0].value).0];
      assert RunAxis(cmd, w[b], Project(cs, b)).1;
      assert ([cs[0].value] + Project(cs[1..], b))[1..] == Project(cs[1..], b);
      forall a | a in w' ensures RunAxis(cmd, w'[a], Project(cs[1..], a)).1 {
        assert RunAxis(cmd, w[a], Project(cs, a)).1;
      }
      SucceedsOnEveryAxis(cmd, w', cs[1..]);
    }
  }

  /** Two orders that agree on every axis have the same effect and the same result. */
  lemma SameOnEveryAxis<S, R>(cmd: (S, R) -> (S, bool), w: World<S>, cs: seq<Command<R>>, ds: seq<Command<R>>)
    requires Known(w, cs) && Known(w, ds)
    requires forall a | a in w :: Project(cs, a) == Project(ds, a)
    ensures Run(cmd, w, cs) == Run(cmd, w, ds)
  {
    hide Run, RunAxis, Project;
    RunKeeps(cmd, w, cs);
    RunKeeps(cmd, w, ds);
    forall a | a in w ensures Run(cmd, w, cs).0[a] == Run(cmd, w, ds).0[a] {
      AxisByAxis(cmd, w, cs, a);
      AxisByAxis(cmd, w, ds, a);
    }
    assert Run(cmd, w, cs).0 == Run(cmd, w, ds).0;
    OneSucceedsAsTheOther(cmd, w, cs, ds);
    OneSucceedsAsTheOther(cmd, w, ds, cs);
  }

  lemma OneSucceedsAsTheOther<S, R>(cmd: (S, R) -> (S, bool), w: World<S>, cs: seq<Command<R>>, ds: seq<Command<R>>)
    requires Known(w, cs) && Known(w, ds)
    requires forall a | a in w :: Project(cs, a) == Project(ds, a)
    ensures Run(cmd, w, cs).1 ==> Run(cmd, w, ds).1
  {
    hide Run, RunAxis, Project;
    if Run(cmd, w, cs).1 {
      forall a | a in w ensures RunAxis(cmd, w[a], Project(ds, a)).1 { AxisByAxis(cmd, w, cs, a); }
      SucceedsOnEveryAxis(cmd, w, ds);
    }
  }

  /** No two calls give different values to one axis. */
  ghost predicate Harmless<R>(calls: seq<seq<Command<R>>>) {
    forall j, k, x, y | 0 <= j < k < |calls| && 0 <= x < |calls[j]| && 0 <= y < |calls[k]| ::
      calls[j][x].axis == calls[k][y].axis ==> calls[j][x].value == calls[k][y].value
  }

  /** No call but the `k`-th commands the axis. */
  predicate OnlyIn<R>(calls: seq<seq<Command<R>>>, k: nat, a: Axis) {
    forall j | 0 <= j < |calls| && j != k :: Project(calls[j], a) == []
  }

  lemma {:induction false} NotCommanded<R>(cs: seq<Command<R>>, a: Axis)
    ensures Project(cs, a) == [] <==> forall x | 0 <= x < |cs| :: cs[x].axis != a
    decreases |cs|
  {
    if cs != [] {
      NotCommanded(cs[1..], a);
      assert forall x | 0 < x < |cs| :: cs[x] == cs[1..][x - 1];
    }
  }

  lemma {:induction false} MergeOnAxis<R>(calls: seq<seq<Command<R>>>, schedule: seq<nat>, k: nat, a: Axis)
    requires Completes(calls, schedule) && k < |calls| && OnlyIn(calls, k, a)
    ensures Project(Merge(calls, schedule), a) == Project(calls[k], a)
    decreases |schedule|
  {
    if schedule != [] {
      var j := schedule[0];
      var calls' := calls[j := calls[j][1..]];
      ProjectFirst(calls[j], a);
      MergeOnAxis(calls', schedule[1..], k, a);
      var m := Merge(calls, schedule);
      assert m[1..] == Merge(calls', schedule[1..]);
      ProjectFirst(m, a);
    }
  }

  lemma ProjectFirst<R>(cs: seq<Command<R>>, a: Axis)
    requires cs != []
    ensures Project(cs, a) == (if cs[0].axis == a then [cs[0].value] else []) + Project(cs[1..], a)
  {
  }

  lemma {:induction false} FlattenOnAxis<R>(calls: seq<seq<Command<R>>>, k: nat, a: Axis)
    requires OnlyIn(calls, k, a)
    ensures Project(Flatten(calls), a) == if k < |calls| then Project(calls[k], a) else []
    decreases |calls|
  {
    if calls != [] {
      ProjectAppend(calls[0], Flatten(calls[1..]), a);
      FlattenOnAxis(calls[1..], if k == 0 then |calls| else k - 1, a);
    }
  }

  // A single call may command an axis, or several, all with one value.

  ghost predicate Constant<R>(cs: seq<Command<R>>, a: Axis, v: R) {
    forall x | 0 <= x < |cs| :: cs[x].axis == a ==> cs[x].value == v
  }

  lemma {:induction false} ConstantLength<R>(cs: seq<Command<R>>, a: Axis, v: R)
    requires Constant(cs, a, v)
    ensures Project(cs, a) == seq(multiset(cs)[Command(a, v)], _ => v)
    decreases |cs|
  {
    if cs != [] {
      assert cs == [cs[0]] + cs[1..];
      ConstantLength(cs[1..], a, v);
      var n := multiset(cs[1..])[Command(a, v)];
      if cs[0].axis == a {
        assert cs[0] == Command(a, v) && [v] + seq(n, _ => v) == seq(n + 1, _ => v);
      }
    }
  }

  lemma ConstantOrders<R>(cs: seq<Command<R>>, ds: seq<Command<R>>, a: Axis, v: R)
    requires multiset(cs) == multiset(ds) && Constant(ds, a, v)
    ensures Project(cs, a) == Project(ds, a)
  {
    hide Project;
    forall x | 0 <= x < |cs| ensures cs[x].axis == a ==> cs[x].value == v {
      assert cs[x] in multiset(ds);
      assert cs[x] in ds;
    }
    ConstantLength(cs, a, v);
    ConstantLength(ds, a, v);
  }

  lemma {:induction false} FlattenConstant<R>(calls: seq<seq<Command<R>>>, a: Axis, v: R)
    requires forall j | 0 <= j < |calls| :: Constant(calls[j], a, v)
    ensures Constant(Flatten(calls), a, v)
    decreases |calls|
  {
    if calls != [] {
      assert Constant(calls[0], a, v);
      FlattenConstant(calls[1..], a, v);
    }
  }

  lemma NoneCommands<R>(calls: seq<seq<Command<R>>>, j: nat, a: Axis)
    requires j < |calls|
    ensures Project(calls[j], a) == [] || exists x :: 0 <= x < |calls[j]| && calls[j][x].axis == a
  {
    hide Project;
    NotCommanded(calls[j], a);
  }

  /** Two calls that share an axis share the value. */
  lemma SharedIsConstant<R>(calls: seq<seq<Command<R>>>, j: nat, k: nat, a: Axis) returns (v: R)
    requires Harmless(calls) && j < k < |calls| && Project(calls[j], a) != [] && Project(calls[k], a) != []
    ensures forall i | 0 <= i < |calls| :: Constant(calls[i], a, v)
  {
    hide Project;
    NoneCommands(calls, j, a);
    NoneCommands(calls, k, a);
    var x :| 0 <= x < |calls[j]| && calls[j][x].axis == a;
    var y :| 0 <= y < |calls[k]| && calls[k][y].axis == a;
    v := calls[j][x].value;
    forall i, z | 0 <= i < |calls| && 0 <= z < |calls[i]| && calls[i][z].axis == a ensures calls[i][z].value == v {
      if i < j {
        assert calls[i][z].axis == calls[j][x].axis;
      } else if i == j {
        assert calls[i][z].axis == calls[k][y].axis && calls[j][x].axis == calls[k][y].axis;
      } else {
        assert calls[j][x].axis == calls[i][z].axis;
      }
    }
  }

  lemma SameOnAxis<R>(calls: seq<seq<Command<R>>>, schedule: seq<nat>, a: Axis)
    requires Harmless(calls) && Completes(calls, schedule) && calls != []
    ensures Project(Merge(calls, schedule), a) == Project(Flatten(calls), a)
  {
    hide Harmless, Project, Merge, Flatten, Completes, Constant;
    if k :| 0 <= k < |calls| && OnlyIn(calls, k, a) {
      MergeOnAxis(calls, schedule, k, a);
      FlattenOnAxis(calls, k, a);
    } else {
      assert !OnlyIn(calls, 0, a);
      var j :| 0 <= j < |calls| && j != 0 && Project(calls[j], a) != [];
      assert !OnlyIn(calls, j, a);
      var k :| 0 <= k < |calls| && k != j && Project(calls[k], a) != [];
      var v := SharedIsConstant(calls, if j < k then j else k, if j < k then k else j, a);
      FlattenConstant(calls, a, v);
      MergePermutes(calls, schedule);
      ConstantOrders(Merge(calls, schedule), Flatten(calls), a, v);
    }
  }

  /** The parallel task has the effect and the result of the sequential one, however the
      threads are scheduled, if no two calls give different values to one axis. */
  lemma ParallelIsSequential<S, R>(cmd: (S, R) -> (S, bool), w: World<S>, calls: seq<seq<Command<R>>>,
                                   schedule: seq<nat>)
    requires AllKnown(w, calls) && Completes(calls, schedule) && Harmless(calls)
    ensures Known(w, Merge(calls, schedule)) && Known(w, Flatten(calls))
    ensures Run(cmd, w, Merge(calls, schedule)) == Run(cmd, w, Flatten(calls))
  {
    hide Run, Project, Merge, Flatten, Harmless;
    MergeKnown(w, calls, schedule);
    FlattenKnown(w, calls);
    if calls == [] {
      NothingToMerge(calls, schedule);
    } else {
      forall a | a in w ensures Project(Merge(calls, schedule), a) == Project(Flatten(calls), a) {
        SameOnAxis(calls, schedule, a);
      }
      SameOnEveryAxis(cmd, w, Merge(calls, schedule), Flatten(calls));
    }
  }

  lemma NothingToMerge<R>(calls: seq<seq<Command<R>>>, schedule: seq<nat>)
    requires calls == [] && Completes(calls, schedule)
    ensures Merge(calls, schedule) == Flatten(calls)
  {
  }

  // ---------------------------------------------------------------- the converse

  /** A schedule that brings all calls to an end. */
  lemma {:induction false} Finish<R>(calls: seq<seq<Command<R>>>) returns (schedule: seq<nat>)
    ensures Completes(calls, schedule)
    decreases |Flatten(calls)|
  {
    if k :| 0 <= k < |calls| && calls[k] != [] {
      FlattenTail(calls, k);
      var calls' := calls[k := calls[k][1..]];
      FlattenShrinks(Flatten(calls), calls[k][0], Flatten(calls'));
      schedule := Finish(calls');
      StepFirst(calls, k, schedule);
      schedule := [k] + schedule;
    } else {
      schedule := [];
    }
  }

  lemma FlattenShrinks<R>(cs: seq<Command<R>>, c: Command<R>, ds: seq<Command<R>>)
    requires multiset(cs) == multiset{c} + multiset(ds)
    ensures |cs| == |ds| + 1
  {
    assert |multiset(cs)| == |cs| && |multiset(ds)| == |ds|;
  }

  /** A schedule that begins with call `k`. */
  lemma StepFirst<R>(calls: seq<seq<Command<R>>>, k: nat, rest: seq<nat>)
    requires k < |calls| && calls[k] != [] && Completes(calls[k := calls[k][1..]], rest)
    ensures Completes(calls, [k] + rest)
    ensures Merge(calls, [k] + rest) == [calls[k][0]] + Merge(calls[k := calls[k][1..]], rest)
  {
    assert ([k] + rest)[1..] == rest;
  }

  lemma ProjectOneMore<R>(c: Command<R>, cs: seq<Command<R>>, a: Axis)
    ensures Project([c] + cs, a) == (if c.axis == a then [c.value] else []) + Project(cs, a)
  {
    assert ([c] + cs)[1..] == cs;
  }

  /** Two schedules under which an axis receives its values in different orders. */
  lemma {:induction false} TwoOrders<R>(calls: seq<seq<Command<R>>>, j: nat, k: nat, x: nat, y: nat, a: Axis)
    returns (one: seq<nat>, other: seq<nat>)
    requires j < |calls| && k < |calls| && j != k && x < |calls[j]| && y < |calls[k]|
    requires calls[j][x].axis == a == calls[k][y].axis && calls[j][x].value != calls[k][y].value
    ensures Completes(calls, one) && Completes(calls, other)
    ensures Project(Merge(calls, one), a) != Project(Merge(calls, other), a)
    decreases x + y
  {
    hide Project, Completes, Merge;
    if x > 0 || y > 0 {
      var i := if x > 0 then j else k;
      var calls' := calls[i := calls[i][1..]];
      one, other := TwoOrders(calls', j, k, if x > 0 then x - 1 else x, if x > 0 then y else y - 1, a);
      StepFirst(calls, i, one);
      StepFirst(calls, i, other);
      ProjectOneMore(calls[i][0], Merge(calls', one), a);
      ProjectOneMore(calls[i][0], Merge(calls', other), a);
      SamePrefix(if calls[i][0].axis == a then [calls[i][0].value] else [],
                 Project(Merge(calls', one), a), Project(Merge(calls', other), a));
      one, other := [i] + one, [i] + other;
    } else {
      one, other := Exchange(calls, j, k, a);
    }
  }

  lemma SamePrefix<T>(p: seq<T>, s: seq<T>, t: seq<T>)
    requires s != t
    ensures p + s != p + t
  {
    assert (p + s)[|p|..] == s && (p + t)[|p|..] == t;
  }

  lemma Exchange<R>(calls: seq<seq<Command<R>>>, j: nat, k: nat, a: Axis) returns (one: seq<nat>, other: seq<nat>)
    requires j < |calls| && k < |calls| && j != k && calls[j] != [] && calls[k] != []
    requires calls[j][0].axis == a == calls[k][0].axis && calls[j][0].value != calls[k][0].value
    ensures Completes(calls, one) && Completes(calls, other)
    ensures Project(Merge(calls, one), a) != Project(Merge(calls, other), a)
  {
    hide Project, Completes, Merge;
    var cj, ck := calls[j := calls[j][1..]], calls[k := calls[k][1..]];
    var both := cj[k := calls[k][1..]];
    assert both == ck[j := calls[j][1..]];
    var rest := Finish(both);
    StepFirst(cj, k, rest);
    StepFirst(calls, j, [k] + rest);
    StepFirst(ck, j, rest);
    StepFirst(calls, k, [j] + rest);
    one, other := [j] + ([k] + rest), [k] + ([j] + rest);
    var m := Merge(both, rest);
    ProjectOneMore(calls[k][0], m, a);
    ProjectOneMore(calls[j][0], m, a);
    ProjectOneMore(calls[j][0], [calls[k][0]] + m, a);
    ProjectOneMore(calls[k][0], [calls[j][0]] + m, a);
    assert Project(Merge(calls, one), a)[0] == calls[j][0].value;
    assert Project(Merge(calls, other), a)[0] == calls[k][0].value;
  }

  /** The command that makes an axis remember every value it was given. */
  function Record<R>(s: seq<R>, value: R): (seq<R>, bool) { (s + [value], true) }

  lemma {:induction false} RecordedValues<R>(s: seq<R>, values: seq<R>)
    ensures RunAxis(Record, s, values) == (s + values, true)
    decreases |values|
  {
    if values == [] {
      assert s + [] == s;
    } else {
      RecordedValues(s + [values[0]], values[1..]);
      assert s + [values[0]] + values[1..] == s + values;
    }
  }

  /** If two calls give different values to one axis, some schedule tells the parallel task
      from the sequential one: with ParallelIsSequential, exactly the harmless tasks may be
      dispatched in parallel. */
  lemma HarmfulIsARace<R>(w: World<seq<R>>, calls: seq<seq<Command<R>>>) returns (schedule: seq<nat>)
    requires AllKnown(w, calls) && !Harmless(calls)
    ensures Completes(calls, schedule) && Known(w, Merge(calls, schedule)) && Known(w, Flatten(calls))
    ensures Run(Record, w, Merge(calls, schedule)).0 != Run(Record, w, Flatten(calls)).0
  {
    hide Run, Project, Merge, Flatten, Completes;
    var j, k, x, y :| 0 <= j < k < |calls| && 0 <= x < |calls[j]| && 0 <= y < |calls[k]| &&
                      calls[j][x].axis == calls[k][y].axis && calls[j][x].value != calls[k][y].value;
    var a := calls[j][x].axis;
    var one, other := TwoOrders(calls, j, k, x, y, a);
    schedule := if Project(Merge(calls, one), a) != Project(Flatten(calls), a) then one else other;
    MergeKnown(w, calls, schedule);
    FlattenKnown(w, calls);
    assert Known(w, calls[j]);
    AxisByAxis(Record, w, Merge(calls, schedule), a);
    AxisByAxis(Record, w, Flatten(calls), a);
    RecordedValues(w[a], Project(Merge(calls, schedule), a));
    RecordedValues(w[a], Project(Flatten(calls), a));
    SamePrefix(w[a], Project(Merge(calls, schedule), a), Project(Flatten(calls), a));
  }

  /** Whatever the calls and the schedule, every command is issued exactly once. */
  lemma {:induction false} MergePermutes<R>(calls: seq<seq<Command<R>>>, schedule: seq<nat>)
    requires Completes(calls, schedule)
    ensures multiset(Merge(calls, schedule)) == multiset(Flatten(calls))
    decreases |schedule|
  {
    if schedule == [] {
      FlattenEmpty(calls);
    } else {
      var k := schedule[0];
      var calls' := calls[k := calls[k][1..]];
      MergePermutes(calls', schedule[1..]);
      FlattenTail(calls, k);
    }
  }

  lemma {:induction false} FlattenEmpty<R>(calls: seq<seq<Command<R>>>)
    requires forall k | 0 <= k < |calls| :: calls[k] == []
    ensures Flatten(calls) == []
    decreases |calls|
  {
    if calls != [] { FlattenEmpty(calls[1..]); }
  }

  lemma {:induction false} FlattenTail<R>(calls: seq<seq<Command<R>>>, k: nat)
    requires k < |calls| && calls[k] != []
    ensures multiset(Flatten(calls)) == multiset{calls[k][0]} + multiset(Flatten(calls[k := calls[k][1..]]))
    decreases |calls|
  {
    var calls' := calls[k := calls[k][1..]];
    if k == 0 {
      assert calls'[1..] == calls[1..] && calls[0] == [calls[0][0]] + calls[0][1..];
    } else {
      FlattenTail(calls[1..], k - 1);
      assert calls'[1..] == calls[1..][k - 1 := calls[k][1..]] && calls'[0] == calls[0];
    }
  }

  /** With commands that overwrite, a joint commanded by two calls may end up with the value
      of either. */
  lemma RepeatedAxisIsARace(a: Axis, b: Axis)
    requires a != b
    ensures var calls := [[Command(a, 1)], [Command(b, 0)], [Command(a, 2)]];
            var cmd := (s: int, r: int) => (r, true);
            var w: World<int> := map[a := 0, b := 0];
            && AllKnown(w, calls) && Completes(calls, [2, 1, 0])
            && Known(w, Merge(calls, [2, 1, 0])) && Known(w, Flatten(calls))
            && Run(cmd, w, Merge(calls, [2, 1, 0])).0 != Run(cmd, w, Flatten(calls)).0
  {
    var calls := [[Command(a, 1)], [Command(b, 0)], [Command(a, 2)]];
    var cmd := (s: int, r: int) => (r, true);
    var w: World<int> := map[a := 0, b := 0];
    RaceSchedule(a, b);
    MergeKnown(w, calls, [2, 1, 0]);
    FlattenKnown(w, calls);
    LastValue(cmd, w, [Command(a, 2), Command(b, 0), Command(a, 1)], a);
    LastValue(cmd, w, [Command(a, 1), Command(b, 0), Command(a, 2)], a);
  }

  lemma RaceSchedule(a: Axis, b: Axis)
    ensures var calls := [[Command(a, 1)], [Command(b, 0)], [Command(a, 2)]];
            && Completes(calls, [2, 1, 0])
            && Merge(calls, [2, 1, 0]) == [Command(a, 2), Command(b, 0), Command(a, 1)]
            && Flatten(calls) == [Command(a, 1), Command(b, 0), Command(a, 2)]
  {
    var calls := [[Command(a, 1)], [Command(b, 0)], [Command(a, 2)]];
    var one := [[Command(a, 1)], [Command(b, 0)], []];
    var two := [[Command(a, 1)], [], []];
    var none: seq<seq<Command<int>>> := [[], [], []];
    assert [Command(a, 1)][1..] == [] && [Command(b, 0)][1..] == [] && [Command(a, 2)][1..] == [];
    assert calls[2 := []] == one && one[1 := []] == two && two[0 := []] == none;
    assert [2, 1, 0][1..] == [1, 0] && [1, 0][1..] == [0] && [0][1..] == [];
    assert Completes(none, []) && Completes(two, [0]) && Completes(one, [1, 0]);
    assert calls[1..] == [[Command(b, 0)], [Command(a, 2)]];
    assert calls[1..][1..] == [[Command(a, 2)]];
    assert Flatten(calls[1..][1..]) == [Command(a, 2)];
    assert Flatten(calls[1..]) == [Command(b, 0), Command(a, 2)];
  }

  lemma LastValue(cmd: (int, int) -> (int, bool), w: World<int>, cs: seq<Command<int>>, a: Axis)
    requires |cs| == 3 && Known(w, cs) && cs[2].axis == a && forall s, r :: cmd(s, r) == (r, true)
    ensures a in Run(cmd, w, cs).0 && Run(cmd, w, cs).0[a] == cs[2].value
  {
    assert cs == cs[..2] + [cs[2]];
    RunAppend(cmd, w, cs[..2], [cs[2]]);
  }

  // ---------------------------------------------------------------- the parallel task

  /** Whether all calls returned true. */
  predicate All(results: seq<bool>) { forall k | 0 <= k < |results| :: results[k] }

  lemma AllTrue(n: nat)
    ensures All(seq(n, _ => true)) && All([])
  {
  }

  lemma AllJoins(results: seq<bool>, k: nat, b: bool)
    requires k < |results|
    ensures All(results[k := results[k] && b]) <==> All(results) && b
  {
    var r := results[k := results[k] && b];
    if All(r) {
      assert r[k];
      forall j | 0 <= j < |results| ensures results[j] { assert r[j]; }
    }
  }

  lemma AllNext(results: seq<bool>, b: bool)
    ensures All(results + [b]) <==> All(results) && b
  {
    var r := results + [b];
    assert r[|results|] == b && forall k | 0 <= k < |results| :: r[k] == results[k];
  }

  lemma FirstStep<S, R>(cmd: (S, R) -> (S, bool), w: World<S>, calls: seq<seq<Command<R>>>, schedule: seq<nat>)
    requires Completes(calls, schedule) && Known(w, Merge(calls, schedule)) && schedule != []
    ensures var c := calls[schedule[0]][0];
            schedule[0] < |calls| && calls[schedule[0]] != [] && c.axis in w &&
            var (s, ok) := cmd(w[c.axis], c.value);
            var w', calls' := w[c.axis := s], calls[schedule[0] := calls[schedule[0]][1..]];
            && Completes(calls', schedule[1..]) && Known(w', Merge(calls', schedule[1..]))
            && var r := Run(cmd, w', Merge(calls', schedule[1..]));
               Run(cmd, w, Merge(calls, schedule)) == (r.0, ok && r.1)
  {
    var k := schedule[0];
    var rest := Merge(calls[k := calls[k][1..]], schedule[1..]);
    var m := Merge(calls, schedule);
    assert m[0] == calls[k][0] && m[1..] == rest;
    assert forall i | 0 <= i < |rest| :: rest[i] == m[i + 1];
  }

  lemma NothingScheduled<S, R>(cmd: (S, R) -> (S, bool), w: World<S>, calls: seq<seq<Command<R>>>)
    requires Completes(calls, []) && Known(w, Merge(calls, []))
    ensures Run(cmd, w, Merge(calls, [])) == (w, true)
  {
  }

  /** The parallel task: the calls advance as scheduled, each with a result of its own; then
      the results are joined. */
  method DispatchInParallel<S, R>(cmd: (S, R) -> (S, bool), w: World<S>, deferreds: seq<seq<Command<R>>>,
                                  schedule: seq<nat>)
    returns (w': World<S>, ok: bool)
    requires AllKnown(w, deferreds) && Completes(deferreds, schedule)
    ensures Known(w, Merge(deferreds, schedule)) && (w', ok) == Run(cmd, w, Merge(deferreds, schedule))
  {
    hide Known, All, Completes, Merge, Run;
    MergeKnown(w, deferreds, schedule);
    w' := w;
    var calls := deferreds;
    var results := seq(|deferreds|, _ => true);
    AllTrue(|deferreds|);
    var i := 0;
    assert schedule[0..] == schedule;
    while i < |schedule|
      invariant 0 <= i <= |schedule| && |calls| == |results|
      invariant Completes(calls, schedule[i..]) && Known(w', Merge(calls, schedule[i..]))
      invariant var r := Run(cmd, w', Merge(calls, schedule[i..]));
                Run(cmd, w, Merge(deferreds, schedule)) == (r.0, All(results) && r.1)
    {
      assert schedule[i..][1..] == schedule[i + 1..];
      var k := schedule[i];
      FirstStep(cmd, w', calls, schedule[i..]);
      var c: Command<R> := calls[k][0];
      var r: (S, bool) := cmd(w'[c.axis], c.value);
      w', calls := w'[c.axis := r.0], calls[k := calls[k][1..]];
      AllJoins(results, k, r.1);
      results := results[k := results[k] && r.1];
      i := i + 1;
    }
    assert schedule[|schedule|..] == [];
    NothingScheduled(cmd, w', calls);
    ok := true;
    var k := 0;
    while k < |results|
      invariant 0 <= k <= |results| && (ok <==> All(results[..k]))
    {
      assert results[..k + 1] == results[..k] + [results[k]];
      AllNext(results[..k], results[k]);
      ok := results[k] && ok;
      k := k + 1;
    }
    assert results[..|results|] == results;
  }
}
