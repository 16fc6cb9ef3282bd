/** The filters of the Hico driver: a set of ids is split into as few ranges of consecutive ids
    as possible, since the hardware has room for few of them. */
module FilterManager {

  /** The order in which the ids of a set are visited. */
  predicate Increasing(s: seq<int>) {
    forall i, j | 0 <= i < j < |s| :: s[i] < s[j]
  }

  /** The ids are unsigned integers of 32 bits. */
  predicate AreIds(s: seq<int>) {
    forall i | 0 <= i < |s| :: 0 <= s[i] < 0x1_0000_0000
  }

  predicate NotConsecutive(lhs: int, rhs: int) { rhs != (lhs + 1) % 0x1_0000_0000 }

  predicate Consecutive(s: seq<int>) {
    forall i | 0 < i < |s| :: s[i] == s[i - 1] + 1
  }

  function Flatten(runs: seq<seq<int>>): seq<int> {
    if runs == [] then [] else Flatten(runs[..|runs| - 1]) + runs[|runs| - 1]
  }

  function Last(run: seq<int>): int
    requires run != []
  {
    run[|run| - 1]
  }

  /** Maximal runs of consecutive ids, in order. */
  predicate AreRuns(runs: seq<seq<int>>) {
    && (forall i | 0 <= i < |runs| :: runs[i] != [] && Consecutive(runs[i]))
    && (forall i | 0 < i < |runs| :: runs[i][0] != Last(runs[i - 1]) + 1)
  }

  /** The first position, from `i` on, whose id is not followed by the next number; the end if
      there is none. */
  method AdjacentFind(stage: seq<int>, i: nat) returns (k: nat)
    requires Increasing(stage) && AreIds(stage) && i < |stage|
    ensures i <= k <= |stage|
    ensures k < |stage| ==> k + 1 < |stage| && stage[k + 1] != stage[k] + 1
    ensures forall j | i < j <= k && j < |stage| :: stage[j] == stage[j - 1] + 1
  {
    k := i;
    while k + 1 < |stage|
      invariant i <= k < |stage| && forall j | i < j <= k :: stage[j] == stage[j - 1] + 1
    {
      WrapIsIrrelevant(stage[k], stage[k + 1]);
      if NotConsecutive(stage[k], stage[k + 1]) { return; }
      k := k + 1;
    }
    k := |stage|;
  }

  lemma WrapIsIrrelevant(lhs: int, rhs: int)
    requires 0 <= lhs < rhs < 0x1_0000_0000
    ensures NotConsecutive(lhs, rhs) <==> rhs != lhs + 1
  {
  }

  lemma RunsGrow(runs: seq<seq<int>>, run: seq<int>)
    requires AreRuns(runs) && run != [] && Consecutive(run)
    requires runs != [] ==> run[0] != Last(runs[|runs| - 1]) + 1
    ensures AreRuns(runs + [run])
  {
  }

  lemma FlattenGrows(runs: seq<seq<int>>, run: seq<int>)
    ensures Flatten(runs + [run]) == Flatten(runs) + run
  {
    assert (runs + [run])[..|runs|] == runs;
  }

  predicate Singles(stage: seq<int>, sequences: seq<seq<int>>) {
    |sequences| == |stage| && forall i | 0 <= i < |stage| :: sequences[i] == [stage[i]]
  }

  /** The runs found among the first `i` ids. */
  predicate Found(stage: seq<int>, i: nat, runs: seq<seq<int>>) {
    && i <= |stage| && Flatten(runs) == stage[..i] && AreRuns(runs)
    && (i == 0 ==> runs == [])
    && (i > 0 ==> runs != [] && Last(runs[|runs| - 1]) == stage[i - 1])
    && (0 < i < |stage| ==> stage[i] != stage[i - 1] + 1)
  }

  lemma SliceIsConsecutive(stage: seq<int>, i: nat, next: nat)
    requires i < next <= |stage|
    requires forall j | i < j < next :: stage[j] == stage[j - 1] + 1
    ensures Consecutive(stage[i..next])
  {
    var run := stage[i..next];
    forall j | 0 < j < |run| ensures run[j] == run[j - 1] + 1 {
      assert stage[i + j] == stage[i + j - 1] + 1;
    }
  }

  lemma RunFound(stage: seq<int>, i: nat, next: nat, runs: seq<seq<int>>)
    requires Found(stage, i, runs) && i < next <= |stage|
    requires forall j | i < j < next :: stage[j] == stage[j - 1] + 1
    requires next < |stage| ==> stage[next] != stage[next - 1] + 1
    ensures Found(stage, next, runs + [stage[i..next]])
  {
    hide AreRuns, Flatten, Consecutive;
    SliceIsConsecutive(stage, i, next);
    RunsGrow(runs, stage[i..next]);
    FlattenGrows(runs, stage[i..next]);
    SliceEnds(stage, i, next);
    assert (runs + [stage[i..next]])[|runs|] == stage[i..next];
  }

  lemma SliceEnds(stage: seq<int>, i: nat, next: nat)
    requires i < next <= |stage|
    ensures stage[..next] == stage[..i] + stage[i..next]
    ensures stage[i..next][0] == stage[i] && Last(stage[i..next]) == stage[next - 1]
  {
  }

  method RunsOf(stage: seq<int>) returns (sequences: seq<seq<int>>)
    requires Increasing(stage) && AreIds(stage)
    ensures Flatten(sequences) == stage && AreRuns(sequences)
  {
    hide Increasing, AreIds, Found;
    sequences := [];
    NoneFound(stage);
    var i := 0;
    while i != |stage|
      invariant 0 <= i <= |stage| && Found(stage, i, sequences)
      decreases |stage| - i
    {
      var next := AdjacentFind(stage, i);
      if next != |stage| { next := next + 1; }
      RunFound(stage, i, next, sequences);
      sequences := sequences + [stage[i..next]];
      i := next;
    }
    AllFound(stage, sequences);
  }

  lemma NoneFound(stage: seq<int>)
    ensures Found(stage, 0, [])
  {
    NoRuns();
  }

  lemma AllFound(stage: seq<int>, runs: seq<seq<int>>)
    requires Found(stage, |stage|, runs)
    ensures Flatten(runs) == stage && AreRuns(runs)
  {
    assert stage[..|stage|] == stage;
  }

  method SinglesOf(stage: seq<int>) returns (sequences: seq<seq<int>>)
    ensures Flatten(sequences) == stage && Singles(stage, sequences)
  {
    hide Flatten;
    sequences := [];
    NoRuns();
    var i := 0;
    while i < |stage|
      invariant 0 <= i <= |stage| && Flatten(sequences) == stage[..i] && Singles(stage[..i], sequences)
    {
      FlattenGrows(sequences, [stage[i]]);
      assert stage[..i + 1] == stage[..i] + [stage[i]];
      sequences := sequences + [[stage[i]]];
      i := i + 1;
    }
    assert stage[..|stage|] == stage;
  }

  const MAX_FILTERS := 4

  /** Ranges from a lower to an upper bound. */
  datatype Range = Range(lower: int, upper: int) {
    predicate Has(x: int) { lower <= x <= upper }
  }

  /** What becomes of programming the filters: the source reads past a sequence; or it reports
      whether the driver took all filters, and has programmed the ranges that it took. */
  datatype Outcome = OutOfBounds | Done(ok: bool, ranges: seq<Range>)

  /** The ranges of the sequences of two ids or more that the driver takes. */
  function Taken(sequences: seq<seq<int>>, accepts: nat -> bool): seq<Range> {
    if sequences == [] then []
    else
      var n := |sequences| - 1;
      var run := sequences[n];
      Taken(sequences[..n], accepts) + if |run| > 1 && accepts(n) then [Range(run[0], Last(run))] else []
  }

  predicate AllTaken(sequences: seq<seq<int>>, accepts: nat -> bool) {
    forall i | 0 <= i < |sequences| && |sequences[i]| > 1 :: accepts(i)
  }

  /** The loop over the ids of a sequence compares the index of the sequence: it does not end
      for a first sequence of one id, and does nothing for a later one. */
  function Programming(sequences: seq<seq<int>>, enableRanges: bool, accepts: nat -> bool): Outcome {
    if sequences != [] && !(enableRanges && |sequences[0]| > 1) then OutOfBounds
    else Done(AllTaken(sequences, accepts), Taken(sequences, accepts))
  }

  /** `accepts` says whether the driver takes the filter of a sequence. */
  method SetFilters(sequences: seq<seq<int>>, enableRanges: bool, accepts: nat -> bool) returns (o: Outcome)
    requires forall i | 0 <= i < |sequences| :: sequences[i] != [] && (enableRanges || |sequences[i]| == 1)
    ensures o == Programming(sequences, enableRanges, accepts)
    ensures o.Done? ==> (o.ok <==> forall i | 0 <= i < |sequences| && |sequences[i]| > 1 :: accepts(i))
  {
    var ok, ranges := true, [];
    var i := 0;
    while i < |sequences|
      invariant 0 <= i <= |sequences|
      invariant i > 0 ==> enableRanges && |sequences[0]| > 1
      invariant ranges == Taken(sequences[..i], accepts) && (ok <==> AllTaken(sequences[..i], accepts))
    {
      var run := sequences[i];
      assert sequences[..i + 1][..i] == sequences[..i] && sequences[..i + 1][i] == run;
      if enableRanges && |run| > 1 {
        if accepts(i) {
          ranges := ranges + [Range(run[0], Last(run))];
        } else {
          ok := false;
        }
      } else if i < |run| {
        return OutOfBounds;
      }
      i := i + 1;
    }
    assert sequences[..|sequences|] == sequences;
    o := Done(ok, ranges);
  }

  /** The filters to be set: the maximal runs with ranges enabled, the single ids without. If
      there is room for them, they are programmed; if not, `valid` says so. */
  method BulkUpdate(stage: seq<int>, enableRanges: bool, accepts: nat -> bool)
    returns (sequences: seq<seq<int>>, valid: bool, o: Outcome)
    requires Increasing(stage) && AreIds(stage)
    ensures Flatten(sequences) == stage
    ensures if enableRanges then AreRuns(sequences) else Singles(stage, sequences)
    ensures valid <==> |sequences| <= 4
    ensures o == if valid then Programming(sequences, enableRanges, accepts) else Done(true, [])
    ensures o.Done? && valid ==> (o.ok <==> forall i | 0 <= i < |sequences| && |sequences[i]| > 1 :: accepts(i))
  {
    hide Flatten, Programming;
    if enableRanges { sequences := RunsOf(stage); } else { sequences := SinglesOf(stage); }
    valid := |sequences| <= MAX_FILTERS;
    if valid { o := SetFilters(sequences, enableRanges, accepts); } else { o := Done(true, []); }
  }

  lemma NoRuns()
    ensures Flatten([]) == [] && AreRuns([])
  {
  }

  // ---------------------------------------------------------------- as few as possible

  predicate Admits(ranges: seq<Range>, x: int) { exists i | 0 <= i < |ranges| :: ranges[i].Has(x) }

  /** The ranges admit the listed ids and no other number. */
  ghost predicate AdmitsExactly(ranges: seq<Range>, stage: seq<int>) {
    forall x: int :: Admits(ranges, x) <==> x in stage
  }

  function Bounds(runs: seq<seq<int>>): (r: seq<Range>)
    requires AreRuns(runs)
    ensures |r| == |runs|
  {
    seq(|runs|, i requires 0 <= i < |runs| => Range(runs[i][0], Last(runs[i])))
  }

  lemma {:induction false} InFlatten(runs: seq<seq<int>>, x: int)
    ensures x in Flatten(runs) <==> exists i | 0 <= i < |runs| :: x in runs[i]
  {
    if runs != [] {
      var n := |runs| - 1;
      InFlatten(runs[..n], x);
      if x in Flatten(runs[..n]) {
        var i :| 0 <= i < n && x in runs[..n][i];
        assert x in runs[i];
      }
    }
  }

  lemma {:induction false} ConsecutiveAt(run: seq<int>, i: nat)
    requires Consecutive(run) && i < |run|
    ensures run[i] == run[0] + i
  {
    if i > 0 { ConsecutiveAt(run, i - 1); }
  }

  lemma RunIsRange(run: seq<int>, x: int)
    requires Consecutive(run) && run != []
    ensures x in run <==> run[0] <= x <= Last(run)
  {
    ConsecutiveAt(run, |run| - 1);
    if x in run {
      var i :| 0 <= i < |run| && run[i] == x;
      ConsecutiveAt(run, i);
    }
    if run[0] <= x <= Last(run) { ConsecutiveAt(run, x - run[0]); }
  }

  /** The bounds of the runs admit exactly the listed ids. */
  lemma BoundsAdmitExactly(runs: seq<seq<int>>)
    requires AreRuns(runs)
    ensures AdmitsExactly(Bounds(runs), Flatten(runs))
  {
    var r := Bounds(runs);
    forall x: int ensures Admits(r, x) <==> x in Flatten(runs) {
      InFlatten(runs, x);
      forall i | 0 <= i < |runs| ensures r[i].Has(x) <==> x in runs[i] { RunIsRange(runs[i], x); }
      if Admits(r, x) {
        var i :| 0 <= i < |r| && r[i].Has(x);
        assert x in runs[i];
      }
    }
  }

  lemma NotAfterRun(stage: seq<int>, runs: seq<seq<int>>, j: nat, x: nat, k: nat)
    requires Increasing(stage) && Flatten(runs) == stage && AreRuns(runs)
    requires k < |runs| && j < |runs| && x < |runs[j]|
    ensures runs[j][x] != Last(runs[k]) + 1
  {
    hide Increasing, Flatten;
    ConsecutiveAt(runs[j], x);
    if j < k {
      Ordered(runs, stage, j, k, x, |runs[k]| - 1);
    } else if j == k {
      ConsecutiveAt(runs[j], |runs[j]| - 1);
    } else {
      Ordered(runs, stage, k, k + 1, |runs[k]| - 1, 0);
      if j > k + 1 { Ordered(runs, stage, k + 1, j, 0, 0); }
    }
  }

  /** The runs are apart: the number after one of them is not listed. */
  lemma {:induction false} NothingAfterRun(stage: seq<int>, runs: seq<seq<int>>, k: nat)
    requires Increasing(stage) && Flatten(runs) == stage && AreRuns(runs) && k < |runs|
    ensures Last(runs[k]) + 1 !in stage
  {
    hide Increasing, Flatten;
    InFlatten(runs, Last(runs[k]) + 1);
    forall j, x | 0 <= j < |runs| && 0 <= x < |runs[j]| ensures runs[j][x] != Last(runs[k]) + 1 {
      NotAfterRun(stage, runs, j, x, k);
    }
  }

  lemma {:induction false} Ordered(runs: seq<seq<int>>, stage: seq<int>, j: nat, k: nat, x: nat, y: nat)
    requires Increasing(stage) && Flatten(runs) == stage
    requires j < k < |runs| && x < |runs[j]| && y < |runs[k]|
    ensures runs[j][x] < runs[k][y]
    decreases |runs|
  {
    var n := |runs| - 1;
    var rest := Flatten(runs[..n]);
    assert stage == rest + runs[n];
    if k < n {
      assert forall a, b | 0 <= a < b < |rest| :: rest[a] == stage[a] && rest[b] == stage[b];
      Ordered(runs[..n], rest, j, k, x, y);
    } else {
      InFlatten(runs[..n], runs[j][x]);
      assert runs[..n][j] == runs[j];
      var a :| 0 <= a < |rest| && rest[a] == runs[j][x];
      assert stage[a] == rest[a] && stage[|rest| + y] == runs[n][y];
    }
  }

  /** One range cannot reach into two runs. */
  lemma {:induction false} RangeMeetsOneRun(stage: seq<int>, runs: seq<seq<int>>, ranges: seq<Range>, i: nat, j: nat,
                                            k: nat)
    requires Increasing(stage) && Flatten(runs) == stage && AreRuns(runs) && AdmitsExactly(ranges, stage)
    requires i < |ranges| && j < k < |runs| && ranges[i].Has(runs[j][0])
    ensures !ranges[i].Has(runs[k][0])
  {
    hide Increasing, Flatten;
    Ordered(runs, stage, j, k, |runs[j]| - 1, 0);
    RunIsRange(runs[j], Last(runs[j]));
    NothingAfterRun(stage, runs, j);
    assert !Admits(ranges, Last(runs[j]) + 1);
    assert !ranges[i].Has(Last(runs[j]) + 1);
  }

  function Below(m: nat): (r: set<nat>)
    ensures |r| == m && forall x: nat :: x in r <==> x < m
  {
    if m == 0 then {} else Below(m - 1) + {m - 1}
  }

  function Elements(s: seq<nat>): (r: set<nat>)
    ensures forall x :: x in r <==> x in s
  {
    if s == [] then {} else Elements(s[..|s| - 1]) + {s[|s| - 1]}
  }

  predicate Distinct(s: seq<nat>) { forall i, j | 0 <= i < j < |s| :: s[i] != s[j] }

  lemma {:induction false} DistinctAreMany(s: seq<nat>)
    requires Distinct(s)
    ensures |Elements(s)| == |s|
  {
    if s != [] { DistinctAreMany(s[..|s| - 1]); }
  }

  lemma {:induction false} SubsetIsSmaller(a: set<nat>, b: set<nat>)
    requires a <= b
    ensures |a| <= |b|
  {
    if a != {} {
      var x :| x in a;
      SubsetIsSmaller(a - {x}, b - {x});
    }
  }

  /** Fewer ranges than maximal runs cannot admit exactly the listed ids. */
  lemma {:induction false} RunsAreFewest(stage: seq<int>, runs: seq<seq<int>>, ranges: seq<Range>)
    requires Increasing(stage) && Flatten(runs) == stage && AreRuns(runs) && AdmitsExactly(ranges, stage)
    ensures |runs| <= |ranges|
  {
    hide Increasing, Flatten, Admits;
    forall k | 0 <= k < |runs| ensures Admits(ranges, runs[k][0]) {
      InFlatten(runs, runs[k][0]);
    }
    var reached: seq<nat> := seq(|runs|, k requires 0 <= k < |runs| => RangeOf(ranges, runs[k][0]));
    forall j, k | 0 <= j < k < |reached| ensures reached[j] != reached[k] {
      RangeMeetsOneRun(stage, runs, ranges, reached[j], j, k);
    }
    DistinctAreMany(reached);
    SubsetIsSmaller(Elements(reached), Below(|ranges|));
  }

  /** A range that has the number. */
  function RangeOf(ranges: seq<Range>, x: int): (i: nat)
    requires Admits(ranges, x)
    ensures i < |ranges| && ranges[i].Has(x)
    decreases |ranges|
  {
    var n := |ranges| - 1;
    if ranges[n].Has(x) then n else RangeOf(ranges[..n], x)
  }

  /** With ranges enabled, the filters fit into the hardware exactly when some ranges that
      admit the listed ids and nothing else do. */
  method FitWhenPossible(stage: seq<int>, ghost ranges: seq<Range>) returns (runs: seq<seq<int>>, valid: bool)
    requires Increasing(stage) && AreIds(stage)
    ensures valid ==> AreRuns(runs) && |Bounds(runs)| <= 4 && AdmitsExactly(Bounds(runs), stage)
    ensures AdmitsExactly(ranges, stage) && |ranges| <= 4 ==> valid
  {
    hide Increasing, Flatten, Programming, AdmitsExactly;
    var o;
    runs, valid, o := BulkUpdate(stage, true, _ => true);
    BoundsAdmitExactly(runs);
    if AdmitsExactly(ranges, stage) { RunsAreFewest(stage, runs, ranges); }
  }

  // ---------------------------------------------------------------- what is programmed

  /** No id stands alone. */
  predicate NoneAlone(runs: seq<seq<int>>) { forall i | 0 <= i < |runs| :: |runs[i]| > 1 }

  lemma {:induction false} TakenIsBounds(runs: seq<seq<int>>, accepts: nat -> bool)
    requires AreRuns(runs) && NoneAlone(runs) && AllTaken(runs, accepts)
    ensures Taken(runs, accepts) == Bounds(runs)
    decreases |runs|
  {
    if runs != [] {
      var n := |runs| - 1;
      TakenIsBounds(runs[..n], accepts);
      assert Bounds(runs) == Bounds(runs[..n]) + [Range(runs[n][0], Last(runs[n]))];
    }
  }

  lemma {:induction false} TakenFrom(runs: seq<seq<int>>, accepts: nat -> bool, i: nat) returns (k: nat)
    requires i < |Taken(runs, accepts)|
    ensures k < |runs| && |runs[k]| > 1 && accepts(k) && Taken(runs, accepts)[i] == Range(runs[k][0], Last(runs[k]))
    decreases |runs|
  {
    var n := |runs| - 1;
    if i < |Taken(runs[..n], accepts)| { k := TakenFrom(runs[..n], accepts, i); } else { k := n; }
  }

  /** An id that stands alone is not admitted. */
  lemma AloneIsNotAdmitted(stage: seq<int>, runs: seq<seq<int>>, accepts: nat -> bool, j: nat)
    requires Increasing(stage) && Flatten(runs) == stage && AreRuns(runs) && j < |runs| && |runs[j]| == 1
    ensures !Admits(Taken(runs, accepts), runs[j][0])
  {
    hide Increasing, Flatten, Taken;
    var taken, x := Taken(runs, accepts), runs[j][0];
    forall i | 0 <= i < |taken| ensures !taken[i].Has(x) {
      var k := TakenFrom(runs, accepts, i);
      RunIsRange(runs[k], x);
      if x in runs[k] {
        var y :| 0 <= y < |runs[k]| && runs[k][y] == x;
        if j < k { Ordered(runs, stage, j, k, 0, y); } else { Ordered(runs, stage, k, j, y, 0); }
      }
    }
  }

  lemma {:induction false} TakenHas(runs: seq<seq<int>>, accepts: nat -> bool, k: nat)
    requires k < |runs| && |runs[k]| > 1 && accepts(k)
    ensures Range(runs[k][0], Last(runs[k])) in Taken(runs, accepts)
    decreases |runs|
  {
    if k < |runs| - 1 { TakenHas(runs[..|runs| - 1], accepts, k); }
  }

  /** Whatever the driver refuses: with ranges enabled true is reported if and only if it has taken
      all runs of two ids or more, and an id is admitted if and only if it belongs to one of them
      that it has taken. */
  lemma ProgrammedAdmits(stage: seq<int>, runs: seq<seq<int>>, accepts: nat -> bool, x: int)
    requires Increasing(stage) && Flatten(runs) == stage && AreRuns(runs)
    ensures var o := Programming(runs, true, accepts);
            o.Done? ==>
              && (o.ok <==> forall i | 0 <= i < |runs| && |runs[i]| > 1 :: accepts(i))
              && (Admits(o.ranges, x) <==> exists i | 0 <= i < |runs| :: |runs[i]| > 1 && accepts(i) && x in runs[i])
  {
    hide Increasing, Flatten, Taken;
    var taken := Taken(runs, accepts);
    if Admits(taken, x) {
      var i :| 0 <= i < |taken| && taken[i].Has(x);
      var k := TakenFrom(runs, accepts, i);
      RunIsRange(runs[k], x);
    }
    if k :| 0 <= k < |runs| && |runs[k]| > 1 && accepts(k) && x in runs[k] {
      TakenHas(runs, accepts, k);
      RunIsRange(runs[k], x);
      var i :| 0 <= i < |taken| && taken[i] == Range(runs[k][0], Last(runs[k]));
      assert taken[i].Has(x);
    }
  }

  /** With ranges enabled and a driver that takes them all, exactly the listed ids are admitted
      if and only if none of them stands alone. If the first one does, the source does not even
      return. */
  lemma ProgramsExactly(stage: seq<int>, runs: seq<seq<int>>, accepts: nat -> bool)
    requires Increasing(stage) && Flatten(runs) == stage && AreRuns(runs) && AllTaken(runs, accepts)
    ensures var o := Programming(runs, true, accepts);
            && (o.OutOfBounds? <==> runs != [] && |runs[0]| == 1)
            && (o.Done? && AdmitsExactly(o.ranges, stage) <==> NoneAlone(runs))
  {
    hide Increasing, Flatten, Taken, Admits;
    if NoneAlone(runs) {
      TakenIsBounds(runs, accepts);
      BoundsAdmitExactly(runs);
    } else {
      var j :| 0 <= j < |runs| && |runs[j]| <= 1;
      AloneIsNotAdmitted(stage, runs, accepts, j);
      InFlatten(runs, runs[j][0]);
    }
  }
}
