/** List scheduling on `m` equal bins. */
module Scheduling {
  /*
    Each job, in the given order, goes to the first bin of least load. A schedule is an assignment
    `a` with `a[i]` the bin of job `i`; weights are non-negative reals (bytes, or measured seconds).
   */


  ghost predicate NonNegative(ws: seq<real>) {
    forall i :: 0 <= i < |ws| ==> ws[i] >= 0.0
  }

  ghost predicate HeaviestFirst(ws: seq<real>) {
    forall i, j :: 0 <= i < j < |ws| ==> ws[i] >= ws[j]
  }

  predicate IsSchedule(a: seq<nat>, jobs: nat, m: nat) {
    |a| == jobs && forall i :: 0 <= i < |a| ==> a[i] < m
  }

  function Sum(ws: seq<real>): real {
    if ws == [] then 0.0 else Sum(ws[..|ws| - 1]) + ws[|ws| - 1]
  }

  function Load(ws: seq<real>, a: seq<nat>, b: nat): real
    requires |a| == |ws|
  {
    if ws == [] then 0.0
    else
      var n := |ws| - 1;
      Load(ws[..n], a[..n], b) + (if a[n] == b then ws[n] else 0.0)
  }

  function Loads(ws: seq<real>, a: seq<nat>, m: nat): (loads: seq<real>)
    requires |a| == |ws|
    ensures |loads| == m
    ensures forall b :: 0 <= b < m ==> loads[b] == Load(ws, a, b)
  {
    seq(m, b requires 0 <= b < m => Load(ws, a, b))
  }

  ghost predicate IsMakespan(ws: seq<real>, a: seq<nat>, m: nat, span: real) {
    && IsSchedule(a, |ws|, m)
    && (exists b :: 0 <= b < m && Load(ws, a, b) == span)
    && (forall b :: 0 <= b < m ==> Load(ws, a, b) <= span)
  }

  /** The first bin of least load, as a left fold keeping the current minimum finds it. */
  function Lightest(loads: seq<real>): (k: nat)
    requires loads != []
    ensures k < |loads|
    ensures forall b :: 0 <= b < |loads| ==> loads[k] <= loads[b]
    ensures forall b :: 0 <= b < k ==> loads[k] < loads[b]
  {
    if |loads| == 1 then 0
    else
      var n := |loads| - 1;
      var p := Lightest(loads[..n]);
      if loads[n] < loads[p] then n else p
  }

  function Greedy(ws: seq<real>, m: nat): (a: seq<nat>)
    requires m >= 1
    ensures IsSchedule(a, |ws|, m)
  {
    if ws == [] then []
    else
      var n := |ws| - 1;
      var a := Greedy(ws[..n], m);
      a + [Lightest(Loads(ws[..n], a, m))]
  }

  // ---------- total load ----------

  function TotalLoad(ws: seq<real>, a: seq<nat>, m: nat): real
    requires |a| == |ws|
  {
    if m == 0 then 0.0 else TotalLoad(ws, a, m - 1) + Load(ws, a, m - 1)
  }

  lemma {:induction false} TotalLoadSplit(ws: seq<real>, a: seq<nat>, m: nat)
    requires |a| == |ws| > 0
    ensures var n := |ws| - 1;
            TotalLoad(ws, a, m) == TotalLoad(ws[..n], a[..n], m) + (if a[n] < m then ws[n] else 0.0)
  {
    if m > 0 { TotalLoadSplit(ws, a, m - 1); }
  }

  /** Whatever the schedule, the bins together carry every job exactly once. */
  lemma {:induction false} TotalLoadIsSum(ws: seq<real>, a: seq<nat>, m: nat)
    requires IsSchedule(a, |ws|, m)
    ensures TotalLoad(ws, a, m) == Sum(ws)
  {
    if ws == [] {
      TotalLoadEmpty(m);
    } else {
      var n := |ws| - 1;
      TotalLoadSplit(ws, a, m);
      TotalLoadIsSum(ws[..n], a[..n], m);
    }
  }

  lemma {:induction false} TotalLoadEmpty(m: nat)
    ensures TotalLoad([], [], m) == 0.0
  {
    if m > 0 { TotalLoadEmpty(m - 1); }
  }

  lemma {:induction false} TotalAtLeast(ws: seq<real>, a: seq<nat>, m: nat, x: real)
    requires |a| == |ws|
    requires forall b :: 0 <= b < m ==> Load(ws, a, b) >= x
    ensures TotalLoad(ws, a, m) >= m as real * x
  {
    if m > 0 {
      TotalAtLeast(ws, a, m - 1, x);
      assert m as real * x == (m - 1) as real * x + x;
    }
  }

  lemma {:induction false} TotalAtMost(ws: seq<real>, a: seq<nat>, m: nat, x: real)
    requires |a| == |ws|
    requires forall b :: 0 <= b < m ==> Load(ws, a, b) <= x
    ensures TotalLoad(ws, a, m) <= m as real * x
  {
    if m > 0 {
      TotalAtMost(ws, a, m - 1, x);
      assert m as real * x == (m - 1) as real * x + x;
    }
  }

  lemma {:induction false} LoadNonNegative(ws: seq<real>, a: seq<nat>, b: nat)
    requires |a| == |ws| && NonNegative(ws)
    ensures Load(ws, a, b) >= 0.0
  {
    if ws != [] { LoadNonNegative(ws[..|ws| - 1], a[..|ws| - 1], b); }
  }

  // ---------- list schedules ----------

  /** The last job went to a bin that was, before it, no heavier than any other. */
  ghost predicate LastToLightest(ws: seq<real>, a: seq<nat>, m: nat) {
    && IsSchedule(a, |ws|, m) && ws != []
    && var n := |ws| - 1;
       forall b :: 0 <= b < m ==> Load(ws[..n], a[..n], a[n]) <= Load(ws[..n], a[..n], b)
  }

  /** Every job, in order, went to a least loaded bin: what the bounds below need, ties broken anyhow. */
  ghost predicate ListSchedule(ws: seq<real>, a: seq<nat>, m: nat) {
    && IsSchedule(a, |ws|, m)
    && (ws == [] || (LastToLightest(ws, a, m) && ListSchedule(ws[..|ws| - 1], a[..|ws| - 1], m)))
  }

  lemma {:induction false} GreedyIsListSchedule(ws: seq<real>, m: nat)
    requires m >= 1
    ensures ListSchedule(ws, Greedy(ws, m), m)
  {
    if ws != [] {
      var n := |ws| - 1;
      var a := Greedy(ws, m);
      assert a[..n] == Greedy(ws[..n], m);
      GreedyIsListSchedule(ws[..n], m);
      var loads := Loads(ws[..n], a[..n], m);
      assert a[n] == Lightest(loads);
      forall b | 0 <= b < m ensures Load(ws[..n], a[..n], a[n]) <= Load(ws[..n], a[..n], b) {
        assert loads[a[n]] <= loads[b];
      }
    }
  }

  /** Two bins never differ by more than the heaviest job. */
  lemma {:induction false} Spread(ws: seq<real>, a: seq<nat>, m: nat, heaviest: real, b: nat, c: nat)
    requires b < m && c < m && NonNegative(ws) && ListSchedule(ws, a, m)
    requires heaviest >= 0.0 && forall i :: 0 <= i < |ws| ==> ws[i] <= heaviest
    ensures Load(ws, a, b) - Load(ws, a, c) <= heaviest
  {
    if ws != [] {
      Spread(ws[..|ws| - 1], a[..|ws| - 1], m, heaviest, b, c);
    }
  }

  // ---------- Graham's bound ----------

  /**
    Jobs scored against a threshold `t`: 2 for one heavier than `t`, 1 otherwise. With
    `t = T - w` a job scoring 2 shares its bin with nobody in a schedule of makespan `T`.
   */
  function Scores(ws: seq<real>, t: real): (s: seq<real>)
    ensures |s| == |ws|
    ensures forall i :: 0 <= i < |ws| ==> s[i] == if ws[i] > t then 2.0 else 1.0
  {
    seq(|ws|, i requires 0 <= i < |ws| => if ws[i] > t then 2.0 else 1.0)
  }

  lemma ScoresPrefix(ws: seq<real>, t: real)
    requires ws != []
    ensures Scores(ws, t)[..|ws| - 1] == Scores(ws[..|ws| - 1], t)
  {
  }

  /** Jobs all of weight at least `w > T/3`: a bin of load at most `T` scores at most 2. */
  lemma {:induction false} ScoreAtMostTwo(ws: seq<real>, a: seq<nat>, b: nat, w: real, T: real)
    requires |a| == |ws| && 0.0 <= w && 3.0 * w > T
    requires forall i :: 0 <= i < |ws| ==> ws[i] >= w
    ensures var l, s := Load(ws, a, b), Load(Scores(ws, T - w), a, b);
            || (s == 0.0 && l == 0.0)
            || (s == 1.0 && l >= w)
            || (s == 2.0 && (l >= 2.0 * w || l > T - w))
            || (s >= 3.0 && l > T)
  {
    if ws != [] {
      var n := |ws| - 1;
      ScoresPrefix(ws, T - w);
      ScoreAtMostTwo(ws[..n], a[..n], b, w, T);
    }
  }

  /** A bin scoring less than 2 holds at most one job, and that job is not above the threshold. */
  lemma {:induction false} ScoreAtLeastTwo(ws: seq<real>, a: seq<nat>, b: nat, t: real)
    requires |a| == |ws| && t >= 0.0
    ensures var l, s := Load(ws, a, b), Load(Scores(ws, t), a, b);
            (s == 0.0 && l == 0.0) || (s == 1.0 && l <= t) || s >= 2.0
  {
    if ws != [] {
      var n := |ws| - 1;
      ScoresPrefix(ws, t);
      ScoreAtLeastTwo(ws[..n], a[..n], b, t);
    }
  }

  /** When the first `k` bins are loaded above `t`, their jobs score at least 2k. */
  lemma {:induction false} ScoresFillBins(ws: seq<real>, a: seq<nat>, k: nat, t: real)
    requires |a| == |ws| && t >= 0.0
    requires forall b :: 0 <= b < k ==> Load(ws, a, b) > t
    ensures TotalLoad(Scores(ws, t), a, k) >= 2.0 * k as real
  {
    if k > 0 {
      assert Load(ws, a, k - 1) > t;
      ScoreAtLeastTwo(ws, a, k - 1, t);
      ScoresFillBins(ws, a, k - 1, t);
    }
  }

  /** In a schedule of makespan T the first `k` bins score at most 2k. */
  lemma {:induction false} ScoresFitBins(ws: seq<real>, a: seq<nat>, k: nat, w: real, T: real)
    requires |a| == |ws| && 0.0 <= w && 3.0 * w > T
    requires forall i :: 0 <= i < |ws| ==> ws[i] >= w
    requires forall b :: 0 <= b < k ==> Load(ws, a, b) <= T
    ensures TotalLoad(Scores(ws, T - w), a, k) <= 2.0 * k as real
  {
    if k > 0 {
      assert Load(ws, a, k - 1) <= T;
      ScoreAtMostTwo(ws, a, k - 1, w, T);
      ScoresFitBins(ws, a, k - 1, w, T);
    }
  }

  /** When every job is heavier than T/3, heaviest-first is as good as any schedule of makespan T. */
  lemma OptimalOnHeavyJobs(ws: seq<real>, a: seq<nat>, m: nat, other: seq<nat>, T: real)
    requires LastToLightest(ws, a, m) && NonNegative(ws) && HeaviestFirst(ws)
    requires IsSchedule(other, |ws|, m)
    requires forall b :: 0 <= b < m ==> Load(ws, other, b) <= T
    requires 3.0 * ws[|ws| - 1] > T
    ensures Load(ws, a, a[|ws| - 1]) <= T
  {
    var n := |ws| - 1;
    var w := ws[n];
    var t := T - w;
    LoadNonNegative(ws[..n], other[..n], other[n]);
    assert Load(ws, other, other[n]) <= T;
    ScoresPrefix(ws, t);
    assert Sum(Scores(ws, t)) >= Sum(Scores(ws[..n], t)) + 1.0;
    ScoresFitBins(ws, other, m, w, T);
    TotalLoadIsSum(Scores(ws, t), other, m);
    TotalLoadIsSum(Scores(ws[..n], t), a[..n], m);
    if Load(ws[..n], a[..n], a[n]) > t {
      ScoresFillBins(ws[..n], a[..n], m, t);
    }
  }

  /**
    The bin that received the last job: its load times `m` exceeds the total only by the last job,
    counted `m - 1` times.
   */
  lemma LastJobBound(ws: seq<real>, a: seq<nat>, m: nat)
    requires LastToLightest(ws, a, m)
    ensures m as real * Load(ws, a, a[|ws| - 1]) <= Sum(ws) + (m - 1) as real * ws[|ws| - 1]
  {
    var n := |ws| - 1;
    var before := Load(ws[..n], a[..n], a[n]);
    TotalAtLeast(ws[..n], a[..n], m, before);
    TotalLoadIsSum(ws[..n], a[..n], m);
    Distribute(m, before, ws[n]);
  }

  lemma Distribute(m: nat, x: real, w: real)
    requires m >= 1
    ensures m as real * (x + w) == m as real * x + (m - 1) as real * w + w
  {
  }

  /** `span <= (4/3 - 1/(3m)) * T`, multiplied out. */
  ghost predicate WithinGraham(m: nat, span: real, T: real) {
    3.0 * (m as real * span) <= 4.0 * (m as real * T) - T
  }

  /** The arithmetic of both cases of Graham's argument. */
  lemma RatioArithmetic(m: nat, l: real, w: real, T: real)
    requires m >= 1 && T >= 0.0
    requires l <= T || (m as real * l <= m as real * T + (m - 1) as real * w && 3.0 * w <= T)
    ensures WithinGraham(m, l, T)
  {
    var k := m as real;
    assert (m - 1) as real == k - 1.0;
    assert k * T == (k - 1.0) * T + T;
    assert (k - 1.0) * T >= 0.0;
    if l <= T {
      assert k * l <= k * T;
    } else {
      var j := k - 1.0;
      assert j * w <= j * (T / 3.0) by { assert j >= 0.0 && w <= T / 3.0; }
      assert 3.0 * (j * (T / 3.0)) == j * T;
    }
  }

  lemma LastJobRatio(ws: seq<real>, a: seq<nat>, m: nat, other: seq<nat>, T: real)
    requires LastToLightest(ws, a, m) && NonNegative(ws) && HeaviestFirst(ws)
    requires IsSchedule(other, |ws|, m)
    requires forall b :: 0 <= b < m ==> Load(ws, other, b) <= T
    ensures WithinGraham(m, Load(ws, a, a[|ws| - 1]), T)
  {
    var n := |ws| - 1;
    LoadNonNegative(ws, other, 0);
    assert Load(ws, other, 0) <= T;
    if 3.0 * ws[n] > T {
      OptimalOnHeavyJobs(ws, a, m, other, T);
    } else {
      LastJobBound(ws, a, m);
      TotalAtMost(ws, other, m, T);
      TotalLoadIsSum(ws, other, m);
    }
    RatioArithmetic(m, Load(ws, a, a[n]), ws[n], T);
  }

  /**
    Graham (1969): every bin of a heaviest-first list schedule is within 4/3 - 1/(3m) of the
    makespan of every schedule of the same jobs.
   */
  lemma {:induction false} GrahamBin(ws: seq<real>, a: seq<nat>, m: nat, b: nat, other: seq<nat>, T: real)
    requires b < m && ListSchedule(ws, a, m) && NonNegative(ws) && HeaviestFirst(ws)
    requires IsSchedule(other, |ws|, m)
    requires forall c :: 0 <= c < m ==> Load(ws, other, c) <= T
    ensures WithinGraham(m, Load(ws, a, b), T)
  {
    if ws == [] {
      assert Load(ws, other, 0) <= T;
      RatioArithmetic(m, 0.0, 0.0, T);
    } else {
      var n := |ws| - 1;
      if a[n] == b {
        LastJobRatio(ws, a, m, other, T);
      } else {
        forall c | 0 <= c < m ensures Load(ws[..n], other[..n], c) <= T {
          assert Load(ws, other, c) <= T;
        }
        GrahamBin(ws[..n], a[..n], m, b, other[..n], T);
      }
    }
  }

  /** The least makespan any schedule reaches. */
  ghost predicate IsOptimum(ws: seq<real>, m: nat, opt: real) {
    && (exists a :: IsMakespan(ws, a, m, opt))
    && (forall a, span :: IsMakespan(ws, a, m, span) ==> opt <= span)
  }

  /** Graham's bound against the optimum. */
  lemma GrahamBound(ws: seq<real>, a: seq<nat>, m: nat, span: real, opt: real)
    requires ListSchedule(ws, a, m) && NonNegative(ws) && HeaviestFirst(ws)
    requires IsMakespan(ws, a, m, span) && IsOptimum(ws, m, opt)
    ensures WithinGraham(m, span, opt)
  {
    var other :| IsMakespan(ws, other, m, opt);
    var b :| 0 <= b < m && Load(ws, a, b) == span;
    GrahamBin(ws, a, m, b, other, opt);
  }

  lemma GreedyRun() returns (s: TwoBins)
    ensures Describes(s) && s.list && s.ws == [3.0, 3.0, 2.0, 2.0, 2.0] && s.left == 7.0 && s.right == 5.0
  {
    s := Assign(Assign(Assign(Assign(Assign(Start(), 3.0, 0), 3.0, 1), 2.0, 0), 2.0, 1), 2.0, 0);
    assert s.ws == [3.0, 3.0, 2.0, 2.0, 2.0];
  }

  lemma BetterRun() returns (s: TwoBins)
    ensures Describes(s) && s.ws == [3.0, 3.0, 2.0, 2.0, 2.0] && s.left == 6.0 == s.right
  {
    s := Assign(Assign(Assign(Assign(Assign(Start(), 3.0, 0), 3.0, 0), 2.0, 1), 2.0, 1), 2.0, 1);
    assert s.ws == [3.0, 3.0, 2.0, 2.0, 2.0];
  }

  /** The factor cannot be lowered for two bins: jobs 3, 3, 2, 2, 2 reach it. */
  lemma GrahamTightOnTwoBins() returns (ws: seq<real>, a: seq<nat>)
    ensures NonNegative(ws) && HeaviestFirst(ws) && ListSchedule(ws, a, 2)
    ensures IsMakespan(ws, a, 2, 7.0) && IsOptimum(ws, 2, 6.0)
    ensures 3.0 * (2.0 * 7.0) == 4.0 * (2.0 * 6.0) - 6.0
  {
    var greedy := GreedyRun();
    var better := BetterRun();
    ws, a := greedy.ws, greedy.a;
    assert Load(ws, a, 0) == 7.0;
    EvenSplitIsOptimum(ws, better.a, 6.0);
  }

  lemma EvenSplitIsOptimum(ws: seq<real>, a: seq<nat>, half: real)
    requires IsSchedule(a, |ws|, 2) && Load(ws, a, 0) == half == Load(ws, a, 1)
    ensures IsOptimum(ws, 2, half)
  {
    assert IsMakespan(ws, a, 2, half);
    TotalLoadIsSum(ws, a, 2);
    assert TotalLoad(ws, a, 1) == half;
    forall o, span | IsMakespan(ws, o, 2, span) ensures half <= span {
      TotalAtMost(ws, o, 2, span);
      TotalLoadIsSum(ws, o, 2);
    }
  }

  /** A schedule on two bins, with its loads and whether every job went to a lightest bin. */
  datatype TwoBins = TwoBins(ws: seq<real>, a: seq<nat>, left: real, right: real, list: bool)

  ghost predicate Describes(s: TwoBins) {
    && IsSchedule(s.a, |s.ws|, 2)
    && Load(s.ws, s.a, 0) == s.left && Load(s.ws, s.a, 1) == s.right
    && (s.list ==> ListSchedule(s.ws, s.a, 2))
  }

  function Start(): (s: TwoBins)
    ensures Describes(s)
  {
    TwoBins([], [], 0.0, 0.0, true)
  }

  function Assign(s: TwoBins, w: real, b: nat): (t: TwoBins)
    requires b < 2 && Describes(s)
    ensures Describes(t)
  {
    assert (s.ws + [w])[..|s.ws|] == s.ws && (s.a + [b])[..|s.a|] == s.a;
    if b == 0 then TwoBins(s.ws + [w], s.a + [b], s.left + w, s.right, s.list && s.left <= s.right)
    else TwoBins(s.ws + [w], s.a + [b], s.left, s.right + w, s.list && s.right <= s.left)
  }
}
