/** Dashboard series: joining variables by timestamp, evaluating a metric, downsampling. */
module MetricSeries {
  import opened Division

  /** A JavaScript value as far as the dashboard tells them apart: a finite number, NaN or an infinity,
      or anything whose type is not number. */
  datatype Js = Finite(r: real) | NotFinite | NotNumber

  datatype Sample = Sample(timestamp: int, value: Js)
  datatype Point = Point(timestamp: int, value: real)

  type Values = map<string, Js>
  type VariableData = map<string, seq<Sample>>

  /** Evaluating an expression; a thrown error is skipped like a value that is no number. */
  type Expression = Values -> Js

  datatype Evaluation = Series(points: seq<Point>) | NoVariables

  // ---- the join ----

  /** `new Map(points.map(..)).get(timestamp)`: the last sample at a timestamp counts, none is undefined. */
  function Lookup(samples: seq<Sample>, timestamp: int): Js {
    if samples == [] then NotNumber
    else if samples[|samples| - 1].timestamp == timestamp then samples[|samples| - 1].value
    else Lookup(samples[..|samples| - 1], timestamp)
  }

  /** The variable has a number at this time. */
  predicate HasNumber(data: VariableData, name: string, timestamp: int) {
    name in data && !Lookup(data[name], timestamp).NotNumber?
  }

  /** `v` is the value of the last sample at a timestamp. */
  predicate IsLastAt(samples: seq<Sample>, timestamp: int, v: Js) {
    exists i :: 0 <= i < |samples| && samples[i] == Sample(timestamp, v) && forall j :: i < j < |samples| ==> samples[j].timestamp != timestamp
  }

  /** A number, finite or not, is found exactly where the last sample at the time is one. */
  lemma {:induction false} LookupIff(samples: seq<Sample>, timestamp: int, v: Js)
    ensures !v.NotNumber? ==> (Lookup(samples, timestamp) == v <==> IsLastAt(samples, timestamp, v))
  {
    if samples != [] {
      var n := |samples| - 1;
      var init := samples[..n];
      if samples[n].timestamp != timestamp {
        LookupIff(init, timestamp, v);
        if i :| 0 <= i < |init| && init[i] == Sample(timestamp, v) && forall j :: i < j < |init| ==> init[j].timestamp != timestamp {
          assert samples[i] == Sample(timestamp, v);
        }
        if i :| 0 <= i < |samples| && samples[i] == Sample(timestamp, v) && forall j :: i < j < |samples| ==> samples[j].timestamp != timestamp {
          assert init[i] == Sample(timestamp, v);
        }
      }
    }
  }

  predicate HasAll(data: VariableData, used: seq<string>, timestamp: int) {
    forall i :: 0 <= i < |used| ==> HasNumber(data, used[i], timestamp)
  }

  function ValuesAt(data: VariableData, used: seq<string>, timestamp: int): Values
    requires HasAll(data, used, timestamp)
  {
    map name | name in used :: Lookup(data[name], timestamp)
  }

  /** The metric is defined at a time: every used variable has a number and the result is finite. */
  predicate Defined(expr: Expression, data: VariableData, used: seq<string>, timestamp: int) {
    HasAll(data, used, timestamp) && expr(ValuesAt(data, used, timestamp)).Finite?
  }

  function ValueAt(expr: Expression, data: VariableData, used: seq<string>, timestamp: int): real
    requires Defined(expr, data, used, timestamp)
  {
    expr(ValuesAt(data, used, timestamp)).r
  }

  /** The values of exactly the used variables, each a number and the last one sampled at the time. */
  ghost predicate IsJoin(values: Values, data: VariableData, used: seq<string>, timestamp: int) {
    && (forall name :: name in values <==> name in used)
    && (forall name :: name in values ==> name in data && !values[name].NotNumber? && IsLastAt(data[name], timestamp, values[name]))
  }

  /** The metric is defined where the used variables join and the expression is finite on the join, which is
      unique; that is its value. */
  lemma DefinedIff(expr: Expression, data: VariableData, used: seq<string>, timestamp: int, values: Values)
    ensures IsJoin(values, data, used, timestamp) ==>
              (Defined(expr, data, used, timestamp) <==> expr(values).Finite?)
    ensures IsJoin(values, data, used, timestamp) && expr(values).Finite? ==> ValueAt(expr, data, used, timestamp) == expr(values).r
    ensures Defined(expr, data, used, timestamp) ==> IsJoin(ValuesAt(data, used, timestamp), data, used, timestamp)
  {
    hide IsLastAt;
    if IsJoin(values, data, used, timestamp) {
      forall name | name in used ensures HasNumber(data, name, timestamp) && Lookup(data[name], timestamp) == values[name] {
        LookupIff(data[name], timestamp, values[name]);
      }
      assert HasAll(data, used, timestamp);
      assert ValuesAt(data, used, timestamp) == values;
    }
    if HasAll(data, used, timestamp) {
      forall name | name in used ensures name in data && !Lookup(data[name], timestamp).NotNumber? && IsLastAt(data[name], timestamp, Lookup(data[name], timestamp)) {
        var i :| 0 <= i < |used| && used[i] == name;
        assert HasNumber(data, used[i], timestamp);
        LookupIff(data[name], timestamp, Lookup(data[name], timestamp));
      }
    }
  }

  predicate Ascending(ts: seq<int>) {
    forall i, j :: 0 <= i < j < |ts| ==> ts[i] < ts[j]
  }

  function Times(points: seq<Point>): seq<int> {
    seq(|points|, i requires 0 <= i < |points| => points[i].timestamp)
  }

  /** The points are the metric: exactly the times it is defined at, each once and in order. */
  ghost predicate IsSeries(points: seq<Point>, expr: Expression, data: VariableData, used: seq<string>) {
    && Ascending(Times(points))
    && (forall p :: p in points ==> Defined(expr, data, used, p.timestamp) && p.value == ValueAt(expr, data, used, p.timestamp))
    && (forall t :: Defined(expr, data, used, t) ==> Point(t, ValueAt(expr, data, used, t)) in points)
  }

  /** Two faithful series of the same data are the same list. */
  lemma {:induction false} SeriesIsUnique(a: seq<Point>, b: seq<Point>, expr: Expression, data: VariableData, used: seq<string>)
    requires IsSeries(a, expr, data, used) && IsSeries(b, expr, data, used)
    ensures a == b
  {
    SameMembersSameOrder(a, b);
  }

  lemma {:induction false} SameMembersSameOrder(a: seq<Point>, b: seq<Point>)
    requires Ascending(Times(a)) && Ascending(Times(b)) && (forall p :: p in a <==> p in b)
    ensures a == b
  {
    if a != [] && b != [] {
      var x, y := a[|a| - 1], b[|b| - 1];
      assert x in b && y in a;
      var i :| 0 <= i < |b| && b[i] == x;
      var j :| 0 <= j < |a| && a[j] == y;
      assert Times(b)[i] == x.timestamp && Times(a)[j] == y.timestamp;
      assert Times(a)[|a| - 1] == x.timestamp && Times(b)[|b| - 1] == y.timestamp;
      var a1, b1 := a[..|a| - 1], b[..|b| - 1];
      assert forall k :: 0 <= k < |a1| ==> Times(a1)[k] == Times(a)[k];
      assert forall k :: 0 <= k < |b1| ==> Times(b1)[k] == Times(b)[k];
      forall p ensures p in a1 <==> p in b1 {
        if p in a1 { var k :| 0 <= k < |a1| && a1[k] == p; assert Times(a)[k] < Times(a)[|a| - 1]; assert p in a; }
        if p in b1 { var k :| 0 <= k < |b1| && b1[k] == p; assert Times(b)[k] < Times(b)[|b| - 1]; assert p in b; }
      }
      SameMembersSameOrder(a1, b1);
      assert a == a1 + [x] && b == b1 + [y];
    } else {
      FirstIsMember(a);
      FirstIsMember(b);
    }
  }

  lemma FirstIsMember(a: seq<Point>)
    ensures a == [] || exists p :: p in a
  {
    if a != [] { assert a[0] in a; }
  }

  // ---- evaluation ----

  lemma {:induction false} LookupHasSample(samples: seq<Sample>, timestamp: int)
    requires !Lookup(samples, timestamp).NotNumber?
    ensures exists s :: s in samples && s.timestamp == timestamp
  {
    if samples[|samples| - 1].timestamp != timestamp { LookupHasSample(samples[..|samples| - 1], timestamp); }
  }

  predicate IsLeast(s: set<int>, m: int) {
    m in s && forall x :: x in s ==> m <= x
  }

  lemma EmptyIfNone(s: set<int>)
    requires forall x :: x !in s
    ensures s == {}
  {
    forall x: int ensures x in s <==> x in {} {}
  }

  lemma Inhabited(s: set<int>)
    requires s != {}
    ensures exists x :: x in s
  {
    if forall x :: x !in s { EmptyIfNone(s); }
  }

  lemma {:induction false} LeastExists(s: set<int>) returns (m: int)
    requires s != {}
    ensures IsLeast(s, m)
    decreases s
  {
    Inhabited(s);
    m :| m in s;
    if s != {m} {
      var other := LeastExists(s - {m});
      forall x | x in s ensures x == m || other <= x { if x != m { assert x in s - {m}; } }
      if other < m { m := other; }
    }
  }

  /** `[...timestamps].sort((a, b) => a - b)`. */
  method SortTimestamps(timestamps: set<int>) returns (sorted: seq<int>)
    ensures Ascending(sorted) && forall t :: t in sorted <==> t in timestamps
  {
    var rest := timestamps;
    sorted := [];
    while rest != {}
      invariant Ascending(sorted)
      invariant forall t :: t in timestamps <==> t in sorted || t in rest
      invariant forall t, u :: t in sorted && u in rest ==> t < u
      decreases rest
    {
      ghost var least := LeastExists(rest);
      var m :| m in rest && forall x :: x in rest ==> m <= x;
      forall k | 0 <= k < |sorted| ensures sorted[k] < m { assert sorted[k] in sorted; }
      sorted, rest := sorted + [m], rest - {m};
    }
  }

  /** The union of the timestamps of all variables. */
  method CollectTimestamps(data: VariableData) returns (timestamps: set<int>)
    ensures forall t :: t in timestamps <==> exists name :: name in data && exists s :: s in data[name] && s.timestamp == t
  {
    timestamps := {};
    var names := data.Keys;
    while names != {}
      invariant names <= data.Keys
      invariant forall t :: t in timestamps <==> exists name :: name in data && name !in names && exists s :: s in data[name] && s.timestamp == t
      decreases names
    {
      var name :| name in names;
      timestamps := timestamps + set s | s in data[name] :: s.timestamp;
      names := names - {name};
    }
  }

  /** `evaluateMetricTimeSeries` once its data is there. */
  method EvaluateMetric(expr: Expression, data: VariableData, used: seq<string>) returns (result: Evaluation)
    ensures result.NoVariables? <==> used == []
    ensures result.Series? ==> IsSeries(result.points, expr, data, used)
  {
    if used == [] { return NoVariables; }
    var timestamps := CollectTimestamps(data);
    var sorted := SortTimestamps(timestamps);
    var points: seq<Point> := [];
    for i := 0 to |sorted|
      invariant Ascending(Times(points))
      invariant forall p :: p in points ==> p.timestamp in sorted[..i]
      invariant forall p :: p in points ==> Defined(expr, data, used, p.timestamp) && p.value == ValueAt(expr, data, used, p.timestamp)
      invariant forall k :: 0 <= k < i && Defined(expr, data, used, sorted[k]) ==> Point(sorted[k], ValueAt(expr, data, used, sorted[k])) in points
    {
      var t := sorted[i];
      var complete := AllNumbers(data, used, t);
      if complete {
        var value := expr(ValuesAt(data, used, t));
        if value.Finite? {
          AppendAscending(points, Point(t, value.r), sorted, i);
          points := points + [Point(t, value.r)];
        }
      }
    }
    forall t | Defined(expr, data, used, t) ensures t in sorted {
      assert HasNumber(data, used[0], t);
      LookupHasSample(data[used[0]], t);
    }
    return Series(points);
  }

  lemma AppendAscending(points: seq<Point>, p: Point, sorted: seq<int>, i: nat)
    requires i < |sorted| && Ascending(sorted) && Ascending(Times(points)) && p.timestamp == sorted[i]
    requires forall q :: q in points ==> q.timestamp in sorted[..i]
    ensures Ascending(Times(points + [p]))
  {
    forall k | 0 <= k < |points| ensures points[k].timestamp < p.timestamp {
      assert points[k] in points;
      var j :| 0 <= j < i && sorted[j] == points[k].timestamp;
    }
    var ts := Times(points + [p]);
    assert forall k :: 0 <= k < |points| ==> ts[k] == Times(points)[k];
  }

  /** The inner loop over the used variables. */
  method AllNumbers(data: VariableData, used: seq<string>, timestamp: int) returns (all: bool)
    ensures all <==> HasAll(data, used, timestamp)
  {
    for i := 0 to |used|
      invariant HasAll(data, used[..i], timestamp)
    {
      if !HasNumber(data, used[i], timestamp) { return false; }
      assert used[..i + 1] == used[..i] + [used[i]];
    }
    assert used[..|used|] == used;
    all := true;
  }

  // ---- downsampling ----

  /** The source index of output `i`, for exact division. */
  function Index(i: nat, n: nat, max: nat): int
    requires max >= 2
  {
    if i == max - 1 then n - 1 else i * n / (max - 1)
  }

  /** `downsamplePoints`, with its step taken exactly. */
  method DownsamplePoints<T>(points: seq<T>, max: nat) returns (result: seq<T>)
    ensures |points| <= max ==> result == points
    ensures |points| > max && max < 2 ==> result == [points[|points| - 1]]
    ensures |points| > max >= 2 ==> |result| == max && forall i :: 0 <= i < max ==>
              0 <= Index(i, |points|, max) < |points| && result[i] == points[Index(i, |points|, max)]
  {
    if |points| <= max { return points; }
    result := [];
    var i := 0;
    while i < max - 1
      invariant 0 <= i && |result| == i && (max >= 1 ==> i <= max - 1) && (max == 0 ==> i == 0)
      invariant max >= 2 ==> forall k :: 0 <= k < i ==>
                  0 <= Index(k, |points|, max) < |points| && result[k] == points[Index(k, |points|, max)]
    {
      IndexSteps(i, |points|, max);
      result := result + [points[i * |points| / (max - 1)]];
      i := i + 1;
    }
    result := result + [points[|points| - 1]];
  }

  /** Kept indices start at the first point, end at the last and strictly increase, by no more than the
      step rounded up. */
  lemma IndexSteps(i: nat, n: nat, max: nat)
    requires n > max >= 2 && i < max - 1
    ensures Index(0, n, max) == 0 && Index(max - 1, n, max) == n - 1
    ensures 0 <= Index(i, n, max) < Index(i + 1, n, max) < n
    ensures Index(i + 1, n, max) - Index(i, n, max) <= n / (max - 1) + 1
  {
    hide Index;
    IndexEnds(n, max);
    if i + 2 < max { InnerStep(i, n, max); } else { LastStep(i, n, max); }
  }

  /** Before the last, the index is the step number times the step, rounded down. */
  lemma IndexIsFloor(i: nat, n: nat, max: nat)
    requires i < max - 1
    ensures (max - 1) * Index(i, n, max) <= i * n < (max - 1) * Index(i, n, max) + (max - 1)
  {
    Divided(i * n, max - 1);
  }

  lemma IndexEnds(n: nat, max: nat)
    requires max >= 2
    ensures Index(0, n, max) == 0 && Index(max - 1, n, max) == n - 1
  {
    ZeroIndex(n, max - 1);
  }

  lemma ZeroIndex(n: nat, d: nat)
    requires d > 0
    ensures 0 * n / d == 0
  {}

  lemma InnerStep(i: nat, n: nat, max: nat)
    requires n > max && i + 2 < max
    ensures 0 <= Index(i, n, max) < Index(i + 1, n, max) < n
    ensures Index(i + 1, n, max) - Index(i, n, max) <= n / (max - 1) + 1
  {
    var d, a, b := max - 1, i * n, (i + 1) * n;
    assert b == a + n;
    StepBounds(a, b, n, d);
    LastBelow(i + 1, n, d);
    NotNegative(a, d);
  }

  lemma NotNegative(a: nat, d: nat)
    requires d > 0
    ensures a / d >= 0
  {}

  /** The jump to the last point is no longer than a step. */
  lemma LastStep(i: nat, n: nat, max: nat)
    requires n > max && i + 2 == max
    ensures 0 <= Index(i, n, max) < Index(i + 1, n, max) < n
    ensures Index(i + 1, n, max) - Index(i, n, max) <= n / (max - 1) + 1
  {
    var d, a := max - 1, i * n;
    assert (i + 1) * n == a + n == d * n;
    StepBounds(a, d * n, n, d);
    QuotientUnique(d * n, d, n);
    LastBelow(i, n, d);
    NotNegative(a, d);
  }

  lemma StepBounds(a: nat, b: nat, n: nat, d: nat)
    requires d > 0 && n > d && b == a + n
    ensures a / d + 1 <= b / d <= a / d + n / d + 1
  {
    var q, r, p, t := a / d, a % d, n / d, n % d;
    Divided(a, d);
    Divided(n, d);
    Sum(d, q, p);
    Squeeze(b, d, q + p, r + t);
    AtLeastOne(n, d);
  }

  lemma Sum(d: nat, q: nat, p: nat)
    ensures d * (q + p) == d * q + d * p
  {}

  lemma AtLeastOne(n: nat, d: nat)
    requires 0 < d <= n
    ensures n / d >= 1
  {}

  lemma Squeeze(n: nat, d: nat, q: nat, r: nat)
    requires d > 0 && n == d * q + r && r < 2 * d
    ensures q <= n / d <= q + 1
  {
    if r < d {
      QuotientUnique(n, d, q);
    } else {
      Sum(d, q, 1);
      QuotientUnique(n, d, q + 1);
    }
  }

  /** Computed indices stay at least two below the number of points. */
  lemma LastBelow(i: nat, n: nat, d: nat)
    requires d > 0 && n > d + 1 && i < d
    ensures i * n / d <= n - 2
  {
    var q := i * n / d;
    Divided(i * n, d);
    Bound(i, n, d);
    if q > n - 2 { NoLess(d, n - 1, q); }
  }

  lemma Bound(i: nat, n: nat, d: nat)
    requires d > 0 && n > d + 1 && i < d
    ensures i * n < d * (n - 1)
  {
    assert i * n <= (d - 1) * n;
    assert (d - 1) * n == d * n - n;
    assert d * (n - 1) == d * n - d;
  }

  lemma NoLess(d: nat, a: nat, b: nat)
    requires a <= b
    ensures d * a <= d * b
  {}

  lemma {:induction false} IndexMonotone(i: nat, j: nat, n: nat, max: nat)
    requires n > max >= 2 && i < j < max
    ensures 0 <= Index(i, n, max) < Index(j, n, max) < n
  {
    IndexSteps(j - 1, n, max);
    if i < j - 1 { IndexMonotone(i, j - 1, n, max); }
  }

  /** What a chart plots: the metric's points, thinned to 500. */
  method PlottedPoints(expr: Expression, data: VariableData, used: seq<string>) returns (plotted: seq<Point>, series: seq<Point>)
    ensures if used == [] then series == [] else IsSeries(series, expr, data, used)
    ensures |plotted| == if |series| > 500 then 500 else |series|
    ensures Ascending(Times(plotted)) && forall p :: p in plotted ==> p in series
    ensures series != [] ==> plotted[0] == series[0] && plotted[|plotted| - 1] == series[|series| - 1]
  {
    var result := EvaluateMetric(expr, data, used);
    var points := if result.Series? then result.points else [];
    series := points;
    plotted := DownsamplePoints(points, 500);
    if |points| > 500 {
      IndexSteps(0, |points|, 500);
      forall i, j | 0 <= i < j < 500 ensures Times(plotted)[i] < Times(plotted)[j] {
        IndexMonotone(i, j, |points|, 500);
        assert Times(points)[Index(i, |points|, 500)] < Times(points)[Index(j, |points|, 500)];
      }
    }
  }
}
