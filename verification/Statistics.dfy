/** Nearest-rank percentiles, the percentile bootstrap and the distribution summary, in exact
    arithmetic. */
module Statistics {
  import SplitMix

  datatype Result<+T> = Ok(value: T) | NoValue | Error

  // ---- Sorting and counting ----

  ghost predicate Ascending(s: seq<real>) { forall i, j :: 0 <= i < j < |s| ==> s[i] <= s[j] }

  function Insert(s: seq<real>, v: real): seq<real> {
    if s == [] || s[|s| - 1] <= v then s + [v] else Insert(s[..|s| - 1], v) + [s[|s| - 1]]
  }

  function Sort(s: seq<real>): seq<real> {
    if s == [] then [] else Insert(Sort(s[..|s| - 1]), s[|s| - 1])
  }

  function CountLe(s: seq<real>, v: real): nat {
    if s == [] then 0 else CountLe(s[..|s| - 1], v) + if s[|s| - 1] <= v then 1 else 0
  }

  function CountLt(s: seq<real>, v: real): nat {
    if s == [] then 0 else CountLt(s[..|s| - 1], v) + if s[|s| - 1] < v then 1 else 0
  }

  lemma Snoc(s: seq<real>, v: real, w: real)
    ensures (s + [v])[..|s|] == s
    ensures CountLe(s + [v], w) == CountLe(s, w) + (if v <= w then 1 else 0)
    ensures CountLt(s + [v], w) == CountLt(s, w) + (if v < w then 1 else 0)
  {
    assert (s + [v])[..|s|] == s;
  }

  lemma {:induction false} InsertMembers(s: seq<real>, v: real)
    ensures multiset(Insert(s, v)) == multiset(s) + multiset{v} && |Insert(s, v)| == |s| + 1
    decreases |s|
  {
    if s != [] && s[|s| - 1] > v {
      var init, last := s[..|s| - 1], s[|s| - 1];
      InsertMembers(init, v);
      assert s == init + [last];
    }
  }

  lemma {:induction false} InsertAscends(s: seq<real>, v: real)
    requires Ascending(s)
    ensures Ascending(Insert(s, v))
    decreases |s|
  {
    if s == [] || s[|s| - 1] <= v {
      AppendMax(s, v);
    } else {
      var init, last := s[..|s| - 1], s[|s| - 1];
      InsertAscends(init, v);
      InsertMembers(init, v);
      var t := Insert(init, v);
      forall i | 0 <= i < |t| ensures t[i] <= last {
        assert t[i] in multiset(init) + multiset{v};
      }
      AppendMax(t, last);
    }
  }

  lemma AppendMax(s: seq<real>, v: real)
    requires Ascending(s) && forall i :: 0 <= i < |s| ==> s[i] <= v
    ensures Ascending(s + [v])
  {
  }

  lemma {:induction false} InsertCounts(s: seq<real>, v: real, w: real)
    ensures CountLe(Insert(s, v), w) == CountLe(s, w) + (if v <= w then 1 else 0)
    ensures CountLt(Insert(s, v), w) == CountLt(s, w) + (if v < w then 1 else 0)
    decreases |s|
  {
    if s == [] || s[|s| - 1] <= v {
      Snoc(s, v, w);
    } else {
      InsertCounts(s[..|s| - 1], v, w);
      Snoc(Insert(s[..|s| - 1], v), s[|s| - 1], w);
    }
  }

  lemma {:induction false} SortLaws(s: seq<real>)
    ensures Ascending(Sort(s)) && |Sort(s)| == |s| && multiset(Sort(s)) == multiset(s)
  {
    if s != [] {
      SortLaws(s[..|s| - 1]);
      InsertAscends(Sort(s[..|s| - 1]), s[|s| - 1]);
      InsertMembers(Sort(s[..|s| - 1]), s[|s| - 1]);
      assert s == s[..|s| - 1] + [s[|s| - 1]];
    }
  }

  lemma {:induction false} SortCounts(s: seq<real>, w: real)
    ensures CountLe(Sort(s), w) == CountLe(s, w) && CountLt(Sort(s), w) == CountLt(s, w)
  {
    if s != [] {
      SortCounts(s[..|s| - 1], w);
      InsertCounts(Sort(s[..|s| - 1]), s[|s| - 1], w);
    }
  }

  lemma {:induction false} CountBounds(s: seq<real>, v: real)
    ensures CountLt(s, v) <= CountLe(s, v) <= |s|
  {
    if s != [] { CountBounds(s[..|s| - 1], v); }
  }

  /** In an ascending sequence the element at `r` has at least `r + 1` at or below it and at most
      `r` strictly below. */
  lemma {:induction false} RankCounts(s: seq<real>, r: nat)
    requires Ascending(s) && r < |s|
    ensures CountLe(s, s[r]) >= r + 1 && CountLt(s, s[r]) <= r
    decreases |s|
  {
    var init := s[..|s| - 1];
    if r < |s| - 1 {
      RankCounts(init, r);
      assert init[r] == s[r] && s[r] <= s[|s| - 1];
    } else {
      AllAtOrBelow(init, s[r]);
      CountBounds(init, s[r]);
    }
  }

  lemma {:induction false} AllAtOrBelow(s: seq<real>, v: real)
    requires forall i :: 0 <= i < |s| ==> s[i] <= v
    ensures CountLe(s, v) == |s|
  {
    if s != [] { AllAtOrBelow(s[..|s| - 1], v); }
  }

  lemma {:induction false} CountsMonotone(s: seq<real>, v: real, w: real)
    requires v < w
    ensures CountLe(s, v) <= CountLt(s, w)
  {
    if s != [] { CountsMonotone(s[..|s| - 1], v, w); }
  }

  // ---- The nearest-rank percentile ----

  function Ceiling(x: real): int { -((-x).Floor) }

  /** How many sample values the percentile must cover: at least one. */
  function Required(percent: real, n: nat): int {
    var c := Ceiling(percent / 100.0 * n as real);
    if c < 1 then 1 else c
  }

  lemma RequiredInRange(percent: real, n: nat)
    requires 0.0 <= percent <= 100.0 && n > 0
    ensures 1 <= Required(percent, n) <= n
  {
    assert percent / 100.0 <= 1.0;
    assert percent / 100.0 * n as real <= n as real;
  }

  function Percentile(values: seq<real>, percent: real): Result<real> {
    if values == [] then NoValue
    else if !(0.0 <= percent <= 100.0) then Error
    else
      var ordered := Sort(values);
      var rank := Required(percent, |values|) - 1;
      RequiredInRange(percent, |values|);
      SortLaws(values);
      Ok(ordered[if rank < |ordered| - 1 then rank else |ordered| - 1])
  }

  /** `v` covers exactly rank `k`: a member with at least `k` values at or below it, and fewer
      strictly below. */
  ghost predicate HasRank(values: seq<real>, k: int, v: real) {
    v in values && CountLe(values, v) >= k > CountLt(values, v)
  }

  /** `v` is the nearest-rank percentile: a member of the sample with at least the share of it at or
      below, and, unless it is the smallest, less than the share strictly below. */
  ghost predicate NearestRank(values: seq<real>, percent: real, v: real) {
    var share := percent / 100.0 * |values| as real;
    && v in values && CountLe(values, v) as real >= share
    && (CountLt(values, v) == 0 || CountLt(values, v) as real < share)
  }

  lemma {:induction false} CountsItself(s: seq<real>, v: real)
    requires v in s
    ensures CountLe(s, v) >= 1
  {
    if s[|s| - 1] != v { CountsItself(s[..|s| - 1], v); }
  }

  /** A whole number reaches the ceiling exactly when it reaches the share. */
  lemma CeilingReached(x: real, k: nat)
    ensures k >= Ceiling(x) <==> k as real >= x
  {
  }

  lemma RankByShare(values: seq<real>, percent: real, v: real)
    ensures HasRank(values, Required(percent, |values|), v) <==> NearestRank(values, percent, v)
  {
    var share := percent / 100.0 * |values| as real;
    CeilingReached(share, CountLe(values, v));
    CeilingReached(share, CountLt(values, v));
    if v in values { CountsItself(values, v); }
  }

  lemma SortedMember(values: seq<real>, i: nat)
    requires i < |values|
    ensures |Sort(values)| == |values| && Sort(values)[i] in values
  {
    SortLaws(values);
    assert Sort(values)[i] in multiset(Sort(values));
  }

  lemma SortedHasRank(values: seq<real>, k: int)
    requires 1 <= k <= |values|
    ensures |Sort(values)| == |values| && HasRank(values, k, Sort(values)[k - 1])
  {
    SortedMember(values, k - 1);
    SortLaws(values);
    RankCounts(Sort(values), k - 1);
    SortCounts(values, Sort(values)[k - 1]);
  }

  lemma RankIsUnique(values: seq<real>, k: int, v: real, w: real)
    requires HasRank(values, k, v) && HasRank(values, k, w)
    ensures v == w
  {
    if v < w { CountsMonotone(values, v, w); }
    if w < v { CountsMonotone(values, w, v); }
  }

  /** The percentile is the nearest-rank value, and the only one. */
  lemma PercentileIff(values: seq<real>, percent: real, v: real)
    requires values != [] && 0.0 <= percent <= 100.0
    ensures Percentile(values, percent) == Ok(v) <==> NearestRank(values, percent, v)
  {
    var k := Required(percent, |values|);
    RequiredInRange(percent, |values|);
    SortedHasRank(values, k);
    var p := Sort(values)[k - 1];
    assert Percentile(values, percent) == Ok(p);
    RankByShare(values, percent, v);
    if HasRank(values, k, v) { RankIsUnique(values, k, v, p); }
  }

  lemma Scaled(a: real, b: real, n: real)
    requires a <= b && n >= 0.0
    ensures a * n <= b * n
  {
    assert (b - a) * n >= 0.0;
  }

  lemma CeilingMonotone(x: real, y: real)
    requires x <= y
    ensures Ceiling(x) <= Ceiling(y)
  {
  }

  lemma RequiredMonotone(p: real, q: real, n: nat)
    requires p <= q
    ensures Required(p, n) <= Required(q, n)
  {
    Scaled(p / 100.0, q / 100.0, n as real);
    CeilingMonotone(p / 100.0 * n as real, q / 100.0 * n as real);
  }

  /** A larger percent never gives a smaller percentile. */
  lemma PercentileMonotone(values: seq<real>, p: real, q: real)
    requires values != [] && 0.0 <= p <= q <= 100.0
    ensures Percentile(values, p).Ok? && Percentile(values, q).Ok?
    ensures Percentile(values, p).value <= Percentile(values, q).value
  {
    RequiredMonotone(p, q, |values|);
    SortLaws(values);
    RequiredInRange(p, |values|);
    RequiredInRange(q, |values|);
  }

  lemma {:induction false} SortedUnique(a: seq<real>, b: seq<real>)
    requires Ascending(a) && Ascending(b) && multiset(a) == multiset(b)
    ensures a == b
    decreases |a|
  {
    if a == [] {
      assert |multiset(b)| == 0;
    } else {
      SameLast(a, b);
      DropLast(a);
      DropLast(b);
      SortedUnique(a[..|a| - 1], b[..|b| - 1]);
      assert a == a[..|a| - 1] + [a[|a| - 1]] && b == b[..|b| - 1] + [b[|b| - 1]];
    }
  }

  lemma DropLast(s: seq<real>)
    requires s != []
    ensures multiset(s[..|s| - 1]) == multiset(s) - multiset{s[|s| - 1]}
  {
    assert s == s[..|s| - 1] + [s[|s| - 1]];
  }

  lemma SameLast(a: seq<real>, b: seq<real>)
    requires Ascending(a) && Ascending(b) && multiset(a) == multiset(b) && a != []
    ensures b != [] && a[|a| - 1] == b[|b| - 1]
  {
    var x := a[|a| - 1];
    assert x in multiset(b);
    var i :| 0 <= i < |b| && b[i] == x;
    var y := b[|b| - 1];
    assert y in multiset(a);
    var k :| 0 <= k < |a| && a[k] == y;
  }

  /** The order of the sample does not matter. */
  lemma PercentilePermutes(values: seq<real>, others: seq<real>, percent: real)
    requires multiset(values) == multiset(others)
    ensures Percentile(values, percent) == Percentile(others, percent)
  {
    SortLaws(values);
    SortLaws(others);
    SortedUnique(Sort(values), Sort(others));
    assert |multiset(values)| == |multiset(others)|;
  }

  // ---- The bootstrap ----

  /** `count` values drawn with replacement, and the generator state after them. */
  function Resample(values: seq<real>, state: nat, count: nat): (r: (seq<real>, nat))
    requires values != []
    ensures |r.0| == count && forall v :: v in r.0 ==> v in values
  {
    if count == 0 then ([], state) else
    var (sample, s) := Resample(values, state, count - 1);
    var (s', w) := SplitMix.Next(s);
    (sample + [values[w % |values|]], s')
  }

  /** The statistic of each of `rounds` resamples, and the state after them. */
  function Estimates(values: seq<real>, percent: real, state: nat, rounds: nat): (r: (seq<real>, nat))
    requires values != [] && 0.0 <= percent <= 100.0
    ensures |r.0| == rounds && forall v :: v in r.0 ==> v in values
  {
    if rounds == 0 then ([], state) else
    var (estimates, s) := Estimates(values, percent, state, rounds - 1);
    var (sample, s') := Resample(values, s, |values|);
    var p := Percentile(sample, percent);
    assert p.Ok? && p.value in sample by { PercentileIff(sample, percent, p.value); }
    (estimates + [p.value], s')
  }

  datatype Interval = Interval(
    method': string, confidence: real, sampleCount: nat, resamples: int, seed: nat,
    estimate: real, lower: real, upper: real)

  const METHOD := "bootstrap_percentile"

  function Bootstrap(values: seq<real>, percent: real, seed: int, resamples: int): Result<Interval> {
    if values == [] || resamples < 1 || resamples > 10000 || (exists v :: v in values && v < 0.0) then Error
    else if !(0.0 <= percent <= 100.0) then Error
    else
      var state := seed % SplitMix.WORD;
      var estimates := Estimates(values, percent, state, resamples).0;
      PercentileMonotone(estimates, 2.5, 97.5);
      PercentileMonotone(values, percent, percent);
      Ok(Interval(METHOD, 0.95, |values|, resamples, state, Percentile(values, percent).value,
                  Percentile(estimates, 2.5).value, Percentile(estimates, 97.5).value))
  }

  /** `bootstrap_ci`: the loops, threading the generator state. */
  method BootstrapCi(values: seq<real>, percent: real, seed: int, resamples: int) returns (r: Result<Interval>)
    ensures r == Bootstrap(values, percent, seed, resamples)
  {
    if values == [] || resamples < 1 || resamples > 10000 || (exists v :: v in values && v < 0.0) { return Error; }
    var point := Percentile(values, percent);
    if point.Error? { return Error; }
    var n := |values|;
    var state := seed % SplitMix.WORD;
    var start := state;
    var estimates: seq<real> := [];
    for i := 0 to resamples
      invariant (estimates, state) == Estimates(values, percent, start, i)
    {
      ghost var before := state;
      var sample: seq<real> := [];
      for k := 0 to n
        invariant (sample, state) == Resample(values, before, k)
      {
        var (s, w) := SplitMix.Next(state);
        state := s;
        sample := sample + [values[w % n]];
      }
      var estimate := Percentile(sample, percent);
      estimates := estimates + [estimate.value];
    }
    PercentileMonotone(estimates, 2.5, 97.5);
    var lower, upper := Percentile(estimates, 2.5), Percentile(estimates, 97.5);
    return Ok(Interval(METHOD, 0.95, n, resamples, start, point.value, lower.value, upper.value));
  }

  /** A sample to bootstrap, and a legal number of resamples. */
  predicate Sampled(values: seq<real>, resamples: int) {
    values != [] && 1 <= resamples <= 10000 && forall v :: v in values ==> v >= 0.0
  }

  /** Every interval is ordered and stays within the sample: its bounds are sample values. */
  lemma IntervalLaws(values: seq<real>, percent: real, seed: int, resamples: int)
    requires Sampled(values, resamples) && 0.0 <= percent <= 100.0
    ensures Bootstrap(values, percent, seed, resamples).Ok?
    ensures var i := Bootstrap(values, percent, seed, resamples).value;
            && i.lower <= i.upper && i.lower in values && i.upper in values
            && NearestRank(values, percent, i.estimate)
            && i.sampleCount == |values| && 1 <= i.resamples <= 10000 && i.seed < SplitMix.WORD
  {
    var i := Bootstrap(values, percent, seed, resamples).value;
    var estimates := Estimates(values, percent, seed % SplitMix.WORD, resamples).0;
    PercentileMonotone(estimates, 2.5, 97.5);
    PercentileIff(estimates, 2.5, i.lower);
    PercentileIff(estimates, 97.5, i.upper);
    PercentileIff(values, percent, i.estimate);
  }

  /** The values that draws number `from`, `from + 1` and so on pick. */
  function Picks(values: seq<real>, seed: nat, from: nat, count: nat): (s: seq<real>)
    requires values != []
    ensures |s| == count
  {
    if count == 0 then []
    else Picks(values, seed, from, count - 1) + [values[SplitMix.Draw(seed, from + (count - 1)) % |values|]]
  }

  lemma {:induction false} ResampleIs(values: seq<real>, seed: nat, from: nat, count: nat)
    requires values != []
    ensures Resample(values, SplitMix.StateAt(seed, from), count)
            == (Picks(values, seed, from, count), SplitMix.StateAt(seed, from + count))
  {
    if count > 0 {
      ResampleIs(values, seed, from, count - 1);
      DrawNext(seed, from + (count - 1));
    }
  }

  lemma DrawNext(seed: nat, k: nat)
    ensures SplitMix.Next(SplitMix.StateAt(seed, k)) == (SplitMix.StateAt(seed, k + 1), SplitMix.Draw(seed, k))
  {
  }

  lemma PercentileExists(values: seq<real>, percent: real)
    requires values != [] && 0.0 <= percent <= 100.0
    ensures Percentile(values, percent).Ok?
  {
  }

  /** Where the draws of round `i` start: the rounds before it drew `n` values each. */
  function Start(i: nat, n: nat): (from: nat)
    ensures from == i * n
  {
    if i == 0 then 0 else Start(i - 1, n) + n
  }

  /** The percentiles of the rounds: as many draws each as there are values, all numbered through. */
  function RoundEstimates(values: seq<real>, percent: real, seed: nat, rounds: nat): (es: seq<real>)
    requires values != [] && 0.0 <= percent <= 100.0
    ensures |es| == rounds
  {
    if rounds == 0 then []
    else
      var round := Picks(values, seed, Start(rounds - 1, |values|), |values|);
      PercentileExists(round, percent);
      RoundEstimates(values, percent, seed, rounds - 1) + [Percentile(round, percent).value]
  }

  /** The state after so many rounds. */
  ghost predicate AfterRounds(values: seq<real>, seed: nat, rounds: nat, state: nat) {
    state == SplitMix.StateAt(seed, Start(rounds, |values|))
  }

  lemma NextRound(values: seq<real>, seed: nat, rounds: nat, state: nat)
    requires values != [] && AfterRounds(values, seed, rounds, state)
    ensures var drawn := Resample(values, state, |values|);
            && drawn.0 == Picks(values, seed, Start(rounds, |values|), |values|)
            && AfterRounds(values, seed, rounds + 1, drawn.1)
  {
    ResampleIs(values, seed, Start(rounds, |values|), |values|);
  }

  lemma EstimatesStep(values: seq<real>, percent: real, state: nat, rounds: nat)
    requires values != [] && 0.0 <= percent <= 100.0
    ensures var before := Estimates(values, percent, state, rounds);
            var drawn := Resample(values, before.1, |values|);
            var p := Percentile(drawn.0, percent);
            p.Ok? && Estimates(values, percent, state, rounds + 1) == (before.0 + [p.value], drawn.1)
  {
    PercentileExists(Resample(values, Estimates(values, percent, state, rounds).1, |values|).0, percent);
  }

  lemma {:induction false} EstimatesAre(values: seq<real>, percent: real, seed: nat, rounds: nat)
    requires values != [] && 0.0 <= percent <= 100.0
    ensures AfterRounds(values, seed, rounds, Estimates(values, percent, seed, rounds).1)
    ensures Estimates(values, percent, seed, rounds).0 == RoundEstimates(values, percent, seed, rounds)
    decreases rounds
  {
    if rounds > 0 {
      EstimatesAre(values, percent, seed, rounds - 1);
      NextRound(values, seed, rounds - 1, Estimates(values, percent, seed, rounds - 1).1);
      EstimatesStep(values, percent, seed, rounds - 1);
    }
  }

  /** When there is no percentile, and when there is no interval. */
  lemma WhenRefused(values: seq<real>, percent: real, seed: int, resamples: int)
    ensures Percentile(values, percent) == NoValue <==> values == []
    ensures Percentile(values, percent) == Error <==> values != [] && (percent < 0.0 || percent > 100.0)
    ensures Bootstrap(values, percent, seed, resamples) == Error <==>
            || values == [] || resamples < 1 || resamples > 10000 || percent < 0.0 || percent > 100.0
            || exists v :: v in values && v < 0.0
  {
  }

  /** The interval, from its own definition: the bounds are the 2.5 and 97.5 percent percentiles of the
      percentiles of the rounds, draw by draw. */
  lemma BootstrapIs(values: seq<real>, percent: real, seed: int, resamples: int)
    requires Sampled(values, resamples) && 0.0 <= percent <= 100.0
    ensures Bootstrap(values, percent, seed, resamples).Ok?
    ensures var i := Bootstrap(values, percent, seed, resamples).value;
            && i.method' == "bootstrap_percentile" && i.confidence == 0.95
            && i.sampleCount == |values| && i.resamples == resamples && i.seed == seed % 0x1_0000_0000_0000_0000
            && Percentile(values, percent) == Ok(i.estimate)
            && var estimates := RoundEstimates(values, percent, i.seed, resamples);
               Percentile(estimates, 2.5) == Ok(i.lower) && Percentile(estimates, 97.5) == Ok(i.upper)
  {
    var state := seed % SplitMix.WORD;
    EstimatesAre(values, percent, state, resamples);
    PercentileExists(RoundEstimates(values, percent, state, resamples), 2.5);
    PercentileExists(RoundEstimates(values, percent, state, resamples), 97.5);
    PercentileExists(values, percent);
  }

  // ---- Summaries and their validator ----

  datatype Distribution = Distribution(
    p50: real, p95: real, p99: real, mean: real, intervals: map<string, Interval>, sampleCount: int)

  function Sum(s: seq<real>): real { if s == [] then 0.0 else Sum(s[..|s| - 1]) + s[|s| - 1] }

  /** `summarize_distribution`; the three derived seeds stand for `stable_seed`. */
  function Summarize(values: seq<real>, seeds: (nat, nat, nat), resamples: int): Result<Distribution> {
    var a, b, c := Bootstrap(values, 50.0, seeds.0, resamples), Bootstrap(values, 95.0, seeds.1, resamples),
                   Bootstrap(values, 99.0, seeds.2, resamples);
    if a.Ok? && b.Ok? && c.Ok? then Ok(Summary(values, a.value, b.value, c.value)) else Error
  }

  function Summary(values: seq<real>, a: Interval, b: Interval, c: Interval): Distribution
    requires values != []
  {
    PercentileMonotone(values, 50.0, 95.0);
    PercentileMonotone(values, 95.0, 99.0);
    Distribution(Percentile(values, 50.0).value, Percentile(values, 95.0).value, Percentile(values, 99.0).value,
                 Sum(values) / |values| as real, map["p50" := a, "p95" := b, "p99" := c], |values|)
  }

  predicate IntervalOk(i: Interval, count: int) {
    i.method' == METHOD && i.confidence == 0.95 && i.sampleCount == count && i.lower <= i.upper
  }

  /** What a reader of a summary relies on. */
  predicate Valid(d: Distribution) {
    && d.sampleCount >= 1 && d.intervals.Keys == {"p50", "p95", "p99"}
    && (forall key :: key in d.intervals ==> IntervalOk(d.intervals[key], d.sampleCount))
  }

  /** `validate_distribution`, on well-typed finite fields. */
  method Validate(d: Distribution) returns (ok: bool)
    ensures ok <==> Valid(d)
  {
    if d.sampleCount < 1 || d.intervals.Keys != {"p50", "p95", "p99"} { return false; }
    var left := d.intervals.Keys;
    while left != {}
      invariant left <= d.intervals.Keys
      invariant forall key :: key in d.intervals && key !in left ==> IntervalOk(d.intervals[key], d.sampleCount)
      decreases |left|
    {
      var key :| key in left;
      var i := d.intervals[key];
      if i.method' != METHOD || i.confidence != 0.95 || i.sampleCount != d.sampleCount || i.lower > i.upper { return false; }
      left := left - {key};
    }
    return true;
  }

  /** A summary exists exactly for a non-empty sample of non-negative values and a legal number of
      resamples; every summary passes the validator, and its percentiles are in order. */
  lemma SummariesAreValid(values: seq<real>, seeds: (nat, nat, nat), resamples: int)
    ensures Summarize(values, seeds, resamples).Ok? <==> Sampled(values, resamples)
    ensures Sampled(values, resamples) ==>
              var d := Summarize(values, seeds, resamples).value;
              Valid(d) && d.sampleCount == |values| && d.p50 <= d.p95 <= d.p99
  {
    if Sampled(values, resamples) {
      SummaryOf(values, seeds, resamples);
    }
  }

  lemma SummaryOf(values: seq<real>, seeds: (nat, nat, nat), resamples: int)
    requires Sampled(values, resamples)
    ensures Summarize(values, seeds, resamples).Ok?
    ensures var d := Summarize(values, seeds, resamples).value;
            Valid(d) && d.sampleCount == |values| && d.p50 <= d.p95 <= d.p99
  {
    IntervalIsOk(values, 50.0, seeds.0, resamples);
    IntervalIsOk(values, 95.0, seeds.1, resamples);
    IntervalIsOk(values, 99.0, seeds.2, resamples);
    SummaryIsValid(values, Bootstrap(values, 50.0, seeds.0, resamples).value,
                   Bootstrap(values, 95.0, seeds.1, resamples).value, Bootstrap(values, 99.0, seeds.2, resamples).value);
  }

  lemma SummaryParts(values: seq<real>, a: Interval, b: Interval, c: Interval)
    requires values != []
    ensures var d := Summary(values, a, b, c);
            && Percentile(values, 50.0) == Ok(d.p50) && Percentile(values, 95.0) == Ok(d.p95)
            && Percentile(values, 99.0) == Ok(d.p99) && d.mean == Sum(values) / |values| as real
            && d.intervals == map["p50" := a, "p95" := b, "p99" := c]
  {
    PercentileMonotone(values, 50.0, 95.0);
    PercentileMonotone(values, 95.0, 99.0);
  }

  lemma SummarizeIs(values: seq<real>, seeds: (nat, nat, nat), resamples: int)
    requires Sampled(values, resamples)
    ensures var a, b, c := Bootstrap(values, 50.0, seeds.0, resamples), Bootstrap(values, 95.0, seeds.1, resamples),
                           Bootstrap(values, 99.0, seeds.2, resamples);
            a.Ok? && b.Ok? && c.Ok?
            && Summarize(values, seeds, resamples) == Ok(Summary(values, a.value, b.value, c.value))
  {
    IntervalIsOk(values, 50.0, seeds.0, resamples);
    IntervalIsOk(values, 95.0, seeds.1, resamples);
    IntervalIsOk(values, 99.0, seeds.2, resamples);
  }

  lemma ThreeKeys(a: Interval, b: Interval, c: Interval)
    ensures var m := map["p50" := a, "p95" := b, "p99" := c];
            m.Keys == {"p50", "p95", "p99"} && m["p50"] == a && m["p95"] == b && m["p99"] == c
  {
    KeysDiffer();
  }

  lemma Scale(x: real, n: nat)
    requires n > 0
    ensures x / n as real * n as real == x
  {
  }

  predicate MeanOf(values: seq<real>, mean: real) { mean * |values| as real == Sum(values) }

  lemma MeanIs(values: seq<real>)
    requires values != []
    ensures MeanOf(values, Sum(values) / |values| as real)
  {
    Scale(Sum(values), |values|);
  }

  /** What a summary says of the sample: the three percentiles and the mean. */
  lemma SummaryIs(values: seq<real>, seeds: (nat, nat, nat), resamples: int)
    requires Sampled(values, resamples)
    ensures Summarize(values, seeds, resamples).Ok?
    ensures var d := Summarize(values, seeds, resamples).value;
            && Percentile(values, 50.0) == Ok(d.p50) && Percentile(values, 95.0) == Ok(d.p95)
            && Percentile(values, 99.0) == Ok(d.p99) && MeanOf(values, d.mean) && d.sampleCount == |values|
  {
    SummarizeIs(values, seeds, resamples);
    SummaryParts(values, Bootstrap(values, 50.0, seeds.0, resamples).value,
                 Bootstrap(values, 95.0, seeds.1, resamples).value, Bootstrap(values, 99.0, seeds.2, resamples).value);
    MeanIs(values);
  }

  /** And of its certainty: for each percentile that percentile's own interval, from its own seed. */
  lemma SummaryIntervals(values: seq<real>, seeds: (nat, nat, nat), resamples: int)
    requires Sampled(values, resamples)
    ensures Summarize(values, seeds, resamples).Ok?
    ensures var intervals := Summarize(values, seeds, resamples).value.intervals;
            && intervals.Keys == {"p50", "p95", "p99"}
            && Bootstrap(values, 50.0, seeds.0, resamples) == Ok(intervals["p50"])
            && Bootstrap(values, 95.0, seeds.1, resamples) == Ok(intervals["p95"])
            && Bootstrap(values, 99.0, seeds.2, resamples) == Ok(intervals["p99"])
  {
    SummarizeIs(values, seeds, resamples);
    var a, b, c := Bootstrap(values, 50.0, seeds.0, resamples).value, Bootstrap(values, 95.0, seeds.1, resamples).value,
                   Bootstrap(values, 99.0, seeds.2, resamples).value;
    SummaryParts(values, a, b, c);
    ThreeKeys(a, b, c);
  }

  lemma KeysDiffer()
    ensures "p50" != "p95" && "p50" != "p99" && "p95" != "p99"
  {
    assert "p50"[1] == '5' && "p95"[1] == '9' && "p99"[1] == '9' && "p95"[2] == '5' && "p99"[2] == '9';
  }

  lemma SummaryIsValid(values: seq<real>, a: Interval, b: Interval, c: Interval)
    requires values != [] && IntervalOk(a, |values|) && IntervalOk(b, |values|) && IntervalOk(c, |values|)
    ensures var d := Summary(values, a, b, c);
            Valid(d) && d.sampleCount == |values| && d.p50 <= d.p95 <= d.p99
  {
    PercentileMonotone(values, 50.0, 95.0);
    PercentileMonotone(values, 95.0, 99.0);
  }

  lemma IntervalIsOk(values: seq<real>, percent: real, seed: nat, resamples: int)
    requires Sampled(values, resamples) && 0.0 <= percent <= 100.0
    ensures Bootstrap(values, percent, seed, resamples).Ok?
    ensures IntervalOk(Bootstrap(values, percent, seed, resamples).value, |values|)
  {
    IntervalLaws(values, percent, seed, resamples);
  }
}
