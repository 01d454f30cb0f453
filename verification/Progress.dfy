/**
 The progress an operation persists between its claim and its end. What the embedding backend and the model
 controller report is arbitrary. An operation that fails part-way has persisted a prefix of what is stated here.
 */
module Progress {
  import opened Wrappers
  import opened Reals
  import Executor

  const CEILING := 0.90
  const STEP := 0.01

  /** The last value reported, and everything persisted. */
  datatype Meter = Meter(last: real, persisted: seq<real>)

  function Bounded(last: real, value: real): real {
    var high := Larger(last, value);
    if high < CEILING then high else CEILING
  }

  /** A step too small to matter is dropped, unless it reaches the ceiling. */
  function Reported(m: Meter, value: real): Meter {
    var bounded := Bounded(m.last, value);
    if bounded < CEILING && bounded - m.last < STEP then m else Meter(bounded, m.persisted + [bounded])
  }

  function ReportedAll(m: Meter, values: seq<real>): Meter {
    if values == [] then m else Reported(ReportedAll(m, values[..|values| - 1]), values[|values| - 1])
  }

  /** Values within one candidate, scaled to its share of the whole. */
  function Scaled(position: nat, scopes: nat, value: real): real
    requires scopes > 0
  {
    0.90 * (position as real + value) / scopes as real
  }

  function Embedded(completed: int, total: int): real {
    0.05 + 0.80 * completed as real / (if total < 1 then 1 else total) as real
  }

  function Embeddings(position: nat, scopes: nat, calls: seq<(int, int)>): seq<real>
    requires scopes > 0
  {
    if calls == [] then []
    else
      Embeddings(position, scopes, calls[..|calls| - 1])
      + [Scaled(position, scopes, Embedded(calls[|calls| - 1].0, calls[|calls| - 1].1))]
  }

  function CandidateValues(position: nat, scopes: nat, calls: seq<(int, int)>): seq<real>
    requires scopes > 0
  {
    [Scaled(position, scopes, 0.05)] + Embeddings(position, scopes, calls)
    + [Scaled(position, scopes, 0.88), Scaled(position, scopes, 0.96), Scaled(position, scopes, 1.0)]
  }

  /** All values reported while the first candidates are built. */
  function BuildValues(scopes: nat, calls: seq<seq<(int, int)>>): seq<real>
    requires scopes > 0
  {
    if calls == [] then [0.02]
    else BuildValues(scopes, calls[..|calls| - 1]) + CandidateValues(|calls| - 1, scopes, calls[|calls| - 1])
  }

  function CommitValue(position: nat, scopes: nat): real
    requires scopes > 0
  {
    0.90 + 0.09 * (position + 1) as real / scopes as real
  }

  function CommitValues(count: nat, scopes: nat): seq<real>
    requires scopes > 0
  {
    if count == 0 then [] else CommitValues(count - 1, scopes) + [CommitValue(count - 1, scopes)]
  }

  function ScopeCount(n: nat): nat {
    if n < 1 then 1 else n
  }

  /** Everything a rebuild persists before it succeeds. */
  function RebuildTrace(calls: seq<seq<(int, int)>>): seq<real> {
    ReportedAll(Meter(0.0, []), BuildValues(ScopeCount(|calls|), calls)).persisted
    + CommitValues(|calls|, ScopeCount(|calls|))
  }

  // ---------------------------------------------------------------- the loops

  class RebuildReporter {
    var last: real
    var persisted: seq<real>

    constructor ()
      ensures State() == Meter(0.0, [])
    {
      last, persisted := 0.0, [];
    }

    function State(): Meter
      reads this
    {
      Meter(last, persisted)
    }

    method Report(value: real)
      modifies this
      ensures State() == Reported(old(State()), value)
    {
      var bounded := last;
      if value > bounded {
        bounded := value;
      }
      if bounded > CEILING {
        bounded := CEILING;
      }
      if bounded < CEILING && bounded - last < STEP {
        return;
      }
      last := bounded;
      persisted := persisted + [bounded];
    }
  }

  lemma ReportedOneMore(m: Meter, values: seq<real>, value: real)
    ensures ReportedAll(m, values + [value]) == Reported(ReportedAll(m, values), value)
  {
    assert (values + [value])[..|values|] == values;
  }

  method BuildCandidate(reporter: RebuildReporter, ghost start: Meter, ghost before: seq<real>,
                        position: nat, scopes: nat, calls: seq<(int, int)>)
    requires scopes > 0 && reporter.State() == ReportedAll(start, before)
    modifies reporter
    ensures reporter.State() == ReportedAll(start, before + CandidateValues(position, scopes, calls))
  {
    hide ReportedAll, Reported;
    ghost var values := before + [Scaled(position, scopes, 0.05)];
    ReportedOneMore(start, before, Scaled(position, scopes, 0.05));
    reporter.Report(Scaled(position, scopes, 0.05));
    for i := 0 to |calls|
      invariant values == before + [Scaled(position, scopes, 0.05)] + Embeddings(position, scopes, calls[..i])
      invariant reporter.State() == ReportedAll(start, values)
    {
      var value := Scaled(position, scopes, Embedded(calls[i].0, calls[i].1));
      ReportedOneMore(start, values, value);
      reporter.Report(value);
      assert calls[..i + 1][..i] == calls[..i];
      values := values + [value];
    }
    assert calls[..|calls|] == calls;
    ReportedOneMore(start, values, Scaled(position, scopes, 0.88));
    reporter.Report(Scaled(position, scopes, 0.88));
    values := values + [Scaled(position, scopes, 0.88)];
    ReportedOneMore(start, values, Scaled(position, scopes, 0.96));
    reporter.Report(Scaled(position, scopes, 0.96));
    values := values + [Scaled(position, scopes, 0.96)];
    ReportedOneMore(start, values, Scaled(position, scopes, 1.0));
    reporter.Report(Scaled(position, scopes, 1.0));
    values := values + [Scaled(position, scopes, 1.0)];
    assert values == before + CandidateValues(position, scopes, calls);
  }

  method Rebuild(calls: seq<seq<(int, int)>>) returns (persisted: seq<real>)
    ensures persisted == RebuildTrace(calls)
  {
    hide ReportedAll, Reported, CandidateValues, CommitValue;
    var scopes := ScopeCount(|calls|);
    var reporter := new RebuildReporter();
    ghost var start := Meter(0.0, []);
    assert ReportedAll(start, []) == start by { NothingReported(start); }
    ReportedOneMore(start, [], 0.02);
    assert [] + [0.02] == [0.02];
    reporter.Report(0.02);
    for i := 0 to |calls|
      invariant reporter.State() == ReportedAll(start, BuildValues(scopes, calls[..i]))
    {
      BuildCandidate(reporter, start, BuildValues(scopes, calls[..i]), i, scopes, calls[i]);
      assert calls[..i + 1][..i] == calls[..i];
    }
    assert calls[..|calls|] == calls;
    persisted := reporter.persisted;
    ghost var built := persisted;
    for i := 0 to |calls|
      invariant persisted == built + CommitValues(i, scopes)
    {
      persisted := persisted + [CommitValue(i, scopes)];
    }
  }

  lemma NothingReported(m: Meter)
    ensures ReportedAll(m, []) == m
  {
  }

  /** Only what the controller reports within [0, 1], and never less than before. */
  function Accepted(reports: seq<Option<real>>): Meter {
    if reports == [] then Meter(0.0, [])
    else
      var before, report := Accepted(reports[..|reports| - 1]), reports[|reports| - 1];
      if report.None? || !(0.0 <= report.value <= 1.0) || report.value < before.last then before
      else Meter(report.value, before.persisted + [report.value])
  }

  method StartModel(reports: seq<Option<real>>) returns (persisted: seq<real>)
    ensures persisted == Accepted(reports).persisted
  {
    var last := 0.0;
    persisted := [];
    for i := 0 to |reports|
      invariant Meter(last, persisted) == Accepted(reports[..i])
    {
      assert reports[..i + 1][..i] == reports[..i];
      if reports[i].None? {
        continue;
      }
      var progress := reports[i].value;
      if !(0.0 <= progress <= 1.0) || progress < last {
        continue;
      }
      last := progress;
      persisted := persisted + [progress];
    }
    assert reports[..|reports|] == reports;
  }

  // ---------------------------------------------------------------- laws

  ghost predicate NonDecreasing(trace: seq<real>) {
    forall i, j :: 0 <= i < j < |trace| ==> trace[i] <= trace[j]
  }

  ghost predicate Within(trace: seq<real>, low: real, high: real) {
    forall i :: 0 <= i < |trace| ==> low <= trace[i] <= high
  }

  /** The i-th value below the ceiling is at least i+1 steps up. */
  ghost predicate Spaced(trace: seq<real>) {
    forall i :: 0 <= i < |trace| && trace[i] < CEILING ==> trace[i] >= STEP * (i + 1) as real
  }

  ghost predicate MeterOk(m: Meter) {
    && NonDecreasing(m.persisted) && Within(m.persisted, 0.0, CEILING) && Spaced(m.persisted)
    && m.last == (if m.persisted == [] then 0.0 else m.persisted[|m.persisted| - 1])
  }

  lemma {:induction false} ReportedAllOk(values: seq<real>)
    ensures MeterOk(ReportedAll(Meter(0.0, []), values))
  {
    if values != [] {
      ReportedAllOk(values[..|values| - 1]);
      ReportedOk(ReportedAll(Meter(0.0, []), values[..|values| - 1]), values[|values| - 1]);
    }
  }

  lemma ReportedOk(m: Meter, value: real)
    requires MeterOk(m)
    ensures MeterOk(Reported(m, value))
  {
    var m' := Reported(m, value);
    if m' != m {
      var k := |m.persisted|;
      assert m'.persisted[k] == m'.last >= m.last;
      assert k > 0 && m'.last < CEILING ==> m.persisted[k - 1] >= STEP * k as real;
    }
  }

  lemma Fraction(a: nat, b: nat, n: nat)
    requires n > 0 && a <= b
    ensures a as real / n as real <= b as real / n as real
    ensures b <= n ==> b as real / n as real <= 1.0
    ensures n as real / n as real == 1.0
  {
    Divided(a as real, b as real, n as real);
    Divided(b as real, n as real, n as real);
    Divided(n as real, n as real, n as real);
  }

  lemma Divided(x: real, y: real, n: real)
    requires n > 0.0
    ensures x <= y ==> x / n <= y / n
    ensures n / n == 1.0 && (x > 0.0 ==> x / n > 0.0)
  {
    var p, q := x / n, y / n;
    assert p * n == x && q * n == y;
    Ordered(p, q, n);
    Ordered(0.0, p, n);
  }

  lemma Ordered(p: real, q: real, n: real)
    requires n > 0.0
    ensures p > q ==> p * n > q * n
    ensures p >= q ==> p * n >= q * n
  {
  }

  lemma Rearrange(c: real, x: real, n: real)
    requires n > 0.0
    ensures c * x / n == c * (x / n)
  {
  }

  lemma CommitValueBounds(a: nat, b: nat, n: nat)
    requires a <= b < n
    ensures 0.90 < CommitValue(a, n) <= CommitValue(b, n) <= 0.99
    ensures CommitValue(n - 1, n) == 0.99
  {
    Fraction(a + 1, b + 1, n);
    Fraction(b + 1, n, n);
    Rearrange(0.09, (a + 1) as real, n as real);
    Rearrange(0.09, (b + 1) as real, n as real);
    Rearrange(0.09, n as real, n as real);
    Divided((a + 1) as real, n as real, n as real);
  }

  lemma {:induction false} CommitValuesRise(count: nat, n: nat)
    requires count <= n && n > 0
    ensures |CommitValues(count, n)| == count
    ensures forall i :: 0 <= i < count ==> CommitValues(count, n)[i] == CommitValue(i, n)
  {
    if count > 0 {
      CommitValuesRise(count - 1, n);
    }
  }

  /** The last callback of the last candidate takes the report to the ceiling exactly. */
  lemma {:induction false} BuildReachesCeiling(calls: seq<seq<(int, int)>>)
    requires calls != []
    ensures ReportedAll(Meter(0.0, []), BuildValues(ScopeCount(|calls|), calls)).last == CEILING
  {
    var n, start := |calls|, Meter(0.0, []);
    var before := BuildValues(n, calls[..n - 1]);
    var values := BuildValues(n, calls);
    var final := Scaled(n - 1, n, 1.0);
    assert values[|values| - 1] == final;
    assert final == CEILING by { Rearrange(0.90, n as real, n as real); }
    ReportedAllOk(values[..|values| - 1]);
    hide ReportedAll;
    ReportedOneMore(start, values[..|values| - 1], final);
    assert values[..|values| - 1] + [final] == values;
    LastWithin(ReportedAll(start, values[..|values| - 1]));
  }

  lemma LastWithin(m: Meter)
    requires MeterOk(m)
    ensures 0.0 <= m.last <= CEILING
  {
  }

  /**
   A rebuild persists a nondecreasing trace whatever the backend reports: within [0, 0.90] while it builds, then
   one step for each committed index up to 0.99; and it writes at most 89 values before it reaches 0.90.
   */
  lemma {:induction false} RebuildNeverRegresses(calls: seq<seq<(int, int)>>)
    ensures NonDecreasing(RebuildTrace(calls)) && Within(RebuildTrace(calls), 0.0, 0.99)
    ensures forall i :: 0 <= i < |RebuildTrace(calls)| && RebuildTrace(calls)[i] < CEILING ==> i < 89
    ensures calls != [] ==> RebuildTrace(calls)[|RebuildTrace(calls)| - 1] == 0.99
    ensures |RebuildTrace(calls)| >= |calls|
  {
    var n := ScopeCount(|calls|);
    var m := ReportedAll(Meter(0.0, []), BuildValues(n, calls));
    ReportedAllOk(BuildValues(n, calls));
    hide ReportedAll, BuildValues;
    CommitValuesRise(|calls|, n);
    var built, commits, trace := m.persisted, CommitValues(|calls|, n), RebuildTrace(calls);
    assert trace == built + commits;
    forall j | |built| <= j < |trace| ensures CEILING < trace[j] <= 0.99 {
      CommitValueBounds(j - |built|, j - |built|, n);
      assert trace[j] == commits[j - |built|];
    }
    forall i, j | 0 <= i < j < |trace| ensures trace[i] <= trace[j] {
      if i >= |built| {
        CommitValueBounds(i - |built|, j - |built|, n);
      }
    }
    if calls != [] {
      CommitValueBounds(n - 1, n - 1, n);
      assert trace[|trace| - 1] == commits[|calls| - 1];
    }
  }

  function Reports(trace: seq<real>): seq<Executor.Effect> {
    seq(|trace|, i requires 0 <= i < |trace| => Executor.Report(trace[i]))
  }

  /** So persisting it never fails: a rebuild is never failed for its progress. */
  lemma RebuildStaysInRange(calls: seq<seq<(int, int)>>)
    ensures Executor.InRange(Reports(RebuildTrace(calls)))
  {
    RebuildNeverRegresses(calls);
  }

  /** The largest value in [0, 1] among the reports. */
  function Peak(reports: seq<Option<real>>): real {
    if reports == [] then 0.0
    else
      var before, report := Peak(reports[..|reports| - 1]), reports[|reports| - 1];
      if report.Some? && 0.0 <= report.value <= 1.0 then Larger(before, report.value) else before
  }

  /** A model start persists a nondecreasing trace within [0, 1] that ends at the largest valid report. */
  lemma {:induction false} StartNeverRegresses(reports: seq<Option<real>>)
    ensures NonDecreasing(Accepted(reports).persisted) && Within(Accepted(reports).persisted, 0.0, 1.0)
    ensures Accepted(reports).last == Peak(reports)
    ensures Accepted(reports).last
         == (if Accepted(reports).persisted == [] then 0.0
             else Accepted(reports).persisted[|Accepted(reports).persisted| - 1])
  {
    if reports != [] {
      var init, report := reports[..|reports| - 1], reports[|reports| - 1];
      StartNeverRegresses(init);
      if report.Some? && 0.0 <= report.value <= 1.0 && report.value >= Accepted(init).last {
        OneMoreAccepted(Accepted(init), report.value);
      }
    }
  }

  /** Of what the controller reports exactly that is persisted which is valid and no less than any valid one before. */
  lemma {:induction false} StartPersistsExactly(reports: seq<Option<real>>, report: Option<real>)
    ensures var taken := report.Some? && 0.0 <= report.value <= 1.0 && report.value >= Peak(reports);
            Accepted(reports + [report]).persisted
              == Accepted(reports).persisted + (if taken then [report.value] else [])
  {
    StartNeverRegresses(reports);
    assert (reports + [report])[..|reports|] == reports;
  }

  lemma OneMoreAccepted(m: Meter, value: real)
    requires NonDecreasing(m.persisted) && Within(m.persisted, 0.0, 1.0) && m.last <= value && 0.0 <= value <= 1.0
    requires m.last == (if m.persisted == [] then 0.0 else m.persisted[|m.persisted| - 1])
    ensures NonDecreasing(m.persisted + [value]) && Within(m.persisted + [value], 0.0, 1.0)
  {
    var n := |m.persisted|;
    forall i | 0 <= i < n ensures m.persisted[i] <= value {
      assert i < n - 1 ==> m.persisted[i] <= m.persisted[n - 1];
    }
  }

  // ---------------------------------------------------------------- what the values mean

  /** Within a build the report rises with the share embedded, from 0.05 to 0.85 of the candidate. */
  lemma {:induction false} EmbeddedRises(fewer: nat, more: nat, total: nat)
    requires fewer < more <= total
    ensures 0.05 <= Embedded(fewer, total) < Embedded(more, total) <= 0.85
    ensures Embedded(0, total) == 0.05 && Embedded(total, total) == 0.85
  {
    Fraction(fewer, more, total);
    Fraction(0, fewer, total);
    Fraction(more, total, total);
    Rearrange(0.80, fewer as real, total as real);
    Rearrange(0.80, more as real, total as real);
    Rearrange(0.80, total as real, total as real);
    Rearrange(0.80, 0.0, total as real);
    Distinct(fewer as real, more as real, total as real);
  }

  lemma Distinct(x: real, y: real, n: real)
    requires n > 0.0 && x < y
    ensures x / n < y / n
  {
    var p, q := x / n, y / n;
    assert p * n == x && q * n == y;
    Ordered(p, q, n);
  }

  /** Each candidate has an equal share of 0.90, and its callbacks report within that share, in this order. */
  lemma {:induction false} CandidateMilestones(position: nat, scopes: nat, calls: seq<(int, int)>)
    requires scopes > 0
    ensures var values, n := CandidateValues(position, scopes, calls), |calls|;
            && |values| == n + 4
            && values[0] == 0.90 * (position as real + 0.05) / scopes as real
            && (forall i :: 0 <= i < n ==>
                  values[i + 1] == 0.90 * (position as real + Embedded(calls[i].0, calls[i].1)) / scopes as real)
            && values[n + 1] == 0.90 * (position as real + 0.88) / scopes as real
            && values[n + 2] == 0.90 * (position as real + 0.96) / scopes as real
            && values[n + 3] == 0.90 * (position as real + 1.0) / scopes as real
  {
    hide Embedded;
    EmbeddingsAt(position, scopes, calls);
  }

  lemma {:induction false} EmbeddingsAt(position: nat, scopes: nat, calls: seq<(int, int)>)
    requires scopes > 0
    ensures |Embeddings(position, scopes, calls)| == |calls|
    ensures forall i :: 0 <= i < |calls| ==>
              Embeddings(position, scopes, calls)[i] == Scaled(position, scopes, Embedded(calls[i].0, calls[i].1))
  {
    hide Embedded, Scaled;
    if calls != [] {
      EmbeddingsAt(position, scopes, calls[..|calls| - 1]);
    }
  }

  /** What is persisted is never a hundredth or more behind what was reported, up to the ceiling. */
  lemma {:induction false} ReportsKeepUp(values: seq<real>, i: nat)
    requires i < |values|
    ensures var shown := ReportedAll(Meter(0.0, []), values).last;
            shown > values[i] - 0.01 || shown == 0.90
  {
    var init := values[..|values| - 1];
    ReportedAllOk(init);
    ReportedAllOk(values);
    if i < |init| {
      ReportsKeepUp(init, i);
    }
    NeverFalls(ReportedAll(Meter(0.0, []), init), values[|values| - 1]);
  }

  lemma NeverFalls(m: Meter, value: real)
    requires MeterOk(m)
    ensures var m' := Reported(m, value);
            m.last <= m'.last && (m'.last > value - 0.01 || m'.last == 0.90)
  {
    LastWithin(m);
  }

  /** A rebuild first shows 0.02; its last values are the commits, each worth an equal part of the 0.09 they share. */
  lemma {:induction false} RebuildMilestones(calls: seq<seq<(int, int)>>)
    ensures var trace, n := RebuildTrace(calls), |calls|;
            && |trace| > n && trace[0] == 0.02
            && forall j :: |trace| - n <= j < |trace| ==>
                 trace[j] == 0.90 + 0.09 * (j - (|trace| - n) + 1) as real / n as real
  {
    var n := ScopeCount(|calls|);
    hide CandidateValues;
    FirstReport(n, calls);
    hide BuildValues, ReportedAll;
    CommitValuesRise(|calls|, n);
  }

  lemma {:induction false} FirstReport(scopes: nat, calls: seq<seq<(int, int)>>)
    requires scopes > 0
    ensures var values := BuildValues(scopes, calls);
            |values| > 0 && values[0] == 0.02 && FirstShown(values)
  {
    hide CandidateValues;
    if calls != [] {
      FirstReport(scopes, calls[..|calls| - 1]);
    }
    var values := BuildValues(scopes, calls);
    ShownFirst(values, |values|);
    assert values[..|values|] == values;
  }

  predicate FirstShown(values: seq<real>) {
    var shown := ReportedAll(Meter(0.0, []), values).persisted;
    shown != [] && shown[0] == 0.02
  }

  lemma {:induction false} ShownFirst(values: seq<real>, n: nat)
    requires 0 < n <= |values| && values[0] == 0.02
    ensures FirstShown(values[..n])
  {
    if n > 1 {
      ShownFirst(values, n - 1);
      assert values[..n][..n - 1] == values[..n - 1];
    } else {
      assert values[..1][..0] == [];
    }
  }
}
