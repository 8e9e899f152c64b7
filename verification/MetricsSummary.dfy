/**
 * Grouping of metric samples: apps/desktop/src/main/metrics/metrics-summary.ts. The order localeCompare
 * gives is not modelled.
 */
module MetricsSummary {
  import opened Basics
  import opened NearestRank

  const SEPARATOR: char := 31 as char

  /** The fields samples are grouped by. */
  datatype Key = Key(
    metricId: string, measurementMode: string, buildMode: string, role: string, scenario: string, source: string,
    measurement: string, unit: string, characterCountBucket: string, gitSha: string, binarySha256: Option<string>)

  datatype Sample = Sample(key: Key, value: real, failed: bool)

  datatype Group = Group(text: string, entries: seq<Sample>)

  datatype Summary = Summary(key: Key, n: nat, p50: real, p95: real, max: real, failureCount: nat)

  // ----- Keys -----

  function Parts(k: Key): (r: seq<string>)
    ensures |r| == 11
  {
    [k.metricId, k.measurementMode, k.buildMode, k.role, k.scenario, k.source, k.measurement, k.unit,
     k.characterCountBucket, k.gitSha, if k.binarySha256.Some? then k.binarySha256.value else ""]
  }

  /** Array.join with the unit separator. */
  function Join(parts: seq<string>): string {
    if parts == [] then "" else if |parts| == 1 then parts[0] else parts[0] + [SEPARATOR] + Join(parts[1..])
  }

  function GroupKey(k: Key): string {
    Join(Parts(k))
  }

  predicate ArePlain(parts: seq<string>) {
    forall p | p in parts :: SEPARATOR !in p
  }

  /** What the sample guard leaves of a key: no control characters, and a checksum that is not empty. */
  predicate IsKey(k: Key) {
    ArePlain(Parts(k)) && (k.binarySha256.Some? ==> k.binarySha256.value != "")
  }

  predicate IsSample(s: Sample) {
    IsKey(s.key) && s.value >= 0.0
  }

  predicate AreSamples(samples: seq<Sample>) {
    forall s | s in samples :: IsSample(s)
  }

  lemma InvalidIs(samples: seq<Sample>)
    ensures !AreSamples(samples) <==> exists s | s in samples :: s.value < 0.0 || !IsKey(s.key)
  {
    hide IsKey;
  }

  lemma FirstSeparator(a: string, b: string, x: string, y: string)
    requires SEPARATOR !in a && SEPARATOR !in b && a + [SEPARATOR] + x == b + [SEPARATOR] + y
    ensures a == b && x == y
  {
    var s, t := a + [SEPARATOR] + x, b + [SEPARATOR] + y;
    assert s[|a|] == SEPARATOR && t[|b|] == SEPARATOR;
    assert forall k {:trigger t[k]} | 0 <= k < |b| :: t[k] == b[k];
    assert forall k {:trigger s[k]} | 0 <= k < |a| :: s[k] == a[k];
    assert a == s[..|a|] && b == t[..|b|] && x == s[|a| + 1..] && y == t[|b| + 1..];
  }

  lemma {:induction false} JoinIsInjective(a: seq<string>, b: seq<string>)
    requires |a| == |b| && ArePlain(a) && ArePlain(b) && Join(a) == Join(b)
    ensures a == b
  {
    if |a| == 1 {
      assert a == [a[0]] && b == [b[0]];
    } else if |a| > 1 {
      assert a[0] in a && b[0] in b;
      FirstSeparator(a[0], b[0], Join(a[1..]), Join(b[1..]));
      assert ArePlain(a[1..]) && ArePlain(b[1..]);
      JoinIsInjective(a[1..], b[1..]);
      assert a == [a[0]] + a[1..] && b == [b[0]] + b[1..];
    }
  }

  /** Two samples have the same group key exactly when all eleven fields agree. */
  lemma SameKeyExactly(k: Key, l: Key)
    requires IsKey(k) && IsKey(l)
    ensures GroupKey(k) == GroupKey(l) <==> k == l
  {
    if GroupKey(k) == GroupKey(l) {
      JoinIsInjective(Parts(k), Parts(l));
      PartsTell(k, l);
    }
  }

  lemma PartsTell(k: Key, l: Key)
    requires Parts(k) == Parts(l) && IsKey(k) && IsKey(l)
    ensures k == l
  {
    var p, q := Parts(k), Parts(l);
    assert p[0] == q[0] && p[1] == q[1] && p[2] == q[2] && p[3] == q[3] && p[4] == q[4] && p[5] == q[5];
    assert p[6] == q[6] && p[7] == q[7] && p[8] == q[8] && p[9] == q[9] && p[10] == q[10];
    hide ArePlain;
  }

  // ----- Groups -----

  /** Where a key stands in the map, in insertion order; past the end when it is new. */
  function Place(groups: seq<Group>, text: string): (i: nat)
    ensures i <= |groups| && (i < |groups| ==> groups[i].text == text) && forall j | 0 <= j < i ::
            groups[j].text != text
  {
    if groups == [] || groups[0].text == text then 0 else 1 + Place(groups[1..], text)
  }

  function Add(groups: seq<Group>, s: Sample): seq<Group> {
    var text := GroupKey(s.key);
    var i := Place(groups, text);
    if i == |groups| then groups + [Group(text, [s])] else groups[i := Group(text, groups[i].entries + [s])]
  }

  function Grouped(samples: seq<Sample>): seq<Group> {
    if samples == [] then [] else Add(Grouped(samples[..|samples| - 1]), samples[|samples| - 1])
  }

  method GroupSamples(samples: seq<Sample>) returns (grouped: seq<Group>)
    ensures grouped == Grouped(samples)
  {
    hide GroupKey;
    grouped := [];
    for k := 0 to |samples|
      invariant grouped == Grouped(samples[..k])
    {
      var text := GroupKey(samples[k].key);
      var i := Place(grouped, text);
      if i == |grouped| {
        grouped := grouped + [Group(text, [samples[k]])];
      } else {
        grouped := grouped[i := Group(text, grouped[i].entries + [samples[k]])];
      }
      assert samples[..k + 1][..k] == samples[..k];
    }
    assert samples[..|samples|] == samples;
  }

  /** The samples of one key, in order. */
  function Having(samples: seq<Sample>, text: string): seq<Sample> {
    if samples == [] then []
    else
      var s := samples[|samples| - 1];
      Having(samples[..|samples| - 1], text) + if GroupKey(s.key) == text then [s] else []
  }

  /** Each key once, each with all its samples in order, and none without any. */
  ghost predicate Partition(samples: seq<Sample>, groups: seq<Group>) {
    && (forall i, j | 0 <= i < j < |groups| :: groups[i].text != groups[j].text)
    && (forall i | 0 <= i < |groups| :: groups[i].entries == Having(samples, groups[i].text) != [])
    && forall s | s in samples :: Place(groups, GroupKey(s.key)) < |groups|
  }

  lemma HavingMore(samples: seq<Sample>, s: Sample, text: string)
    ensures Having(samples + [s], text) == Having(samples, text) + if GroupKey(s.key) == text then [s] else []
  {
    assert (samples + [s])[..|samples|] == samples;
  }

  lemma {:induction false} HavingNone(samples: seq<Sample>, text: string)
    requires forall s | s in samples :: GroupKey(s.key) != text
    ensures Having(samples, text) == []
  {
    hide GroupKey;
    if samples != [] {
      var n := |samples| - 1;
      assert samples[n] in samples && forall s | s in samples[..n] :: s in samples;
      HavingNone(samples[..n], text);
    }
  }

  /** A place is a place whatever else is in the list. */
  lemma PlaceFound(groups: seq<Group>, i: nat)
    requires i < |groups|
    ensures Place(groups, groups[i].text) < |groups|
  {
  }

  lemma AddPartitions(samples: seq<Sample>, groups: seq<Group>, s: Sample)
    requires Partition(samples, groups)
    ensures Partition(samples + [s], Add(groups, s))
  {
    hide GroupKey, Having, Place;
    var text := GroupKey(s.key);
    var i, t := Place(groups, text), Add(groups, s);
    if i == |groups| {
      forall x | x in samples ensures GroupKey(x.key) != text { }
      HavingNone(samples, text);
    }
    forall j | 0 <= j < |t| ensures t[j].entries == Having(samples + [s], t[j].text) != [] {
      HavingMore(samples, s, t[j].text);
    }
    forall x | x in samples + [s] ensures Place(t, GroupKey(x.key)) < |t| {
      if x in samples {
        var j := Place(groups, GroupKey(x.key));
        assert t[j].text == groups[j].text;
        PlaceFound(t, j);
      } else {
        PlaceFound(t, i);
      }
    }
  }

  lemma {:induction false} GroupedPartitions(samples: seq<Sample>)
    ensures Partition(samples, Grouped(samples))
  {
    hide Partition, Add;
    if samples == [] {
      NothingToGroup();
    } else {
      var n := |samples| - 1;
      GroupedPartitions(samples[..n]);
      AddPartitions(samples[..n], Grouped(samples[..n]), samples[n]);
      assert samples[..n] + [samples[n]] == samples;
    }
  }

  lemma NothingToGroup()
    ensures Partition([], [])
  {
  }

  lemma {:induction false} HavingHolds(samples: seq<Sample>, text: string)
    ensures forall s :: s in Having(samples, text) <==> s in samples && GroupKey(s.key) == text
  {
    hide GroupKey;
    if samples != [] {
      var n := |samples| - 1;
      HavingHolds(samples[..n], text);
      assert samples == samples[..n] + [samples[n]];
    }
  }

  /** Two samples are in one group exactly when they agree on all eleven fields. */
  lemma GroupsAreClasses(samples: seq<Sample>, s: Sample, t: Sample)
    requires AreSamples(samples) && s in samples && t in samples
    ensures (exists g | g in Grouped(samples) :: s in g.entries && t in g.entries) <==> s.key == t.key
  {
    GroupedPartitions(samples);
    SameKeyExactly(s.key, t.key);
    hide GroupKey, Grouped, Having, IsKey;
    var groups := Grouped(samples);
    forall g | g in groups && s in g.entries && t in g.entries ensures s.key == t.key {
      var i :| 0 <= i < |groups| && groups[i] == g;
      HavingHolds(samples, g.text);
    }
    if s.key == t.key {
      var g := groups[Place(groups, GroupKey(s.key))];
      HavingHolds(samples, g.text);
      assert g in groups && s in g.entries && t in g.entries;
    }
  }

  // ----- Conservation -----

  function Failures(samples: seq<Sample>): nat {
    if samples == [] then 0
    else Failures(samples[..|samples| - 1]) + if samples[|samples| - 1].failed then 1 else 0
  }

  function TotalSize(groups: seq<Group>): nat {
    if groups == [] then 0 else TotalSize(groups[..|groups| - 1]) + |groups[|groups| - 1].entries|
  }

  function TotalFailures(groups: seq<Group>): nat {
    if groups == [] then 0 else TotalFailures(groups[..|groups| - 1]) + Failures(groups[|groups| - 1].entries)
  }

  lemma FailuresMore(samples: seq<Sample>, s: Sample)
    ensures Failures(samples + [s]) == Failures(samples) + if s.failed then 1 else 0
  {
    assert (samples + [s])[..|samples|] == samples;
  }

  lemma {:induction false} ReplaceTotals(groups: seq<Group>, i: nat, text: string, s: Sample)
    requires i < |groups|
    ensures var t := groups[i := Group(text, groups[i].entries + [s])];
            && TotalSize(t) == TotalSize(groups) + 1
            && TotalFailures(t) == TotalFailures(groups) + if s.failed then 1 else 0
  {
    hide Failures;
    var n := |groups| - 1;
    var t := groups[i := Group(text, groups[i].entries + [s])];
    FailuresMore(groups[i].entries, s);
    if i < n {
      ReplaceTotals(groups[..n], i, text, s);
      assert t[..n] == groups[..n][i := Group(text, groups[i].entries + [s])];
    } else {
      assert t[..n] == groups[..n];
    }
  }

  lemma AddTotals(groups: seq<Group>, s: Sample)
    ensures TotalSize(Add(groups, s)) == TotalSize(groups) + 1
    ensures TotalFailures(Add(groups, s)) == TotalFailures(groups) + if s.failed then 1 else 0
  {
    var text := GroupKey(s.key);
    hide GroupKey, Place;
    var i := Place(groups, text);
    if i == |groups| {
      assert (groups + [Group(text, [s])])[..|groups|] == groups;
      assert [s][..0] == [];
      assert Failures([s]) == Failures([]) + if s.failed then 1 else 0;
    } else {
      hide TotalSize, TotalFailures;
      ReplaceTotals(groups, i, text, s);
    }
  }

  /** Grouping loses and invents nothing: sizes and failure counts add up to the input's. */
  lemma {:induction false} GroupingConserves(samples: seq<Sample>)
    ensures TotalSize(Grouped(samples)) == |samples| && TotalFailures(Grouped(samples)) == Failures(samples)
  {
    hide Add;
    if samples != [] {
      GroupingConserves(samples[..|samples| - 1]);
      AddTotals(Grouped(samples[..|samples| - 1]), samples[|samples| - 1]);
    }
  }

  // ----- Summaries -----

  function Values(samples: seq<Sample>): (r: seq<real>)
    ensures |r| == |samples| && forall i | 0 <= i < |r| :: r[i] == samples[i].value
  {
    seq(|samples|, i requires 0 <= i < |samples| => samples[i].value)
  }

  /** Math.max over all values. */
  function MaxOf(values: seq<real>): real
    requires values != []
  {
    if |values| == 1 then values[0]
    else
      var rest := MaxOf(values[1..]);
      if values[0] >= rest then values[0] else rest
  }

  const MEDIAN := Fraction(1, 2)
  const PERCENTILE_95 := Fraction(19, 20)

  lemma ValuesArePositive(entries: seq<Sample>, p: Fraction)
    requires AreSamples(entries) && entries != [] && IsPercentile(p)
    ensures NearestRankOf(Values(entries), p).Some?
  {
    var values := Values(entries);
    forall v | v in values ensures v >= 0.0 {
      var i :| 0 <= i < |values| && values[i] == v;
      assert entries[i] in entries;
    }
  }

  function SummaryOf(entries: seq<Sample>): Summary
    requires AreSamples(entries) && entries != []
  {
    ValuesArePositive(entries, MEDIAN);
    ValuesArePositive(entries, PERCENTILE_95);
    var values := Values(entries);
    Summary(entries[0].key, |entries|, NearestRankOf(values, MEDIAN).value, NearestRankOf(values, PERCENTILE_95).value,
            MaxOf(values), Failures(entries))
  }

  lemma {:induction false} MaxIsWhole(values: seq<real>)
    requires values != []
    ensures MaxOf(values) in values && forall v | v in values :: v <= MaxOf(values)
  {
    if |values| > 1 {
      MaxIsWhole(values[1..]);
      assert values == [values[0]] + values[1..];
    }
  }

  /** In every summary the median is at most the 95th percentile, and that at most the largest value. */
  lemma SummaryIsOrdered(entries: seq<Sample>)
    requires AreSamples(entries) && entries != []
    ensures var s := SummaryOf(entries); 0.0 <= s.p50 <= s.p95 <= s.max && s.failureCount <= s.n
  {
    var values := Values(entries);
    ValuesArePositive(entries, MEDIAN);
    ValuesArePositive(entries, PERCENTILE_95);
    RanksGrow(values, MEDIAN, PERCENTILE_95);
    NearestRankIsLeast(values, MEDIAN);
    NearestRankIsLeast(values, PERCENTILE_95);
    MaxIsWhole(values);
    FailuresAtMost(entries);
  }

  /** The positions of the samples that failed. */
  function FailedAt(samples: seq<Sample>): set<nat> {
    set i: nat | i < |samples| && samples[i].failed
  }

  lemma {:induction false} FailuresAreCounted(samples: seq<Sample>)
    ensures Failures(samples) == |FailedAt(samples)|
  {
    if samples != [] {
      var n := |samples| - 1;
      FailuresAreCounted(samples[..n]);
      assert FailedAt(samples) == FailedAt(samples[..n]) + if samples[n].failed then {n} else {};
    } else {
      assert FailedAt(samples) == {};
    }
  }

  /**
   * What a summary says of its samples: whose they are, how many, how many of them failed, the largest value, the least
   * value that at least half of them do not exceed, and the least that at least 19 out of 20 do not exceed.
   */
  lemma SummaryIsExact(entries: seq<Sample>)
    requires AreSamples(entries) && entries != []
    ensures var s, values := SummaryOf(entries), Values(entries);
            && s.key == entries[0].key && s.n == |entries| && s.failureCount == |FailedAt(entries)|
            && s.max in values && (forall v | v in values :: v <= s.max)
            && s.p50 in values && |entries| <= 2 * CountUpTo(values, s.p50)
            && (forall v :: v < s.p50 ==> |entries| > 2 * CountUpTo(values, v))
            && s.p95 in values && 19 * |entries| <= 20 * CountUpTo(values, s.p95)
            && (forall v :: v < s.p95 ==> 19 * |entries| > 20 * CountUpTo(values, v))
  {
    var values := Values(entries);
    ValuesArePositive(entries, MEDIAN);
    ValuesArePositive(entries, PERCENTILE_95);
    NearestRankIsLeast(values, MEDIAN);
    NearestRankIsLeast(values, PERCENTILE_95);
    MaxIsWhole(values);
    FailuresAreCounted(entries);
    hide NearestRankOf, CountUpTo, MaxOf, Failures, FailedAt, AreSamples;
    var s := SummaryOf(entries);
    forall v | v < s.p50 ensures |entries| > 2 * CountUpTo(values, v) { assert !Covers(values, MEDIAN, v); }
    forall v | v < s.p95 ensures 19 * |entries| > 20 * CountUpTo(values, v) {
      assert !Covers(values, PERCENTILE_95, v);
    }
  }

  lemma {:induction false} FailuresAtMost(samples: seq<Sample>)
    ensures Failures(samples) <= |samples|
  {
    if samples != [] { FailuresAtMost(samples[..|samples| - 1]); }
  }

  // ----- The order of the samples does not matter -----

  lemma ValuesWithout(samples: seq<Sample>, k: nat)
    requires k < |samples|
    ensures Values(Without(samples, k)) == Without(Values(samples), k)
  {
  }

  lemma {:induction false} ValuesPermuted(a: seq<Sample>, b: seq<Sample>)
    requires multiset(a) == multiset(b)
    ensures multiset(Values(a)) == multiset(Values(b))
    decreases |a|
  {
    if a == [] {
      assert |b| == |multiset(b)| == 0;
      assert Values(a) == Values(b);
    } else {
      var k := SamePlace(a, b);
      WithoutOne(a, 0);
      WithoutOne(b, k);
      ValuesPermuted(Without(a, 0), Without(b, k));
      ValuesWithout(a, 0);
      ValuesWithout(b, k);
      WithoutOne(Values(a), 0);
      WithoutOne(Values(b), k);
      OneBack(multiset(Values(a)), multiset(Values(b)), a[0].value);
    }
  }

  lemma OneBack(a: multiset<real>, b: multiset<real>, v: real)
    requires v in a && v in b && a - multiset{v} == b - multiset{v}
    ensures a == b
  {
    assert a == a - multiset{v} + multiset{v} && b == b - multiset{v} + multiset{v};
  }

  lemma {:induction false} FailuresConcat(a: seq<Sample>, b: seq<Sample>)
    ensures Failures(a + b) == Failures(a) + Failures(b)
    decreases |b|
  {
    if b == [] {
      assert a + b == a;
    } else {
      var n := |b| - 1;
      FailuresConcat(a, b[..n]);
      assert a + b == (a + b[..n]) + [b[n]];
      FailuresMore(a + b[..n], b[n]);
    }
  }

  lemma FailuresBetween(before: seq<Sample>, s: Sample, after: seq<Sample>)
    ensures Failures(before + [s] + after) == Failures(before + after) + if s.failed then 1 else 0
  {
    hide Failures;
    FailuresConcat(before + [s], after);
    FailuresMore(before, s);
    FailuresConcat(before, after);
  }

  lemma FailuresWithout(samples: seq<Sample>, k: nat)
    requires k < |samples|
    ensures Failures(samples) == Failures(Without(samples, k)) + if samples[k].failed then 1 else 0
  {
    hide *;
    WithoutIs(samples, k);
    FailuresBetween(samples[..k], samples[k], samples[k + 1..]);
  }

  lemma {:induction false} FailuresPermuted(a: seq<Sample>, b: seq<Sample>)
    requires multiset(a) == multiset(b)
    ensures Failures(a) == Failures(b)
    decreases |a|
  {
    if a == [] {
      assert |b| == |multiset(b)| == 0;
    } else {
      hide Failures;
      var k := SamePlace(a, b);
      WithoutOne(a, 0);
      WithoutOne(b, k);
      FailuresPermuted(Without(a, 0), Without(b, k));
      FailuresWithout(a, 0);
      FailuresWithout(b, k);
    }
  }

  lemma {:induction false} HavingCounts(samples: seq<Sample>, text: string, s: Sample)
    ensures multiset(Having(samples, text))[s] == if GroupKey(s.key) == text then multiset(samples)[s] else 0
  {
    hide GroupKey;
    if samples != [] {
      var n := |samples| - 1;
      HavingCounts(samples[..n], text, s);
      assert samples == samples[..n] + [samples[n]];
    }
  }

  lemma HavingPermuted(a: seq<Sample>, b: seq<Sample>, text: string)
    requires multiset(a) == multiset(b)
    ensures multiset(Having(a, text)) == multiset(Having(b, text))
  {
    hide GroupKey, Having;
    forall s ensures multiset(Having(a, text))[s] == multiset(Having(b, text))[s] {
      HavingCounts(a, text, s);
      HavingCounts(b, text, s);
    }
  }

  lemma MaxPermuted(a: seq<real>, b: seq<real>)
    requires multiset(a) == multiset(b) && a != [] && b != []
    ensures MaxOf(a) == MaxOf(b)
  {
    hide MaxOf;
    MaxIsWhole(a);
    MaxIsWhole(b);
    assert MaxOf(a) in multiset(a) && MaxOf(b) in multiset(b);
    assert MaxOf(a) in b && MaxOf(b) in a;
  }

  /** A group's summary depends on its samples only, not on their order. */
  lemma SummaryPermuted(a: seq<Sample>, b: seq<Sample>, text: string)
    requires AreSamples(a) && AreSamples(b) && a != [] && b != [] && multiset(a) == multiset(b)
    requires (forall s | s in a :: GroupKey(s.key) == text) && forall s | s in b :: GroupKey(s.key) == text
    ensures SummaryOf(a) == SummaryOf(b)
  {
    assert a[0] in a && b[0] in b;
    SameKeyExactly(a[0].key, b[0].key);
    hide GroupKey, NearestRankOf, MaxOf, Failures;
    ValuesPermuted(a, b);
    var x, y := Values(a), Values(b);
    assert |a| == |multiset(a)| == |multiset(b)| == |b|;
    RankPermuted(x, y, MEDIAN);
    RankPermuted(x, y, PERCENTILE_95);
    MaxPermuted(x, y);
    FailuresPermuted(a, b);
  }

  /** The summaries of all groups. */
  ghost predicate IsSummaryOf(samples: seq<Sample>, summary: Summary) {
    exists g | g in Grouped(samples) :: AreSamples(g.entries) && g.entries != [] && summary == SummaryOf(g.entries)
  }

  lemma GroupIs(samples: seq<Sample>, g: Group)
    requires AreSamples(samples) && g in Grouped(samples)
    ensures g.entries == Having(samples, g.text) != [] && AreSamples(g.entries)
    ensures forall s | s in g.entries :: s in samples && GroupKey(s.key) == g.text
  {
    GroupedPartitions(samples);
    HavingHolds(samples, g.text);
    hide Grouped, Having, GroupKey, IsSample;
    var groups := Grouped(samples);
    var i :| 0 <= i < |groups| && groups[i] == g;
  }

  lemma SummaryMoves(a: seq<Sample>, b: seq<Sample>, summary: Summary)
    requires AreSamples(a) && AreSamples(b) && multiset(a) == multiset(b) && IsSummaryOf(a, summary)
    ensures IsSummaryOf(b, summary)
  {
    hide SummaryOf, Grouped, GroupKey, Having, IsSample;
    var g :| g in Grouped(a) && AreSamples(g.entries) && g.entries != [] && summary == SummaryOf(g.entries);
    GroupIs(a, g);
    var s := g.entries[0];
    assert s in g.entries && s in multiset(a) && s in multiset(b);
    GroupedPartitions(b);
    var groups := Grouped(b);
    var h := groups[Place(groups, GroupKey(s.key))];
    assert h in groups;
    GroupIs(b, h);
    HavingPermuted(a, b, g.text);
    SummaryPermuted(g.entries, h.entries, g.text);
  }

  /** Permuting the samples changes no summary. */
  lemma OrderDoesNotMatter(a: seq<Sample>, b: seq<Sample>, summary: Summary)
    requires AreSamples(a) && multiset(a) == multiset(b)
    ensures IsSummaryOf(a, summary) <==> IsSummaryOf(b, summary)
  {
    assert forall s :: s in b <==> s in multiset(b);
    assert forall s :: s in a <==> s in multiset(a);
    hide IsSummaryOf, IsSample;
    if IsSummaryOf(a, summary) { SummaryMoves(a, b, summary); }
    if IsSummaryOf(b, summary) { SummaryMoves(b, a, summary); }
  }

  datatype Error = NoSamples | InvalidSample

  datatype Result = Ok(groups: seq<Summary>, instrumentationOnly: bool) | Err(error: Error)

  const INSTRUMENTATION_ONLY := "instrumentation-only"

  /** One summary for each group, in the order the groups were met; the final sort is left out. */
  method Summarize(samples: seq<Sample>) returns (result: Result)
    ensures samples == [] ==> result == Err(NoSamples)
    ensures samples != [] && !AreSamples(samples) ==> result == Err(InvalidSample)
    ensures result == Err(InvalidSample) <==> samples != [] && exists s | s in samples :: s.value < 0.0 || !IsKey(s.key)
    ensures samples != [] && AreSamples(samples) ==>
              && result.Ok? && |result.groups| == |Grouped(samples)|
              && (forall i | 0 <= i < |result.groups| ::
                    var g := Grouped(samples)[i];
                    AreSamples(g.entries) && g.entries != [] && result.groups[i] == SummaryOf(g.entries))
              && (result.instrumentationOnly <==> forall s | s in samples ::
                 s.key.measurementMode == INSTRUMENTATION_ONLY)
  {
    InvalidIs(samples);
    hide Grouped, SummaryOf, IsSample, IsKey, Having, GroupKey;
    if |samples| == 0 { return Err(NoSamples); }
    for k := 0 to |samples|
      invariant forall j | 0 <= j < k :: IsSample(samples[j])
    {
      if !IsSample(samples[k]) { return Err(InvalidSample); }
    }
    var grouped := GroupSamples(samples);
    var groups: seq<Summary> := [];
    for k := 0 to |grouped|
      invariant |groups| == k
      invariant forall i | 0 <= i < k ::
        AreSamples(grouped[i].entries) && grouped[i].entries != [] && groups[i] == SummaryOf(grouped[i].entries)
    {
      GroupIs(samples, grouped[k]);
      groups := groups + [SummaryOf(grouped[k].entries)];
    }
    return Ok(groups, forall s | s in samples :: s.key.measurementMode == INSTRUMENTATION_ONLY);
  }
}
