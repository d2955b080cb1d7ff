/**
 Risk scoring: deduplication of findings by key, the weighted aggregate and its
 label, for one scan and for the posture over several subjects. Weights are exact
 hundredths, and the score is rounded half to even.
 */
module Risk {
  import opened Prelude
  import opened BestPerKey

  // Ids, keys and times stand as ranks in the order of their texts; 0 is the
  // empty text.
  type Text = int

  // The buckets after normalisation; Unknown is any other text.
  datatype Severity = Critical | High | Medium | Low | Info | Unknown

  datatype Confidence = Confirmed | High | Medium | Low | Unknown

  datatype Finding = Finding(id: Text, dedupeKey: Text, severity: Severity, confidence: Confidence, createdAt: Text)

  function SeverityWeight(s: Severity): nat {
    match s
    case Critical => 100
    case High => 70
    case Medium => 35
    case Low => 15
    case Info => 5
    case Unknown => 5
  }

  function ConfidencePercent(c: Confidence): nat {
    match c
    case Confirmed => 100
    case High => 90
    case Medium => 70
    case Low => 50
    case Unknown => 50
  }

  // In hundredths.
  function Weight(f: Finding): nat {
    SeverityWeight(f.severity) * ConfidencePercent(f.confidence)
  }

  function Key(f: Finding): Text {
    if f.dedupeKey == 0 then f.id else f.dedupeKey
  }

  // ------------------------------------------------------------ deduplication

  // Strictly greater in (severity weight, confidence, creation time, id).
  predicate Higher(f: Finding, g: Finding) {
    var a, b := SeverityWeight(f.severity), SeverityWeight(g.severity);
    var c, d := ConfidencePercent(f.confidence), ConfidencePercent(g.confidence);
    a > b || (a == b && (c > d || (c == d && (f.createdAt > g.createdAt || (f.createdAt == g.createdAt && f.id > g.id)))))
  }

  const BY_KEY: Order<Finding, Text> := Order(f => Key(f), (f, g) => Higher(f, g))

  lemma SomeKey(keys: set<Text>)
    requires keys != {}
    ensures exists k :: k in keys
  {
    assert (forall k: Text :: k !in keys) ==> keys == {};
  }

  lemma FindLeast(keys: set<Text>) returns (k: Text)
    requires keys != {}
    ensures k in keys && forall j :: j in keys ==> k <= j
  {
    SomeKey(keys);
    k :| k in keys;
    var others := keys - {k};
    assert keys == others + {k};
    if others != {} {
      var m := FindLeast(others);
      if m < k {
        k := m;
      }
    }
  }

  lemma LeastExists(keys: set<Text>)
    requires keys != {}
    ensures exists k :: k in keys && forall j :: j in keys ==> k <= j
  {
    var k := FindLeast(keys);
  }

  function Least(keys: set<Text>): (k: Text)
    ensures keys != {} ==> k in keys && forall j :: j in keys ==> k <= j
  {
    if keys == {} then 0
    else
      LeastExists(keys);
      var k :| k in keys && forall j :: j in keys ==> k <= j;
      k
  }

  function Dedupe(findings: seq<Finding>): seq<Finding> {
    Values(Least, Best(BY_KEY, findings))
  }

  predicate SortsBefore(f: Finding, g: Finding) {
    || Key(f) < Key(g)
    || (Key(f) == Key(g) && (f.createdAt < g.createdAt || (f.createdAt == g.createdAt && f.id < g.id)))
  }

  function Sorted(findings: seq<Finding>): seq<Finding> {
    SortedBy((f, g) => SortsBefore(f, g), findings)
  }

  ghost predicate DistinctIds(findings: seq<Finding>) {
    forall f, g :: f in findings && g in findings && f.id == g.id ==> f == g
  }

  lemma DistinctIdsAreTotal(findings: seq<Finding>)
    requires DistinctIds(findings)
    ensures Total(BY_KEY, findings)
  {
  }

  // The same findings in any order are deduplicated to the same list.
  lemma DedupeIgnoresOrder(a: seq<Finding>, b: seq<Finding>)
    requires DistinctIds(a) && forall f :: f in a <==> f in b
    ensures Dedupe(a) == Dedupe(b)
  {
    DistinctIdsAreTotal(a);
    DistinctIdsAreTotal(b);
    BestIgnoresOrder(BY_KEY, a, b);
  }

  // f has the highest priority under its key.
  ghost predicate Wins(f: Finding, findings: seq<Finding>) {
    f in findings && forall g :: g in findings && Key(g) == Key(f) && g != f ==> Higher(f, g)
  }

  // For every key the one finding of the highest priority, and nothing else.
  lemma DedupeKeepsTheHighest(findings: seq<Finding>, f: Finding)
    requires DistinctIds(findings)
    ensures f in Dedupe(findings) <==> Wins(f, findings)
  {
    DistinctIdsAreTotal(findings);
    BestHoldsBest(BY_KEY, findings);
    var m := Best(BY_KEY, findings);
    ValuesElements(Least, m);
    if f in findings {
      var held := m[Key(f)];
      assert held in findings && !Higher(f, held);
      assert f in Dedupe(findings) <==> f == held;
      forall g | g in findings && Key(g) == Key(held) && g != held
        ensures Higher(held, g)
      {
        assert !Higher(g, held);
      }
    }
  }

  // Deduplicating again changes nothing.
  lemma DedupeTwice(findings: seq<Finding>)
    requires DistinctIds(findings)
    ensures Dedupe(Dedupe(findings)) == Dedupe(findings)
  {
    DistinctIdsAreTotal(findings);
    BestOfValues(BY_KEY, Least, findings);
  }

  // The loop over the sorted findings, keeping a strictly higher one per key.
  method DedupeFindings(findings: seq<Finding>) returns (r: seq<Finding>)
    ensures r == Dedupe(Sorted(findings))
    ensures DistinctIds(findings) ==> r == Dedupe(findings)
  {
    var ordered := Sorted(findings);
    var best: map<Text, Finding> := map[];
    for i := 0 to |ordered|
      invariant best == Best(BY_KEY, ordered[..i])
    {
      assert ordered[..i + 1][..i] == ordered[..i];
      var f := ordered[i];
      if Key(f) !in best || Higher(f, best[Key(f)]) {
        best := best[Key(f) := f];
      }
    }
    assert ordered[..|ordered|] == ordered;
    if DistinctIds(findings) {
      DistinctIdsAreTotal(findings);
      BestOfSorted(BY_KEY, (f, g) => SortsBefore(f, g), findings);
    }
    r := Values(Least, best);
  }

  // ------------------------------------------------------------ the score

  function WeightSum(findings: seq<Finding>): nat {
    if findings == [] then 0 else Weight(findings[0]) + WeightSum(findings[1..])
  }

  function Primary(findings: seq<Finding>): nat {
    if findings == [] then 0 else Max(Weight(findings[0]), Primary(findings[1..]))
  }

  // The order in which the ceilings are looked up: the first severity present.
  predicate Has(findings: seq<Finding>, s: Severity) {
    exists i :: 0 <= i < |findings| && findings[i].severity == s
  }

  function Ceiling(findings: seq<Finding>): nat {
    if Has(findings, Critical) then 100
    else if Has(findings, Severity.High) then 74
    else if Has(findings, Severity.Medium) then 49
    else 19
  }

  // The nearest integer to n / 10000, and the even one of two.
  function Rounded(n: nat): nat {
    var q, r := n / 10_000, n % 10_000;
    if 2 * r < 10_000 then q
    else if 2 * r > 10_000 then q + 1
    else if q % 2 == 0 then q
    else q + 1
  }

  // The primary weight plus 15 percent of the rest, both in hundredths.
  function Combine(ceiling: nat, primary: nat, total: nat): nat {
    var supporting := Max(0, total - primary);
    Min(ceiling, Rounded(primary * 100 + supporting * 15))
  }

  function Aggregate(findings: seq<Finding>): nat {
    if findings == [] then 0 else Combine(Ceiling(findings), Primary(findings), WeightSum(findings))
  }

  datatype Label = LowRisk | ModerateRisk | HighRisk | CriticalRisk

  function RiskLabel(score: nat): Label {
    if score >= 75 then CriticalRisk
    else if score >= 50 then HighRisk
    else if score >= 20 then ModerateRisk
    else LowRisk
  }

  function ScanScore(findings: seq<Finding>): nat {
    Aggregate(Dedupe(findings))
  }

  lemma {:induction false} PrimaryWithinWeightSum(findings: seq<Finding>)
    ensures Primary(findings) <= WeightSum(findings)
  {
    if findings != [] {
      PrimaryWithinWeightSum(findings[1..]);
    }
  }

  lemma RoundedIsMonotone(m: nat, n: nat)
    requires m <= n
    ensures Rounded(m) <= Rounded(n)
  {
    assert m / 10_000 <= n / 10_000;
  }

  // The rounded value is within half a unit of the exact one.
  lemma RoundedIsNearest(n: nat)
    ensures -5_000 <= 10_000 * Rounded(n) - n <= 5_000
    ensures n % 10_000 == 5_000 ==> Rounded(n) % 2 == 0
  {
  }

  lemma KeptFindingsOccur(findings: seq<Finding>, s: Severity)
    requires DistinctIds(findings) && Has(Dedupe(findings), s)
    ensures Has(findings, s)
  {
    var i :| 0 <= i < |Dedupe(findings)| && Dedupe(findings)[i].severity == s;
    var f := Dedupe(findings)[i];
    DedupeKeepsTheHighest(findings, f);
    var j :| 0 <= j < |findings| && findings[j] == f;
  }

  // A finding may lose its key to another, but never to one of a lower severity.
  lemma SomeFindingAtLeast(findings: seq<Finding>, f: Finding) returns (g: Finding)
    requires DistinctIds(findings) && f in findings
    ensures g in Dedupe(findings) && SeverityWeight(g.severity) >= SeverityWeight(f.severity)
  {
    DistinctIdsAreTotal(findings);
    BestHoldsBest(BY_KEY, findings);
    g := Best(BY_KEY, findings)[Key(f)];
    ValuesElements(Least, Best(BY_KEY, findings));
  }

  lemma SeverityIsKept(findings: seq<Finding>, s: Severity) returns (t: Severity)
    requires DistinctIds(findings) && Has(findings, s)
    ensures SeverityWeight(t) >= SeverityWeight(s) && Has(Dedupe(findings), t)
  {
    var i :| 0 <= i < |findings| && findings[i].severity == s;
    var g := SomeFindingAtLeast(findings, findings[i]);
    t := g.severity;
    var j :| 0 <= j < |Dedupe(findings)| && Dedupe(findings)[j] == g;
  }

  lemma CeilingIsMonotone(a: seq<Finding>, b: seq<Finding>)
    requires Has(a, Critical) ==> Has(b, Critical)
    requires Has(a, Severity.High) ==> Has(b, Critical) || Has(b, Severity.High)
    requires Has(a, Severity.Medium) ==> Has(b, Critical) || Has(b, Severity.High) || Has(b, Severity.Medium)
    ensures Ceiling(a) <= Ceiling(b)
  {
  }

  // Deduplication never changes the ceiling.
  lemma CeilingSurvivesDedupe(findings: seq<Finding>)
    requires DistinctIds(findings)
    ensures Ceiling(Dedupe(findings)) == Ceiling(findings)
  {
    forall s | Has(Dedupe(findings), s)
      ensures Has(findings, s)
    {
      KeptFindingsOccur(findings, s);
    }
    CeilingIsMonotone(Dedupe(findings), findings);
    if Has(findings, Critical) {
      var t := SeverityIsKept(findings, Critical);
    }
    if Has(findings, Severity.High) {
      var t := SeverityIsKept(findings, Severity.High);
    }
    if Has(findings, Severity.Medium) {
      var t := SeverityIsKept(findings, Severity.Medium);
    }
    CeilingIsMonotone(findings, Dedupe(findings));
  }

  // The score stays within the ceiling of the highest severity found, and its label
  // within that severity's band.
  lemma LabelWithinBand(findings: seq<Finding>)
    requires DistinctIds(findings)
    ensures var score := ScanScore(findings);
            && 0 <= score <= Ceiling(findings) <= 100
            && (RiskLabel(score).CriticalRisk? ==> Has(findings, Critical))
            && (RiskLabel(score).HighRisk? ==> Has(findings, Critical) || Has(findings, Severity.High))
            && (RiskLabel(score).ModerateRisk? ==>
                  Has(findings, Critical) || Has(findings, Severity.High) || Has(findings, Severity.Medium))
  {
    CeilingSurvivesDedupe(findings);
  }

  // A label begins right above the ceiling of the severity below its own.
  lemma LabelsBeginAboveCeilings(score: nat, high: Finding, medium: Finding, low: Finding)
    requires high.severity.High? && medium.severity.Medium? && low.severity.Low?
    ensures RiskLabel(score).CriticalRisk? <==> score > Ceiling([high])
    ensures RiskLabel(score).HighRisk? <==> Ceiling([medium]) < score <= Ceiling([high])
    ensures RiskLabel(score).ModerateRisk? <==> Ceiling([low]) < score <= Ceiling([medium])
    ensures RiskLabel(score).LowRisk? <==> score <= Ceiling([low])
  {
    OnlyOne(high);
    OnlyOne(medium);
    OnlyOne(low);
  }

  lemma {:induction false} TotalConcat(a: seq<Finding>, b: seq<Finding>)
    ensures WeightSum(a + b) == WeightSum(a) + WeightSum(b)
    ensures Primary(a + b) == Max(Primary(a), Primary(b))
  {
    if a == [] {
      assert a + b == b;
    } else {
      assert (a + b)[1..] == a[1..] + b;
      TotalConcat(a[1..], b);
    }
  }

  lemma CeilingGrows(a: seq<Finding>, f: Finding, b: seq<Finding>)
    ensures Ceiling(a + b) <= Ceiling(a + [f] + b)
  {
    forall s | Has(a + b, s)
      ensures Has(a + [f] + b, s)
    {
      var i :| 0 <= i < |a + b| && (a + b)[i].severity == s;
      var j := if i < |a| then i else i + 1;
      assert (a + [f] + b)[j] == (a + b)[i];
    }
  }

  lemma CombineIsMonotone(c: nat, p: nat, t: nat, d: nat, q: nat, u: nat)
    requires c <= d && p <= q && t <= u && p <= t && q <= u
    ensures Combine(c, p, t) <= Combine(d, q, u)
  {
    var m: nat, n: nat := p * 100 + (t - p) * 15, q * 100 + (u - q) * 15;
    assert m <= n;
    RoundedIsMonotone(m, n);
  }

  lemma AggregateIsMonotone(x: seq<Finding>, y: seq<Finding>)
    requires y != [] && Primary(x) <= Primary(y) && WeightSum(x) <= WeightSum(y) && Ceiling(x) <= Ceiling(y)
    ensures Aggregate(x) <= Aggregate(y)
  {
    PrimaryWithinWeightSum(x);
    PrimaryWithinWeightSum(y);
    CombineIsMonotone(Ceiling(x), Primary(x), WeightSum(x), Ceiling(y), Primary(y), WeightSum(y));
  }

  lemma WeightsGrow(a: seq<Finding>, f: Finding, b: seq<Finding>)
    ensures Primary(a + b) <= Primary(a + [f] + b) && WeightSum(a + b) <= WeightSum(a + [f] + b)
  {
    TotalConcat(a, b);
    TotalConcat(a, [f]);
    TotalConcat(a + [f], b);
  }

  lemma AggregateGrows(a: seq<Finding>, f: Finding, b: seq<Finding>)
    ensures Aggregate(a + b) <= Aggregate(a + [f] + b)
  {
    WeightsGrow(a, f, b);
    CeilingGrows(a, f, b);
    AggregateIsMonotone(a + b, a + [f] + b);
  }

  lemma InsertRemove(m: map<Text, Finding>, k: Text, f: Finding, other: Text)
    requires k !in m
    ensures m[k := f] - {k} == m
    ensures other != k ==> m[k := f] - {other} == (m - {other})[k := f]
  {
  }

  lemma {:induction false} ValuesInsert(m: map<Text, Finding>, k: Text, f: Finding)
    returns (a: seq<Finding>, b: seq<Finding>)
    requires k !in m
    ensures Values(Least, m) == a + b && Values(Least, m[k := f]) == a + [f] + b
  {
    var more := m[k := f];
    assert k in more.Keys;
    var least: Text := Least(more.Keys);
    InsertRemove(m, k, f, least);
    FirstValue(more, least);
    if least == k {
      a, b := [], Values(Least, m);
    } else {
      LeastOfFewer(m.Keys, more.Keys);
      FirstValue(m, least);
      a, b := ValuesInsert(m - {least}, k, f);
      a := [m[least]] + a;
    }
  }

  lemma FirstValue(m: map<Text, Finding>, least: Text)
    requires least in m && least == Least(m.Keys)
    ensures Values(Least, m) == [m[least]] + Values(Least, m - {least})
  {
  }

  lemma LeastOfFewer(keys: set<Text>, more: set<Text>)
    requires keys <= more && more != {} && Least(more) in keys
    ensures Least(keys) == Least(more)
  {
    assert Least(keys) in keys && Least(keys) in more;
  }

  // A finding under a key that is new never lowers the score.
  lemma FreshKeyNeverLowers(findings: seq<Finding>, f: Finding)
    requires forall g :: g in findings ==> Key(g) != Key(f)
    ensures ScanScore(findings) <= ScanScore(findings + [f])
  {
    var all := findings + [f];
    assert all[..|all| - 1] == findings;
    KeysOccur(findings);
    var m := Best(BY_KEY, findings);
    var a, b := ValuesInsert(m, Key(f), f);
    AggregateGrows(a, f, b);
  }

  // The score before it is rounded and cut, in ten-thousandths.
  function Exact(findings: seq<Finding>): nat {
    PrimaryWithinWeightSum(findings);
    Primary(findings) * 100 + (WeightSum(findings) - Primary(findings)) * 15
  }

  lemma ExactGrows(a: seq<Finding>, f: Finding, b: seq<Finding>)
    ensures var w, p := Weight(f), Primary(a + b);
            Exact(a + [f] + b) == Exact(a + b) + if w <= p then w * 15 else (w - p) * 100 + p * 15
  {
    TotalConcat(a, b);
    TotalConcat(a, [f]);
    TotalConcat(a + [f], b);
    assert [f][1..] == [];
    assert WeightSum([f]) == Weight(f) && Primary([f]) == Weight(f);
  }

  lemma BelowCeiling(findings: seq<Finding>)
    requires Aggregate(findings) < Ceiling(findings)
    ensures findings != [] ==> Aggregate(findings) == Rounded(Exact(findings))
  {
    PrimaryWithinWeightSum(findings);
  }

  // Below the ceilings, a finding under a new key adds 15 percent of its weight, or moves
  // the score to its own weight and 15 percent of the one it outweighs; the rounding of
  // the two scores is all that comes between.
  lemma FreshKeyAdds(findings: seq<Finding>, f: Finding)
    requires findings != [] && forall g :: g in findings ==> Key(g) != Key(f)
    requires ScanScore(findings) < Ceiling(Dedupe(findings))
    requires ScanScore(findings + [f]) < Ceiling(Dedupe(findings + [f]))
    ensures var w, p := Weight(f), Primary(Dedupe(findings));
            var added := if w <= p then w * 15 else (w - p) * 100 + p * 15;
            -10_000 <= 10_000 * (ScanScore(findings + [f]) - ScanScore(findings)) - added <= 10_000
  {
    var all := findings + [f];
    assert all[..|all| - 1] == findings;
    KeysOccur(findings);
    var a, b := ValuesInsert(Best(BY_KEY, findings), Key(f), f);
    ExactGrows(a, f, b);
    SomethingKept(findings);
    BelowCeiling(a + b);
    BelowCeiling(a + [f] + b);
    RoundedIsNearest(Exact(a + b));
    RoundedIsNearest(Exact(a + [f] + b));
  }

  lemma SomethingKept(findings: seq<Finding>)
    requires findings != []
    ensures Dedupe(findings) != []
  {
    var last := findings[|findings| - 1];
    assert Key(last) in Best(BY_KEY, findings);
    SomeKey(Best(BY_KEY, findings).Keys);
  }

  // What a single finding scores.
  function AloneScore(s: Severity, c: Confidence): nat {
    match (s, c)
    case (Critical, Confirmed) => 100
    case (Critical, High) => 90
    case (Critical, Medium) => 70
    case (Critical, _) => 50
    case (High, Confirmed) => 70
    case (High, High) => 63
    case (High, Medium) => 49
    case (High, _) => 35
    case (Medium, Confirmed) => 35
    case (Medium, High) => 32
    case (Medium, Medium) => 24
    case (Medium, _) => 18
    case (Low, Confirmed) => 15
    case (Low, High) => 14
    case (Low, Medium) => 10
    case (Low, _) => 8
    case (_, Confirmed) => 5
    case (_, High) => 4
    case (_, Medium) => 4
    case (_, _) => 2
  }

  lemma AloneIsRounded(s: Severity, c: Confidence, ceiling: nat)
    requires ceiling == match s case Critical => 100 case High => 74 case Medium => 49 case _ => 19
    ensures Min(ceiling, Rounded(SeverityWeight(s) * ConfidencePercent(c) * 100)) == AloneScore(s, c)
  {
  }

  lemma SingleFindingScores(f: Finding)
    ensures ScanScore([f]) == AloneScore(f.severity, f.confidence)
  {
    OneScore(f);
    OneIsKept(f);
    OnlyOne(f);
    AloneIsRounded(f.severity, f.confidence, Ceiling([f]));
  }

  lemma OneIsKept(f: Finding)
    ensures Best(BY_KEY, [f]) == map[Key(f) := f]
  {
    assert [f][..0] == [];
    assert Best(BY_KEY, []) == map[];
  }

  lemma OnlyOne(f: Finding)
    ensures forall s :: Has([f], s) <==> s == f.severity
  {
    assert [f][0] == f;
  }

  // Under a key that is there already, it can: a critical finding of weak confidence
  // replaces a confirmed high one that weighed more.
  lemma KnownKeyCanLower()
    ensures var high := Finding(1, 9, Severity.High, Confirmed, 1);
            var critical := Finding(2, 9, Critical, Confidence.Low, 2);
            ScanScore([high]) == 70 && ScanScore([high, critical]) == 50
  {
    var high := Finding(1, 9, Severity.High, Confirmed, 1);
    var critical := Finding(2, 9, Critical, Confidence.Low, 2);
    assert [high, critical][..1] == [high] && [high][..0] == [];
    assert Best(BY_KEY, []) == map[];
    assert Best(BY_KEY, [high]) == map[9 := high];
    assert Best(BY_KEY, [high, critical]) == map[9 := critical];
    OneScore(high);
    OneScore(critical);
  }

  lemma OneScore(f: Finding)
    ensures Values(Least, map[Key(f) := f]) == [f]
    ensures Aggregate([f]) == Min(Ceiling([f]), Rounded(Weight(f) * 100))
    ensures Has([f], f.severity)
  {
    var m := map[Key(f) := f];
    assert Key(f) in m.Keys && Least(m.Keys) == Key(f);
    assert m - {Key(f)} == map[];
    assert [f][0].severity == f.severity && [f][1..] == [];
    assert WeightSum([]) == 0 && Primary([]) == 0;
    assert WeightSum([f]) == Weight(f) && Primary([f]) == Weight(f);
    assert Weight(f) * 100 + 0 * 15 == Weight(f) * 100;
  }

  lemma {:induction false} KeysOccur(findings: seq<Finding>)
    ensures forall k :: k in Best(BY_KEY, findings) ==> exists g :: g in findings && Key(g) == k
  {
    if findings != [] {
      KeysOccur(findings[..|findings| - 1]);
    }
  }

  // ------------------------------------------------------------ counting, as the service does

  function Count(counts: map<Severity, nat>, s: Severity): nat {
    if s in counts then counts[s] else 0
  }

  function Sum(values: seq<nat>): nat {
    if values == [] then 0 else values[0] + Sum(values[1..])
  }

  function Greatest(values: seq<nat>): nat {
    if values == [] then 0 else Max(values[0], Greatest(values[1..]))
  }

  function Weights(findings: seq<Finding>): seq<nat> {
    seq(|findings|, i requires 0 <= i < |findings| => Weight(findings[i]))
  }

  // The first severity in the order of the ceilings that was counted.
  function AggregateWeighted(values: seq<nat>, counts: map<Severity, nat>): nat {
    if values == [] then 0
    else
      var ceiling :=
        if Count(counts, Critical) > 0 then 100
        else if Count(counts, Severity.High) > 0 then 74
        else if Count(counts, Severity.Medium) > 0 then 49
        else if Count(counts, Severity.Low) > 0 then 19
        else 19;
      Combine(ceiling, Greatest(values), Sum(values))
  }

  ghost predicate Counted(counts: map<Severity, nat>, findings: seq<Finding>) {
    forall s :: Count(counts, s) > 0 <==> Has(findings, s)
  }

  lemma {:induction false} WeightsAgree(findings: seq<Finding>)
    ensures Sum(Weights(findings)) == WeightSum(findings) && Greatest(Weights(findings)) == Primary(findings)
  {
    if findings != [] {
      WeightsAgree(findings[1..]);
      assert Weights(findings)[1..] == Weights(findings[1..]);
    }
  }

  lemma AggregatesAgree(findings: seq<Finding>, counts: map<Severity, nat>)
    requires Counted(counts, findings)
    ensures AggregateWeighted(Weights(findings), counts) == Aggregate(findings)
  {
    WeightsAgree(findings);
  }

  method CalculateScanRiskScore(findings: seq<Finding>) returns (score: nat, risk: Label)
    ensures score == Aggregate(Dedupe(Sorted(findings))) && risk == RiskLabel(score)
    ensures DistinctIds(findings) ==> score == ScanScore(findings)
  {
    var deduped := DedupeFindings(findings);
    var counts: map<Severity, nat> := map[];
    var values: seq<nat> := [];
    for i := 0 to |deduped|
      invariant values == Weights(deduped[..i])
      invariant Counted(counts, deduped[..i])
    {
      var f := deduped[i];
      CountOneMore(counts, deduped, i);
      counts := counts[f.severity := Count(counts, f.severity) + 1];
      values := values + [Weight(f)];
    }
    assert deduped[..|deduped|] == deduped;
    AggregatesAgree(deduped, counts);
    score := AggregateWeighted(values, counts);
    risk := RiskLabel(score);
  }

  lemma CountOneMore(counts: map<Severity, nat>, findings: seq<Finding>, i: nat)
    requires i < |findings| && Counted(counts, findings[..i])
    ensures var s := findings[i].severity; Counted(counts[s := Count(counts, s) + 1], findings[..i + 1])
  {
    forall s
      ensures Has(findings[..i + 1], s) <==> Has(findings[..i], s) || findings[i].severity == s
    {
      HasOneMore(findings, i, s);
    }
    var one := findings[i].severity;
    var more := counts[one := Count(counts, one) + 1];
    forall s
      ensures Count(more, s) > 0 <==> Has(findings[..i + 1], s)
    {
      assert Count(counts, s) > 0 <==> Has(findings[..i], s);
    }
  }

  lemma HasOneMore(findings: seq<Finding>, i: nat, s: Severity)
    requires i < |findings|
    ensures Has(findings[..i + 1], s) <==> Has(findings[..i], s) || findings[i].severity == s
  {
    var longer := findings[..i + 1];
    if Has(findings[..i], s) {
      var j :| 0 <= j < i && findings[..i][j].severity == s;
      assert longer[j].severity == s;
    }
    if Has(longer, s) {
      var j :| 0 <= j < i + 1 && longer[j].severity == s;
      assert j < i ==> findings[..i][j].severity == s;
    }
    assert longer[i] == findings[i];
  }

  // ------------------------------------------------------------ posture over subjects

  datatype Entry = Entry(subject: Text, finding: Finding)

  type Pair = (Text, Text)

  const BY_SUBJECT: Order<Entry, Pair> := Order(
    (e: Entry) => (e.subject, Key(e.finding)), (e: Entry, f: Entry) => Higher(e.finding, f.finding))

  function Subjects(keys: set<Pair>): set<Text> {
    set p | p in keys :: p.0
  }

  function KeysOf(keys: set<Pair>, subject: Text): set<Text> {
    set p | p in keys && p.0 == subject :: p.1
  }

  lemma PairsOccur(keys: set<Pair>)
    requires keys != {}
    ensures Subjects(keys) != {}
    ensures forall s :: s in Subjects(keys) ==> KeysOf(keys, s) != {}
    ensures forall p :: p in keys ==> p.0 in Subjects(keys) && p.1 in KeysOf(keys, p.0)
  {
    var p :| p in keys;
    assert p.0 in Subjects(keys);
    forall s | s in Subjects(keys)
      ensures KeysOf(keys, s) != {}
    {
      var q :| q in keys && q.0 == s;
      assert q.1 in KeysOf(keys, s);
    }
  }

  function LeastPair(keys: set<Pair>): (p: Pair)
    ensures keys != {} ==> p in keys && forall q :: q in keys ==> p.0 < q.0 || (p.0 == q.0 && p.1 <= q.1)
  {
    if keys == {} then (0, 0)
    else
      PairsOccur(keys);
      var s := Least(Subjects(keys));
      (s, Least(KeysOf(keys, s)))
  }

  function DedupeBySubject(entries: seq<Entry>): seq<Entry> {
    Values(LeastPair, Best(BY_SUBJECT, entries))
  }

  predicate EntrySortsBefore(e: Entry, f: Entry) {
    e.subject < f.subject || (e.subject == f.subject && SortsBefore(e.finding, f.finding))
  }

  function SortedEntries(entries: seq<Entry>): seq<Entry> {
    SortedBy((e, f) => EntrySortsBefore(e, f), entries)
  }

  lemma BestNext(entries: seq<Entry>, i: nat)
    requires i < |entries|
    ensures var e := entries[i];
            var key := (e.subject, Key(e.finding));
            var best := Best(BY_SUBJECT, entries[..i]);
            Best(BY_SUBJECT, entries[..i + 1]) ==
            if key !in best || Higher(e.finding, best[key].finding) then best[key := e] else best
  {
    assert entries[..i + 1][..i] == entries[..i];
  }

  method DedupeFindingsBySubject(entries: seq<Entry>) returns (r: seq<Entry>)
    ensures r == DedupeBySubject(SortedEntries(entries))
    ensures Total(BY_SUBJECT, entries) ==> r == DedupeBySubject(entries)
  {
    var ordered := SortedEntries(entries);
    var best: map<Pair, Entry> := map[];
    for i := 0 to |ordered|
      invariant best == Best(BY_SUBJECT, ordered[..i])
    {
      var e := ordered[i];
      var key := (e.subject, Key(e.finding));
      BestNext(ordered, i);
      if key !in best || Higher(e.finding, best[key].finding) {
        best := best[key := e];
      }
    }
    assert ordered[..|ordered|] == ordered;
    if Total(BY_SUBJECT, entries) {
      BestOfSorted(BY_SUBJECT, (e, f) => EntrySortsBefore(e, f), entries);
    }
    r := Values(LeastPair, best);
  }

  function Findings(entries: seq<Entry>): seq<Finding> {
    if entries == [] then [] else [entries[0].finding] + Findings(entries[1..])
  }

  function PostureScore(entries: seq<Entry>): nat {
    Aggregate(Findings(DedupeBySubject(entries)))
  }

  function Under(subject: Text, findings: seq<Finding>): seq<Entry> {
    seq(|findings|, i requires 0 <= i < |findings| => Entry(subject, findings[i]))
  }

  // m with every key under one subject.
  ghost predicate Mirrors(subject: Text, m: map<Text, Finding>, n: map<Pair, Entry>) {
    && (forall k :: k in m ==> (subject, k) in n && n[(subject, k)] == Entry(subject, m[k]))
    && (forall p :: p in n ==> p.0 == subject && p.1 in m)
  }

  lemma {:induction false} BestMirrors(subject: Text, findings: seq<Finding>)
    ensures Mirrors(subject, Best(BY_KEY, findings), Best(BY_SUBJECT, Under(subject, findings)))
  {
    if findings != [] {
      var n := |findings| - 1;
      BestMirrors(subject, findings[..n]);
      assert Under(subject, findings)[..n] == Under(subject, findings[..n]);
    }
  }

  lemma MirrorIsEmpty(subject: Text, m: map<Text, Finding>, n: map<Pair, Entry>)
    requires Mirrors(subject, m, n)
    ensures m != map[] ==> n != map[]
  {
    if m != map[] {
      SomeKey(m.Keys);
      var k :| k in m.Keys;
      assert (subject, k) in n;
    }
  }

  lemma {:induction false} ValuesMirror(subject: Text, m: map<Text, Finding>, n: map<Pair, Entry>)
    requires Mirrors(subject, m, n)
    ensures Findings(Values(LeastPair, n)) == Values(Least, m)
  {
    if n == map[] {
      MirrorIsEmpty(subject, m, n);
    } else {
      var p := LeastPair(n.Keys);
      assert p in n.Keys;
      var k := Least(m.Keys);
      assert (subject, k) in n.Keys && p == (subject, k);
      ValuesMirror(subject, m - {k}, n - {p});
    }
  }

  // For one subject the posture score is the scan score of the same findings.
  lemma OneSubjectPosture(subject: Text, findings: seq<Finding>)
    ensures PostureScore(Under(subject, findings)) == ScanScore(findings)
  {
    BestMirrors(subject, findings);
    ValuesMirror(subject, Best(BY_KEY, findings), Best(BY_SUBJECT, Under(subject, findings)));
  }
}
