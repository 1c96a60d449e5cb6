/** The composite risk score: a weighted base, context evidence, cross-domain convergence, and
    domain-specific dampening and boosting. What each of them does to the score is stated part by
    part, and then its bounds, its monotonicity and its independence of the order of the anomalies.
    Scores are exact reals. */
module Risk {
  import opened Collections

  datatype Anomaly = Anomaly(metricType: string, score: real)

  const PATTERN_WEIGHT := 0.4
  const ANOMALY_WEIGHT := 0.35
  const ALIGNMENT_WEIGHT := 0.25

  const MULTI := "multi"

  /** The intelligence domain of an anomaly; unknown types count as generic. */
  function Domain(metricType: string): string {
    if metricType == "emergency" then "aviation"
    else if metricType == "satellite_signal_loss" || metricType == "space_weather" then "orbital"
    else if metricType == "internet_outage" then "infrastructure"
    else MULTI
  }

  function Base(pattern: real, anomaly: real, alignment: real): real {
    PATTERN_WEIGHT * pattern + ANOMALY_WEIGHT * anomaly + ALIGNMENT_WEIGHT * alignment
  }

  function Active(anomalies: seq<Anomaly>): seq<Anomaly> {
    if anomalies == [] then []
    else (if anomalies[0].score > 0.0 then [anomalies[0]] else []) + Active(anomalies[1..])
  }

  /** Space weather explains other signals; it is not evidence by itself. */
  function Contributing(anomalies: seq<Anomaly>): seq<Anomaly> {
    if anomalies == [] then []
    else (if anomalies[0].metricType != "space_weather" then [anomalies[0]] else []) + Contributing(anomalies[1..])
  }

  function Total(anomalies: seq<Anomaly>): real {
    if anomalies == [] then 0.0 else anomalies[0].score + Total(anomalies[1..])
  }

  function Mean(anomalies: seq<Anomaly>): real
    requires anomalies != []
  {
    Total(anomalies) / |anomalies| as real
  }

  function Min1(x: real): real {
    if x < 1.0 then x else 1.0
  }

  /** Evidence of mean score `m` fills a fifth of the remaining headroom, in proportion. */
  function Fill(risk: real, m: real): real {
    Min1(risk + 0.2 * m * (1.0 - risk))
  }

  function WithContext(risk: real, context: seq<Anomaly>): real {
    var contributing := Contributing(Active(context));
    if contributing == [] then risk else Fill(risk, Mean(contributing))
  }

  /** The specific domains active in either list. */
  function Domains(context: seq<Anomaly>, behavioral: seq<Anomaly>): set<string> {
    (set a | a in Active(context) + Active(behavioral) :: Domain(a.metricType)) - {MULTI}
  }

  function Convergence(domains: set<string>, boost: real): real {
    if |domains| >= 2 then 1.0 + boost * (|domains| - 1) as real else 1.0
  }

  predicate Storm(context: seq<Anomaly>) {
    exists a <- context :: a.metricType == "space_weather" && a.score > 0.5
  }

  predicate Outage(context: seq<Anomaly>) {
    exists a <- context :: a.metricType == "internet_outage" && a.score > 0.7
  }

  /** Convergence, then at most one dampening and one boost, then the cap. */
  function Compose(risk: real, factor: real, storm: bool, outage: bool): real {
    var converged := risk * factor;
    var damped := if storm then converged * 0.9 else converged;
    Min1(if outage then damped * 1.1 else damped)
  }

  /** compute_risk_score; `boost` is the per-domain convergence boost. */
  function Score(pattern: real, anomaly: real, alignment: real,
                 context: seq<Anomaly>, behavioral: seq<Anomaly>, boost: real): real
  {
    Adjusted(WithContext(Base(pattern, anomaly, alignment), context), context, behavioral, boost)
  }

  /** What the domains, the storms and the outages make of a score. */
  function Adjusted(risk: real, context: seq<Anomaly>, behavioral: seq<Anomaly>, boost: real): real {
    Compose(risk, Convergence(Domains(context, behavioral), boost), Storm(context), Outage(context))
  }

  predicate Unit(x: real) {
    0.0 <= x <= 1.0
  }

  predicate UnitScores(anomalies: seq<Anomaly>) {
    forall a <- anomalies :: Unit(a.score)
  }

  // ---------------------------------------------------------------------------
  // The statement sequence of the source
  // ---------------------------------------------------------------------------

  method ComputeRiskScore(pattern: real, anomaly: real, alignment: real,
                          context: seq<Anomaly>, behavioral: seq<Anomaly>, boost: real) returns (risk: real)
    ensures risk == Score(pattern, anomaly, alignment, context, behavioral, boost)
  {
    risk := Base(pattern, anomaly, alignment);
    var activeContext, activeBehavioral := Active(context), Active(behavioral);
    if activeContext != [] {
      risk := AddContext(risk, activeContext);
    }
    assert risk == WithContext(Base(pattern, anomaly, alignment), context);
    var domains := Domains(context, behavioral);
    assert activeContext + activeBehavioral == [] ==> domains == {};
    StormIsActive(context);
    risk := Adjust(risk, if activeContext != [] || activeBehavioral != [] then domains else {},
                   boost, Storm(activeContext), Outage(activeContext));
  }

  method AddContext(before: real, activeContext: seq<Anomaly>) returns (risk: real)
    ensures risk == if Contributing(activeContext) == [] then before else Fill(before, Mean(Contributing(activeContext)))
    ensures Unit(before) && UnitScores(activeContext) ==> before <= risk <= before + 0.2 * (1.0 - before)
  {
    risk := before;
    var contributing := Contributing(activeContext);
    if contributing != [] {
      var contextScore := Total(contributing) / |contributing| as real;
      risk := Min1(risk + 0.2 * contextScore * (1.0 - risk));
    }
    if Unit(before) && UnitScores(activeContext) {
      EvidenceFillsAtMostAFifth(before, activeContext);
    }
  }

  method Adjust(before: real, domains: set<string>, boost: real, storm: bool, outage: bool) returns (risk: real)
    ensures risk == Compose(before, Convergence(domains, boost), storm, outage)
    ensures Unit(before) && boost >= 0.0 ==> 0.9 * before <= risk <= 1.0 && (!storm ==> before <= risk)
  {
    risk := before;
    AdjustmentBounds(before, domains, boost, storm, outage);
    if |domains| >= 2 {
      var factor := 1.0 + boost * (|domains| - 1) as real;
      risk := risk * factor;
    }
    if storm {
      risk := risk * 0.9;
    }
    if outage {
      risk := risk * 1.1;
    }
    risk := Min1(risk);
  }

  lemma {:induction false} AdjustmentBounds(before: real, domains: set<string>, boost: real, storm: bool, outage: bool)
    ensures var risk := Compose(before, Convergence(domains, boost), storm, outage);
            Unit(before) && boost >= 0.0 ==> 0.9 * before <= risk <= 1.0 && (!storm ==> before <= risk)
  {
    if Unit(before) && boost >= 0.0 {
      ConvergenceAtLeastOne(domains, boost);
      ComposeFacts(before, before, Convergence(domains, boost), storm, outage);
    }
  }

  lemma {:induction false} ActiveMember(anomalies: seq<Anomaly>, a: Anomaly)
    ensures a in Active(anomalies) <==> a in anomalies && a.score > 0.0
  {
    if anomalies != [] {
      assert anomalies == [anomalies[0]] + anomalies[1..];
      ActiveMember(anomalies[1..], a);
    }
  }

  lemma {:induction false} StormIsActive(context: seq<Anomaly>)
    ensures Storm(context) <==> Storm(Active(context))
    ensures Outage(context) <==> Outage(Active(context))
  {
    forall a: Anomaly ensures a in Active(context) <==> a in context && a.score > 0.0 {
      ActiveMember(context, a);
    }
  }

  // ---------------------------------------------------------------------------
  // Bounds
  // ---------------------------------------------------------------------------

  lemma {:induction false} ContributingMember(anomalies: seq<Anomaly>, a: Anomaly)
    ensures a in Contributing(anomalies) <==> a in anomalies && a.metricType != "space_weather"
  {
    if anomalies != [] {
      assert anomalies == [anomalies[0]] + anomalies[1..];
      ContributingMember(anomalies[1..], a);
    }
  }

  lemma {:induction false} TotalBounds(anomalies: seq<Anomaly>)
    requires UnitScores(anomalies)
    ensures 0.0 <= Total(anomalies) <= |anomalies| as real
  {
    if anomalies != [] {
      assert anomalies[0] in anomalies;
      TotalBounds(anomalies[1..]);
    }
  }

  lemma {:induction false} QuotientUnit(x: real, n: real)
    requires 0.0 <= x <= n && n > 0.0
    ensures 0.0 <= x / n <= 1.0
  {
  }

  lemma {:induction false} EvidenceUnit(active: seq<Anomaly>)
    requires UnitScores(active) && Contributing(active) != []
    ensures Unit(Mean(Contributing(active)))
  {
    var c := Contributing(active);
    forall a | a in c ensures Unit(a.score) {
      ContributingMember(active, a);
    }
    TotalBounds(c);
    QuotientUnit(Total(c), |c| as real);
  }

  lemma {:induction false} EvidenceFillsAtMostAFifth(r: real, active: seq<Anomaly>)
    requires UnitScores(active) && Unit(r)
    ensures Contributing(active) != [] ==> r <= Fill(r, Mean(Contributing(active))) <= r + 0.2 * (1.0 - r)
  {
    if Contributing(active) != [] {
      var m := Mean(Contributing(active));
      EvidenceUnit(active);
      FillFacts(r, r, m);
      ProductNonNegative(1.0 - m, 1.0 - r);
      assert (1.0 - m) * (1.0 - r) == (1.0 - r) - m * (1.0 - r);
    }
  }

  lemma {:induction false} MeanUnit(context: seq<Anomaly>)
    requires UnitScores(context) && Contributing(Active(context)) != []
    ensures Unit(Mean(Contributing(Active(context))))
  {
    forall a | a in Active(context) ensures Unit(a.score) {
      ActiveMember(context, a);
    }
    EvidenceUnit(Active(context));
  }

  lemma {:induction false} ProductNonNegative(x: real, y: real)
    requires x >= 0.0 && y >= 0.0
    ensures x * y >= 0.0
  {
  }

  lemma {:induction false} FillFacts(r: real, s: real, m: real)
    requires Unit(m) && r <= s <= 1.0
    ensures r <= Fill(r, m) <= Fill(s, m) <= 1.0
  {
    var k := 0.2 * m;
    assert 0.0 <= k <= 0.2;
    ProductNonNegative(k, 1.0 - r);
    ProductNonNegative(s - r, 1.0 - k);
    assert (s - r) * (1.0 - k) == (s + k * (1.0 - s)) - (r + k * (1.0 - r));
  }

  /** Context evidence never reduces a base score of at most one, and keeps order. */
  lemma {:induction false} ContextRaises(r: real, s: real, context: seq<Anomaly>)
    requires UnitScores(context) && 0.0 <= r <= s <= 1.0
    ensures r <= WithContext(r, context) <= 1.0
    ensures WithContext(r, context) <= WithContext(s, context)
  {
    if Contributing(Active(context)) != [] {
      MeanUnit(context);
      FillFacts(r, s, Mean(Contributing(Active(context))));
    }
  }

  lemma {:induction false} ConvergenceAtLeastOne(domains: set<string>, boost: real)
    requires boost >= 0.0
    ensures Convergence(domains, boost) >= 1.0
  {
    if |domains| >= 2 {
      ProductNonNegative(boost, (|domains| - 1) as real);
    }
  }

  lemma {:induction false} ComposeFacts(x: real, y: real, f: real, storm: bool, outage: bool)
    requires 0.0 <= x <= y && f >= 1.0
    ensures 0.0 <= Compose(x, f, storm, outage) <= Compose(y, f, storm, outage) <= 1.0
    ensures x <= 1.0 ==> Compose(x, f, storm, outage) >= 0.9 * x
    ensures x <= 1.0 && !storm ==> Compose(x, f, storm, outage) >= x
  {
    ProductNonNegative(x, f - 1.0);
    ProductNonNegative(y - x, f);
    assert x * f == x + x * (f - 1.0);
    assert y * f == x * f + (y - x) * f;
  }

  lemma {:induction false} BaseUnit(pattern: real, anomaly: real, alignment: real)
    requires Unit(pattern) && Unit(anomaly) && Unit(alignment)
    ensures Unit(Base(pattern, anomaly, alignment))
  {
  }

  /** The score never falls when any of the three base inputs rises. */
  lemma {:induction false} ScoreIsMonotone(p: real, a: real, l: real, p': real, a': real, l': real,
                        context: seq<Anomaly>, behavioral: seq<Anomaly>, boost: real)
    requires Unit(p) && Unit(a) && Unit(l) && Unit(p') && Unit(a') && Unit(l')
    requires p <= p' && a <= a' && l <= l'
    requires UnitScores(context) && boost >= 0.0
    ensures Score(p, a, l, context, behavioral, boost) <= Score(p', a', l', context, behavioral, boost)
  {
    var r, s := Base(p, a, l), Base(p', a', l');
    BaseUnit(p, a, l);
    BaseUnit(p', a', l');
    ContextRaises(r, s, context);
    ConvergenceAtLeastOne(Domains(context, behavioral), boost);
    ComposeFacts(WithContext(r, context), WithContext(s, context),
                 Convergence(Domains(context, behavioral), boost), Storm(context), Outage(context));
  }

  /** The score lies in [0, 1]; it is at least nine tenths of the base, and at least the base
      itself when no space weather scores above one half. */
  lemma {:induction false} ScoreBounds(p: real, a: real, l: real, context: seq<Anomaly>, behavioral: seq<Anomaly>, boost: real)
    requires Unit(p) && Unit(a) && Unit(l) && UnitScores(context) && boost >= 0.0
    ensures var score := Score(p, a, l, context, behavioral, boost);
            && Unit(score)
            && score >= 0.9 * Base(p, a, l)
            && (!Storm(context) ==> score >= Base(p, a, l))
  {
    var r := Base(p, a, l);
    BaseUnit(p, a, l);
    ContextRaises(r, r, context);
    ConvergenceAtLeastOne(Domains(context, behavioral), boost);
    ComposeFacts(WithContext(r, context), WithContext(r, context),
                 Convergence(Domains(context, behavioral), boost), Storm(context), Outage(context));
  }

  /** Context evidence closes at most a fifth of the gap between the base and one. */
  lemma {:induction false} ContextFillsAtMostAFifth(r: real, context: seq<Anomaly>)
    requires UnitScores(context) && Unit(r)
    ensures r <= WithContext(r, context) <= r + 0.2 * (1.0 - r)
  {
    forall a | a in Active(context) ensures Unit(a.score) {
      ActiveMember(context, a);
    }
    EvidenceFillsAtMostAFifth(r, Active(context));
  }

  /** Without an active anomaly the score is the weighted sum of the three inputs, each of which
      alone can raise it by its weight. */
  lemma {:induction false} QuietScoreIsWeightedSum(p: real, a: real, l: real, context: seq<Anomaly>, behavioral: seq<Anomaly>, boost: real)
    requires Unit(p) && Unit(a) && Unit(l)
    requires forall x <- context + behavioral :: x.score <= 0.0
    ensures Score(p, a, l, context, behavioral, boost) == 0.4 * p + 0.35 * a + 0.25 * l
  {
    assert forall x <- context :: x in context + behavioral;
    assert forall x <- behavioral :: x in context + behavioral;
    NoneActive(context);
    NoneActive(behavioral);
    StormIsActive(context);
    assert Domains(context, behavioral) == {};
    BaseUnit(p, a, l);
  }

  lemma {:induction false} NoneActive(anomalies: seq<Anomaly>)
    requires forall a <- anomalies :: a.score <= 0.0
    ensures Active(anomalies) == []
  {
    if anomalies != [] {
      NoneActive(anomalies[1..]);
    }
  }

  // ---------------------------------------------------------------------------
  // What the evidence does
  // ---------------------------------------------------------------------------

  /** The specific domains, each named by the types of anomaly that belong to it. */
  lemma {:induction false} DomainsExactly(context: seq<Anomaly>, behavioral: seq<Anomaly>)
    ensures var ds := Domains(context, behavioral);
            && ds <= {"aviation", "orbital", "infrastructure"}
            && ("aviation" in ds <==> exists x :: (x in context || x in behavioral) && x.score > 0.0 && x.metricType == "emergency")
            && ("orbital" in ds <==> exists x :: (x in context || x in behavioral) && x.score > 0.0
                                       && (x.metricType == "satellite_signal_loss" || x.metricType == "space_weather"))
            && ("infrastructure" in ds <==>
                  exists x :: (x in context || x in behavioral) && x.score > 0.0 && x.metricType == "internet_outage")
  {
    var ds := Domains(context, behavioral);
    forall d | d in ds ensures d in {"aviation", "orbital", "infrastructure"} {
      ConvergenceSeesDomainsOnly(context, behavioral, d);
    }
    ConvergenceSeesDomainsOnly(context, behavioral, "aviation");
    ConvergenceSeesDomainsOnly(context, behavioral, "orbital");
    ConvergenceSeesDomainsOnly(context, behavioral, "infrastructure");
  }

  lemma {:induction false} EvidenceExactly(context: seq<Anomaly>, x: Anomaly)
    ensures x in Contributing(Active(context)) <==> x in context && x.score > 0.0 && x.metricType != "space_weather"
    ensures multiset(Contributing(Active(context)))[x]
            == if x.score > 0.0 && x.metricType != "space_weather" then multiset(context)[x] else 0
  {
    ContributingMember(Active(context), x);
    ActiveMember(context, x);
    ContributingCounts(Active(context), x);
    ActiveCounts(context, x);
  }

  /** The evidence term in full: active evidence of mean score `m` fills a fifth of the gap to one in
      proportion to `m`, up to one; without any, the base stays. */
  lemma {:induction false} ContextExactly(base: real, context: seq<Anomaly>, m: real, raised: real)
    requires Contributing(Active(context)) != [] ==> m == Mean(Contributing(Active(context)))
    requires raised == base + 0.2 * m * (1.0 - base)
    ensures WithContext(base, context) ==
            if Contributing(Active(context)) == [] then base else if raised < 1.0 then raised else 1.0
  {
  }

  lemma {:induction false} MeanExactly(anomalies: seq<Anomaly>)
    requires anomalies != []
    ensures Mean(anomalies) * |anomalies| as real == Total(anomalies)
  {
    var total, n := Total(anomalies), |anomalies| as real;
    QuotientTimes(total, n);
  }

  lemma {:induction false} QuotientTimes(x: real, n: real)
    requires n > 0.0
    ensures x / n * n == x
  {
  }

  /** The score in full, first part: the weighted base with its evidence, adjusted. */
  lemma {:induction false} ScoreExactly(p: real, a: real, l: real, context: seq<Anomaly>, behavioral: seq<Anomaly>, boost: real, base: real)
    requires base == 0.4 * p + 0.35 * a + 0.25 * l
    ensures Score(p, a, l, context, behavioral, boost) == Adjusted(WithContext(base, context), context, behavioral, boost)
  {
  }

  /** Second part: with the domains' convergence applied, space weather above 0.5 takes a tenth off, an
      outage above 0.7 adds a tenth, and the result is capped at one. */
  lemma {:induction false} AdjustedExactly(w: real, context: seq<Anomaly>, behavioral: seq<Anomaly>, boost: real, f: real)
    requires f == Convergence(Domains(context, behavioral), boost)
    ensures var y := if exists a <- context :: a.metricType == "space_weather" && a.score > 0.5 then w * f * 0.9 else w * f;
            var z := if exists a <- context :: a.metricType == "internet_outage" && a.score > 0.7 then y * 1.1 else y;
            Adjusted(w, context, behavioral, boost) == if z < 1.0 then z else 1.0
  {
    var storm := exists a <- context :: a.metricType == "space_weather" && a.score > 0.5;
    var outage := exists a <- context :: a.metricType == "internet_outage" && a.score > 0.7;
    assert storm == Storm(context) && outage == Outage(context);
    FinishExactly(w, f, storm, outage);
  }

  lemma {:induction false} FinishExactly(w: real, f: real, storm: bool, outage: bool)
    ensures var y := if storm then w * f * 0.9 else w * f;
            var z := if outage then y * 1.1 else y;
            Compose(w, f, storm, outage) == if z < 1.0 then z else 1.0
  {
  }

  /** One for up to one active domain, and `boost` more for each beyond the first; there are three. */
  lemma {:induction false} ConvergenceExactly(context: seq<Anomaly>, behavioral: seq<Anomaly>, boost: real)
    ensures var n := |Domains(context, behavioral)|;
            n <= 3 && Convergence(Domains(context, behavioral), boost)
                      == if n <= 1 then 1.0 else if n == 2 then 1.0 + boost else 1.0 + boost + boost
  {
    DomainsExactly(context, behavioral);
    SubsetSize(Domains(context, behavioral), {"aviation", "orbital", "infrastructure"});
    ConvergenceUpToThree(Domains(context, behavioral), boost);
  }

  lemma {:induction false} ConvergenceUpToThree(ds: set<string>, boost: real)
    requires |ds| <= 3
    ensures Convergence(ds, boost) == if |ds| <= 1 then 1.0 else if |ds| == 2 then 1.0 + boost else 1.0 + boost + boost
  {
    if |ds| == 2 {
      assert (|ds| - 1) as real == 1.0;
    } else if |ds| == 3 {
      assert (|ds| - 1) as real == 2.0;
    }
  }

  lemma {:induction false} ExampleEvidence()
    ensures var context := [Anomaly("internet_outage", 0.8), Anomaly("satellite_signal_loss", 0.6)];
            Contributing(Active(context)) == Active(context) == context && Total(context) == 1.4
  {
    var o, q := Anomaly("internet_outage", 0.8), Anomaly("satellite_signal_loss", 0.6);
    assert [o, q][1..] == [q] && [q][1..] == [];
    assert Active([q]) == [q] && Contributing([q]) == [q];
    assert [o] + [q] == [o, q] && [q] + [] == [q];
    TotalCons(q, []);
    TotalCons(o, [q]);
  }

  lemma {:induction false} ExampleDomains()
    ensures Domains([Anomaly("internet_outage", 0.8), Anomaly("satellite_signal_loss", 0.6)], []) == {"infrastructure", "orbital"}
  {
    var context := [Anomaly("internet_outage", 0.8), Anomaly("satellite_signal_loss", 0.6)];
    DomainsExactly(context, []);
    assert context[0] in context && context[1] in context;
    assert forall x :: x in context ==> x == context[0] || x == context[1];
  }

  /** A worked example: two domains, an outage, no storm. */
  lemma {:induction false} OutageInTwoDomains()
    ensures Score(0.5, 0.5, 0.5, [Anomaly("internet_outage", 0.8), Anomaly("satellite_signal_loss", 0.6)], [], 0.2) == 0.7524
  {
    var context := [Anomaly("internet_outage", 0.8), Anomaly("satellite_signal_loss", 0.6)];
    ExampleEvidence();
    ExampleDomains();
    assert Mean(context) == 0.7 && WithContext(Base(0.5, 0.5, 0.5), context) == 0.57;
    assert Convergence({"infrastructure", "orbital"}, 0.2) == 1.2;
    assert context[0] in context;
    assert Outage(context) && !Storm(context);
  }

  /** The score when convergence has been applied. */
  function Finish(x: real, storm: bool, outage: bool): real {
    Min1(x * (if storm then 0.9 else 1.0) * (if outage then 1.1 else 1.0))
  }

  lemma {:induction false} ComposeFinishes(w: real, f: real, storm: bool, outage: bool)
    ensures Compose(w, f, storm, outage) == Finish(w * f, storm, outage)
  {
  }

  /** The cap, the dampening and the boost keep order. */
  lemma {:induction false} FinishOrder(x: real, x': real, storm: bool, outage: bool, outage': bool)
    requires 0.0 <= x <= x' && (outage ==> outage')
    ensures Finish(x, storm, outage) <= Finish(x', storm, outage')
    ensures x < x' && Finish(x, storm, outage) < 1.0 ==> Finish(x, storm, outage) < Finish(x', storm, outage')
    ensures !outage && outage' && Finish(x', storm, outage') < 1.0 ==> 1.1 * Finish(x, storm, outage) <= Finish(x', storm, outage')
  {
  }

  /** The whole score keeps order in its evidence term, its convergence and the outage. */
  lemma {:induction false} ScoreOrder(w: real, w': real, f: real, f': real, storm: bool, outage: bool, outage': bool)
    requires 0.0 <= w <= w' && 1.0 <= f <= f' && (outage ==> outage')
    ensures var x, x' := Compose(w, f, storm, outage), Compose(w', f', storm, outage');
            && x <= x' && (0.0 < w && f < f' && x < 1.0 ==> x < x')
            && (!outage && outage' && x' < 1.0 ==> 1.1 * x <= x')
  {
    ProductOrder(w, w', f, f');
    ComposeFinishes(w, f, storm, outage);
    ComposeFinishes(w', f', storm, outage');
    FinishOrder(w * f, w' * f', storm, outage, outage');
  }

  lemma {:induction false} ProductOrder(w: real, w': real, f: real, f': real)
    requires 0.0 <= w <= w' && 1.0 <= f <= f'
    ensures 0.0 <= w * f <= w' * f' && (0.0 < w && f < f' ==> w * f < w' * f')
  {
    ProductNonNegative(w, f);
    ProductNonNegative(w' - w, f');
    ProductNonNegative(w, f' - f);
    assert w' * f' == w * f + w * (f' - f) + (w' - w) * f';
    if 0.0 < w && f < f' {
      ProductPositive(w, f' - f);
    }
  }

  lemma {:induction false} ProductPositive(x: real, y: real)
    requires x > 0.0 && y > 0.0
    ensures x * y > 0.0
  {
  }

  lemma {:induction false} ConvergenceGrows(ds: set<string>, d: string, boost: real)
    requires boost > 0.0 && ds != {} && d !in ds
    ensures 1.0 <= Convergence(ds, boost) < Convergence(ds + {d}, boost)
  {
    ConvergenceAtLeastOne(ds, boost);
    assert |ds + {d}| == |ds| + 1;
    ProductPositive(boost, |ds| as real);
    assert boost * |ds| as real == boost * (|ds| - 1) as real + boost;
  }

  lemma {:induction false} OneMoreDomain(context: seq<Anomaly>, behavioral: seq<Anomaly>, b: Anomaly)
    requires b.score > 0.0 && Domain(b.metricType) != MULTI
    ensures Domains(context, behavioral + [b]) == Domains(context, behavioral) + {Domain(b.metricType)}
  {
    forall d ensures d in Domains(context, behavioral + [b]) <==> d in Domains(context, behavioral) + {Domain(b.metricType)} {
      ConvergenceSeesDomainsOnly(context, behavioral + [b], d);
      ConvergenceSeesDomainsOnly(context, behavioral, d);
      assert b in behavioral + [b];
    }
  }

  /** A behavioral anomaly of a domain not active before, when one is, raises every score that is
      above zero and below the cap. */
  lemma {:induction false} NewDomainRaises(p: real, a: real, l: real, context: seq<Anomaly>, behavioral: seq<Anomaly>, b: Anomaly, boost: real)
    requires Unit(p) && Unit(a) && Unit(l) && UnitScores(context) && boost > 0.0
    requires b.score > 0.0 && Domain(b.metricType) != MULTI
    requires Domains(context, behavioral) != {} && Domain(b.metricType) !in Domains(context, behavioral)
    ensures var before, after := Score(p, a, l, context, behavioral, boost), Score(p, a, l, context, behavioral + [b], boost);
            before <= after && (0.4 * p + 0.35 * a + 0.25 * l > 0.0 && before < 1.0 ==> before < after)
  {
    var ds, d := Domains(context, behavioral), Domain(b.metricType);
    var r := Base(p, a, l);
    BaseUnit(p, a, l);
    ContextRaises(r, r, context);
    OneMoreDomain(context, behavioral, b);
    ConvergenceGrows(ds, d, boost);
    var w := WithContext(r, context);
    ScoreOrder(w, w, Convergence(ds, boost), Convergence(ds + {d}, boost), Storm(context), Outage(context), Outage(context));
  }

  lemma {:induction false} ActiveConcat(u: seq<Anomaly>, v: seq<Anomaly>)
    ensures Active(u + v) == Active(u) + Active(v)
  {
    if u == [] {
      assert u + v == v;
    } else {
      assert (u + v)[1..] == u[1..] + v;
      ActiveConcat(u[1..], v);
      Assoc(if u[0].score > 0.0 then [u[0]] else [], Active(u[1..]), Active(v));
    }
  }

  lemma {:induction false} ContributingConcat(u: seq<Anomaly>, v: seq<Anomaly>)
    ensures Contributing(u + v) == Contributing(u) + Contributing(v)
  {
    if u == [] {
      assert u + v == v;
    } else {
      assert (u + v)[1..] == u[1..] + v;
      ContributingConcat(u[1..], v);
      Assoc(if u[0].metricType != "space_weather" then [u[0]] else [], Contributing(u[1..]), Contributing(v));
    }
  }

  lemma {:induction false} StormIsNoEvidence(context: seq<Anomaly>, storm: Anomaly)
    requires storm.metricType == "space_weather" && storm.score > 0.0
    ensures Contributing(Active(context + [storm])) == Contributing(Active(context))
  {
    ActiveConcat(context, [storm]);
    assert Active([storm]) == [storm];
    ContributingConcat(Active(context), [storm]);
    assert Contributing([storm]) == [];
  }

  lemma {:induction false} StormKeepsDomains(context: seq<Anomaly>, behavioral: seq<Anomaly>, storm: Anomaly)
    requires storm.metricType == "space_weather" && "orbital" in Domains(context, behavioral)
    ensures Domains(context + [storm], behavioral) == Domains(context, behavioral)
  {
    forall d ensures d in Domains(context + [storm], behavioral) <==> d in Domains(context, behavioral) {
      ConvergenceSeesDomainsOnly(context + [storm], behavioral, d);
      ConvergenceSeesDomainsOnly(context, behavioral, d);
      assert forall x :: x in context + [storm] <==> x in context || x == storm;
    }
  }

  lemma {:induction false} StormAdjusts(w: real, context: seq<Anomaly>, behavioral: seq<Anomaly>, storm: Anomaly, boost: real)
    requires storm.metricType == "space_weather" && storm.score > 0.5
    requires !Storm(context) && "orbital" in Domains(context, behavioral)
    requires 0.0 <= Adjusted(w, context, behavioral, boost) < 1.0
    ensures Adjusted(w, context + [storm], behavioral, boost) == 0.9 * Adjusted(w, context, behavioral, boost)
  {
    StormKeepsDomains(context, behavioral, storm);
    assert storm in context + [storm];
    assert forall x :: x in context + [storm] <==> x in context || x == storm;
    assert Storm(context + [storm]) && (Outage(context + [storm]) <==> Outage(context));
    DampenedByATenth(w, Convergence(Domains(context, behavioral), boost), Outage(context));
  }

  /** Space weather is no evidence, but it dampens: once the orbital domain is active anyway, a storm
      takes a tenth off the score. */
  lemma {:induction false} StormDampens(p: real, a: real, l: real, context: seq<Anomaly>, behavioral: seq<Anomaly>, strength: real, boost: real)
    requires strength > 0.5 && !Storm(context) && "orbital" in Domains(context, behavioral)
    requires 0.0 <= Score(p, a, l, context, behavioral, boost) < 1.0
    ensures Score(p, a, l, context + [Anomaly("space_weather", strength)], behavioral, boost)
            == 0.9 * Score(p, a, l, context, behavioral, boost)
  {
    var storm := Anomaly("space_weather", strength);
    StormIsNoEvidence(context, storm);
    var w := WithContext(Base(p, a, l), context);
    assert w == WithContext(Base(p, a, l), context + [storm]);
    StormAdjusts(w, context, behavioral, storm, boost);
  }

  lemma {:induction false} DampenedByATenth(w: real, f: real, outage: bool)
    requires 0.0 <= Compose(w, f, false, outage) < 1.0
    ensures Compose(w, f, true, outage) == 0.9 * Compose(w, f, false, outage)
  {
  }

  // ---------------------------------------------------------------------------
  // A stronger piece of evidence
  // ---------------------------------------------------------------------------

  function Stronger(context: seq<Anomaly>, i: nat, score: real): seq<Anomaly>
    requires i < |context|
  {
    context[i := Anomaly(context[i].metricType, score)]
  }

  lemma {:induction false} EvidenceConcat(u: seq<Anomaly>, v: seq<Anomaly>)
    ensures Contributing(Active(u + v)) == Contributing(Active(u)) + Contributing(Active(v))
    ensures Total(Contributing(Active(u + v))) == Total(Contributing(Active(u))) + Total(Contributing(Active(v)))
  {
    ActiveConcat(u, v);
    ContributingConcat(Active(u), Active(v));
    TotalConcat(Contributing(Active(u)), Contributing(Active(v)));
  }

  lemma {:induction false} EvidenceOfOne(x: Anomaly)
    requires x.score > 0.0 && x.metricType != "space_weather"
    ensures Contributing(Active([x])) == [x] && Total([x]) == x.score
  {
    assert Active([x]) == [x] && [x] + [] == [x];
    TotalCons(x, []);
  }

  lemma {:induction false} StrongerEvidence(context: seq<Anomaly>, i: nat, score: real)
    requires i < |context| && context[i].metricType != "space_weather" && 0.0 < context[i].score <= score
    ensures var u, v := Contributing(Active(context)), Contributing(Active(Stronger(context, i, score)));
            |u| == |v| > 0 && Total(v) == Total(u) + score - context[i].score
  {
    var x, y := context[i], Anomaly(context[i].metricType, score);
    var before, after := context[..i], context[i + 1..];
    assert context == before + ([x] + after) && Stronger(context, i, score) == before + ([y] + after);
    EvidenceConcat(before, [x] + after);
    EvidenceConcat(before, [y] + after);
    EvidenceConcat([x], after);
    EvidenceConcat([y], after);
    EvidenceOfOne(x);
    EvidenceOfOne(y);
  }

  lemma {:induction false} StrongerKeepsDomains(context: seq<Anomaly>, behavioral: seq<Anomaly>, i: nat, score: real)
    requires i < |context| && context[i].metricType != "space_weather" && 0.0 < context[i].score <= score
    ensures Domains(Stronger(context, i, score), behavioral) == Domains(context, behavioral)
    ensures Storm(Stronger(context, i, score)) <==> Storm(context)
    ensures Outage(Stronger(context, i, score)) <==> Outage(context) || (context[i].metricType == "internet_outage" && score > 0.7)
  {
    var more := Stronger(context, i, score);
    forall x | x in context && x != context[i] ensures x in more {
      var j :| 0 <= j < |context| && context[j] == x;
      assert more[j] == x;
    }
    forall x | x in more && x != more[i] ensures x in context {
      var j :| 0 <= j < |more| && more[j] == x;
      assert context[j] == x;
    }
    assert context[i] in context && more[i] in more;
    forall d ensures d in Domains(more, behavioral) <==> d in Domains(context, behavioral) {
      ConvergenceSeesDomainsOnly(more, behavioral, d);
      ConvergenceSeesDomainsOnly(context, behavioral, d);
    }
  }

  lemma {:induction false} StrongerFills(r: real, context: seq<Anomaly>, i: nat, score: real)
    requires i < |context| && context[i].metricType != "space_weather" && 0.0 < context[i].score <= score <= 1.0
    requires UnitScores(context) && Unit(r)
    ensures r <= WithContext(r, context) <= WithContext(r, Stronger(context, i, score))
  {
    var u, v := Contributing(Active(context)), Contributing(Active(Stronger(context, i, score)));
    StrongerEvidence(context, i, score);
    ContextRaises(r, r, context);
    QuotientOrder(Total(u), Total(v), |u| as real);
    FillOrder(r, Mean(u), Mean(v));
  }

  lemma {:induction false} FillOrder(r: real, m: real, m': real)
    requires m <= m' && r <= 1.0
    ensures Fill(r, m) <= Fill(r, m')
  {
    ProductNonNegative(m' - m, 1.0 - r);
    assert (m' - m) * (1.0 - r) == m' * (1.0 - r) - m * (1.0 - r);
  }

  lemma {:induction false} QuotientOrder(x: real, y: real, n: real)
    requires x <= y && n > 0.0
    ensures x / n <= y / n
  {
  }

  /** A stronger piece of active evidence never lowers the score, and an outage that crosses 0.7 for the
      first time raises it by a tenth or more, up to the cap. */
  lemma {:induction false} StrongerEvidenceRaises(p: real, a: real, l: real, context: seq<Anomaly>, behavioral: seq<Anomaly>, boost: real, i: nat, score: real)
    requires Unit(p) && Unit(a) && Unit(l) && UnitScores(context) && boost >= 0.0
    requires i < |context| && context[i].metricType != "space_weather" && 0.0 < context[i].score <= score <= 1.0
    ensures var before, after := Score(p, a, l, context, behavioral, boost), Score(p, a, l, Stronger(context, i, score), behavioral, boost);
            && before <= after
            && (context[i].metricType == "internet_outage" && score > 0.7
                && (forall x <- context :: x.metricType == "internet_outage" ==> x.score <= 0.7)
                ==> after >= 1.1 * before || after == 1.0)
  {
    var r := Base(p, a, l);
    var more := Stronger(context, i, score);
    var f := Convergence(Domains(context, behavioral), boost);
    BaseUnit(p, a, l);
    StrongerFills(r, context, i, score);
    StrongerKeepsDomains(context, behavioral, i, score);
    ConvergenceAtLeastOne(Domains(context, behavioral), boost);
    ScoreOrder(WithContext(r, context), WithContext(r, more), f, f, Storm(context), Outage(context), Outage(more));
  }

  // ---------------------------------------------------------------------------
  // Order of the anomalies
  // ---------------------------------------------------------------------------

  /** Filtering and totalling see only the multiset. */
  lemma {:induction false} ActiveCounts(anomalies: seq<Anomaly>, a: Anomaly)
    ensures multiset(Active(anomalies))[a] == if a.score > 0.0 then multiset(anomalies)[a] else 0
  {
    if anomalies != [] {
      assert anomalies == [anomalies[0]] + anomalies[1..];
      ActiveCounts(anomalies[1..], a);
    }
  }

  lemma {:induction false} ContributingCounts(anomalies: seq<Anomaly>, a: Anomaly)
    ensures multiset(Contributing(anomalies))[a] == if a.metricType != "space_weather" then multiset(anomalies)[a] else 0
  {
    if anomalies != [] {
      assert anomalies == [anomalies[0]] + anomalies[1..];
      ContributingCounts(anomalies[1..], a);
    }
  }

  lemma {:induction false} EvidenceIsMultiset(u: seq<Anomaly>, v: seq<Anomaly>)
    requires multiset(u) == multiset(v)
    ensures multiset(Active(u)) == multiset(Active(v))
    ensures multiset(Contributing(Active(u))) == multiset(Contributing(Active(v)))
  {
    forall a: Anomaly ensures multiset(Active(u))[a] == multiset(Active(v))[a] {
      ActiveCounts(u, a);
      ActiveCounts(v, a);
    }
    forall a: Anomaly ensures multiset(Contributing(Active(u)))[a] == multiset(Contributing(Active(v)))[a] {
      ContributingCounts(Active(u), a);
      ContributingCounts(Active(v), a);
    }
  }

  lemma {:induction false} TotalConcat(u: seq<Anomaly>, v: seq<Anomaly>)
    ensures Total(u + v) == Total(u) + Total(v)
  {
    if u == [] {
      assert u + v == v;
    } else {
      assert (u + v)[1..] == u[1..] + v;
      TotalConcat(u[1..], v);
    }
  }

  lemma {:induction false} TotalRemove(u: seq<Anomaly>, i: nat)
    requires i < |u|
    ensures Total(u) == u[i].score + Total(u[..i] + u[i + 1..])
  {
    assert u == u[..i] + ([u[i]] + u[i + 1..]);
    TotalMiddle(u[..i], u[i], u[i + 1..]);
  }

  lemma {:induction false} TotalMiddle(u: seq<Anomaly>, a: Anomaly, v: seq<Anomaly>)
    ensures Total(u + ([a] + v)) == a.score + Total(u + v)
  {
    TotalConcat(u, [a] + v);
    TotalConcat(u, v);
    TotalCons(a, v);
  }

  lemma {:induction false} TotalCons(a: Anomaly, u: seq<Anomaly>)
    ensures Total([a] + u) == a.score + Total(u)
  {
    assert ([a] + u)[1..] == u;
  }

  lemma {:induction false} TotalIsMultiset(u: seq<Anomaly>, v: seq<Anomaly>)
    requires multiset(u) == multiset(v)
    ensures Total(u) == Total(v) && |u| == |v|
    decreases |u|
  {
    assert |u| == |multiset(u)| == |multiset(v)| == |v|;
    if u != [] {
      var i := RemoveFromBoth(u, v);
      TotalRemove(v, i);
      TotalIsMultiset(u[1..], v[..i] + v[i + 1..]);
    }
  }

  lemma {:induction false} SameMembers(u: seq<Anomaly>, v: seq<Anomaly>)
    requires multiset(u) == multiset(v)
    ensures forall a :: a in u <==> a in v
  {
    forall a ensures a in u <==> a in v {
      assert a in u <==> a in multiset(u);
      assert a in v <==> a in multiset(v);
    }
  }

  /** Convergence depends only on the set of active specific domains. */
  lemma {:induction false} ConvergenceSeesDomainsOnly(context: seq<Anomaly>, behavioral: seq<Anomaly>, d: string)
    ensures d in Domains(context, behavioral) <==>
            d != MULTI && exists a :: (a in context || a in behavioral) && a.score > 0.0 && Domain(a.metricType) == d
  {
    forall a: Anomaly
      ensures a in Active(context) <==> a in context && a.score > 0.0
      ensures a in Active(behavioral) <==> a in behavioral && a.score > 0.0
    {
      ActiveMember(context, a);
      ActiveMember(behavioral, a);
    }
  }

  lemma {:induction false} ContextIgnoresOrder(risk: real, u: seq<Anomaly>, v: seq<Anomaly>)
    requires multiset(u) == multiset(v)
    ensures WithContext(risk, u) == WithContext(risk, v)
    ensures Storm(u) == Storm(v) && Outage(u) == Outage(v)
  {
    EvidenceIsMultiset(u, v);
    TotalIsMultiset(Contributing(Active(u)), Contributing(Active(v)));
    SameMembers(u, v);
    if Contributing(Active(u)) != [] {
      assert Mean(Contributing(Active(u))) == Mean(Contributing(Active(v)));
    }
  }

  lemma {:induction false} DomainsIgnoreOrder(context: seq<Anomaly>, behavioral: seq<Anomaly>,
                           context': seq<Anomaly>, behavioral': seq<Anomaly>)
    requires multiset(context) == multiset(context') && multiset(behavioral) == multiset(behavioral')
    ensures Domains(context, behavioral) == Domains(context', behavioral')
  {
    EvidenceIsMultiset(context, context');
    EvidenceIsMultiset(behavioral, behavioral');
    SameMembers(Active(context), Active(context'));
    SameMembers(Active(behavioral), Active(behavioral'));
  }

  /** Reordering either list of anomalies leaves the score unchanged. */
  lemma {:induction false} ScoreIgnoresOrder(p: real, a: real, l: real, context: seq<Anomaly>, behavioral: seq<Anomaly>,
                          context': seq<Anomaly>, behavioral': seq<Anomaly>, boost: real)
    requires multiset(context) == multiset(context') && multiset(behavioral) == multiset(behavioral')
    ensures Score(p, a, l, context, behavioral, boost) == Score(p, a, l, context', behavioral', boost)
  {
    ContextIgnoresOrder(Base(p, a, l), context, context');
    DomainsIgnoreOrder(context, behavioral, context', behavioral');
  }
}
