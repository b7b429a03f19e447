/**
 The bottleneck ranking: nine capped factor scores, downside penalties, admission gates, and
 the ranked list. Historical returns are carried along for display only.
 */
module BottleneckRanking {
  import opened Ordering
  import opened Wrappers

  datatype Role = SingleSource | SemiMonopoly | QualificationConstrained | CapacityBottleneck | Unproven | Beneficiary

  datatype Dependency = Dependency(customerOnly: bool, irreplaceable: bool, highCriticality: bool, score: real)
  datatype Scarcity = Scarcity(corroborated: bool, suppliers: Option<int>, switchingMonths: real, relieved: bool, score: real)
  datatype Demand = Demand(score: real, structural: bool, multiYear: bool)
  datatype Supply = Supply(expansionOnly: bool, bindingScarcity: bool, score: real, leadWeeks: real)
  datatype Pricing = Pricing(marginOnly: bool, mechanism: bool, score: real, increases: bool, stable: bool)
  datatype Capture = Capture(score: real, dominantShare: bool, disciplined: bool)
  datatype Leverage = Leverage(score: real, incremental: bool, expansion: bool)
  datatype Timing = M6 | M12 | M18 | M24 | M36 | OtherTiming
  datatype Catalyst = Catalyst(timing: Timing, described: bool)
  datatype OrderType = Binding | Backlog | DesignWin | NoOrder
  datatype Orders = Orders(score: real, kind: OrderType)
  datatype Financing = NoRisk | MaterialOverhang | StructuralDisqualifier | Destroyed
  datatype Level = Severe | Moderate | Calm
  datatype Risks = Risks(concentration: Level, deterioration: bool, exportRisk: Level, crowding: Level, undisclosed: bool)

  /** Shown to the reader; no rule reads it. */
  datatype History = History(longTerm: Option<real>, shortTerm: Option<real>, contextLong: Option<real>, contextShort: Option<real>)

  datatype Candidate = Candidate(ticker: string, asOf: Option<int>, role: Role, dependency: Dependency, scarcity: Scarcity, demand: Demand,
                                 supply: Supply, pricing: Pricing, capture: Capture, leverage: Leverage, catalysts: seq<Catalyst>,
                                 catalystScore: real, orders: Orders, falsifiers: nat, financing: Financing, broken: bool,
                                 risks: Risks, dataQuality: real, history: History)

  /** The reconciliation of the candidate's claims, and the licences its factors got from them. */
  datatype Bridge = Bridge(hasClaims: bool, allSupported: bool, conflicts: nat, unconflicted: bool,
                           dependencyLicensed: bool, scarcityLicensed: bool, pricingLicensed: bool, captureLicensed: bool,
                           coreAdmitted: bool)

  datatype Weights = Weights(dependency: real, scarcity: real, demand: real, supply: real, pricing: real, capture: real,
                             leverage: real, catalyst: real, orders: real)

  datatype Penalties = Penalties(structural: real, overhang: real, severeConcentration: real, concentration: real, decline: real,
                                 severeExport: real, exportExposure: real, extremeCrowding: real, expectations: real, omitted: real)

  datatype Policy = Policy(weights: Weights, penalties: Penalties, enforceClaims: bool)

  const DEFAULT_WEIGHTS := Weights(12.0, 14.0, 10.0, 12.0, 12.0, 12.0, 10.0, 10.0, 8.0)

  /** The points that a recognised fact is worth whatever the configured weight. */
  const ANCHORS := Weights(12.0, 14.0, 10.0, 12.0, 12.0, 12.0, 10.0, 10.0, 8.0)

  function Min(a: real, b: real): real { if a < b then a else b }

  function Max(a: real, b: real): real { if a < b then b else a }

  // ---- factor points

  function EffectiveRole(c: Candidate): Role {
    var proof := c.scarcity.corroborated || (c.scarcity.suppliers.Some? && c.scarcity.suppliers.value <= 2)
                 || c.scarcity.switchingMonths >= 12.0;
    if c.role in {SingleSource, SemiMonopoly} && !proof then Unproven else c.role
  }

  function DependencyPoints(d: Dependency, weight: real): real {
    if d.customerOnly && !d.irreplaceable then 0.0
    else if d.score > 0.0 then Min(weight, d.score)
    else if d.irreplaceable then 12.0
    else if d.highCriticality then 8.0
    else 0.0
  }

  function ScarcityPoints(s: Scarcity, role: Role, weight: real): real {
    if s.relieved then 0.0
    else if role in {SingleSource, SemiMonopoly} && s.switchingMonths >= 18.0 then 14.0
    else if s.suppliers.Some? && s.suppliers.value <= 2 && s.switchingMonths >= 12.0 then 10.0
    else if s.switchingMonths >= 6.0 then 5.0
    else Min(weight, s.score)
  }

  function DemandPoints(d: Demand, weight: real): real {
    var stated := Min(weight, d.score);
    if stated == 0.0 && d.structural then (if d.multiYear then 10.0 else 7.0) else stated
  }

  function SupplyPoints(s: Supply, relieved: bool, weight: real): real {
    var stated := Min(weight, s.score);
    var points := if s.expansionOnly && !s.bindingScarcity then 0.0
                  else if stated == 0.0 && s.leadWeeks >= 52.0 then 12.0
                  else if stated == 0.0 && s.leadWeeks >= 24.0 then 8.0
                  else stated;
    if relieved then Min(points, 4.0) else points
  }

  function PricingPoints(p: Pricing, weight: real): real {
    var stated := Min(weight, p.score);
    if p.marginOnly && !p.mechanism then 0.0
    else if stated == 0.0 && p.increases then 12.0
    else if stated == 0.0 && p.stable then 8.0
    else stated
  }

  function CapturePoints(c: Capture, financing: Financing, weight: real): real {
    var stated := Min(weight, c.score);
    if stated == 0.0 && c.disciplined && financing in {NoRisk, MaterialOverhang} then (if c.dominantShare then 12.0 else 8.0) else stated
  }

  function LeveragePoints(l: Leverage, weight: real): real {
    var stated := Min(weight, l.score);
    if stated == 0.0 && l.incremental then 10.0 else if stated == 0.0 && l.expansion then 7.0 else stated
  }

  predicate IsNear(c: Catalyst) { c.described && c.timing in {M6, M12, M18} }

  predicate IsFar(c: Catalyst) { c.described && c.timing in {M24, M36} }

  function DatedPoints(catalysts: seq<Catalyst>): real {
    if exists i :: 0 <= i < |catalysts| && IsNear(catalysts[i]) then 10.0
    else if exists i :: 0 <= i < |catalysts| && IsFar(catalysts[i]) then 7.0
    else 0.0
  }

  method ScoreCatalysts(catalysts: seq<Catalyst>) returns (points: real)
    ensures points == DatedPoints(catalysts)
  {
    points := 0.0;
    for n := 0 to |catalysts|
      invariant points == DatedPoints(catalysts[..n])
    {
      var c := catalysts[n];
      assert catalysts[..n + 1] == catalysts[..n] + [c];
      OneMoreCatalyst(catalysts[..n], c);
      if c.described && c.timing != OtherTiming {
        if c.timing in {M6, M12, M18} && points < 10.0 {
          points := 10.0;
        } else if c.timing in {M24, M36} && points < 7.0 {
          points := 7.0;
        }
      }
    }
    assert catalysts[..|catalysts|] == catalysts;
  }

  lemma OneMoreCatalyst(catalysts: seq<Catalyst>, c: Catalyst)
    ensures DatedPoints(catalysts + [c]) == if IsNear(c) then 10.0 else if IsFar(c) then Max(DatedPoints(catalysts), 7.0) else DatedPoints(catalysts)
  {
    var more := catalysts + [c];
    assert forall i :: 0 <= i < |catalysts| ==> more[i] == catalysts[i];
    assert more[|catalysts|] == c;
  }

  function CatalystPoints(c: Candidate, weight: real): real { Max(DatedPoints(c.catalysts), Min(weight, c.catalystScore)) }

  function OrderPoints(o: Orders, weight: real): real {
    var stated := Min(weight, o.score);
    if stated != 0.0 then stated
    else match o.kind
      case Binding => 8.0
      case Backlog => 5.0
      case DesignWin => 2.0
      case NoOrder => 0.0
  }

  /** The points awarded, factor by factor; unlicensed core factors score nothing while claims are enforced. */
  function Points(c: Candidate, b: Bridge, policy: Policy): Weights {
    var w, role, enforced := policy.weights, EffectiveRole(c), policy.enforceClaims;
    Weights(if enforced && !b.dependencyLicensed then 0.0 else DependencyPoints(c.dependency, w.dependency),
            if enforced && !b.scarcityLicensed then 0.0 else ScarcityPoints(c.scarcity, role, w.scarcity),
            DemandPoints(c.demand, w.demand),
            SupplyPoints(c.supply, c.scarcity.relieved, w.supply),
            if enforced && !b.pricingLicensed then 0.0 else PricingPoints(c.pricing, w.pricing),
            if enforced && !b.captureLicensed then 0.0 else CapturePoints(c.capture, c.financing, w.capture),
            LeveragePoints(c.leverage, w.leverage),
            CatalystPoints(c, w.catalyst),
            OrderPoints(c.orders, w.orders))
  }

  function Sum(w: Weights): real {
    w.dependency + w.scarcity + w.demand + w.supply + w.pricing + w.capture + w.leverage + w.catalyst + w.orders
  }

  function RawScore(c: Candidate, b: Bridge, policy: Policy): real { Sum(Points(c, b, policy)) }

  /** A weight caps a stated score, not the points of a recognised fact. */
  lemma RawScoreIsBounded(c: Candidate, b: Bridge, policy: Policy)
    ensures var w := policy.weights;
            RawScore(c, b, policy) <= Max(w.dependency, 12.0) + Max(w.scarcity, 14.0) + Max(w.demand, 10.0) + Max(w.supply, 12.0)
                                      + Max(w.pricing, 12.0) + Max(w.capture, 12.0) + Max(w.leverage, 10.0) + Max(w.catalyst, 10.0)
                                      + Max(w.orders, 8.0)
    ensures policy.weights == DEFAULT_WEIGHTS ==> RawScore(c, b, policy) <= 100.0
  {
    var p, w := Points(c, b, policy), policy.weights;
    assert p.dependency <= Max(w.dependency, 12.0) && p.scarcity <= Max(w.scarcity, 14.0) && p.demand <= Max(w.demand, 10.0);
    assert p.supply <= Max(w.supply, 12.0) && p.pricing <= Max(w.pricing, 12.0) && p.capture <= Max(w.capture, 12.0);
    assert p.leverage <= Max(w.leverage, 10.0) && p.catalyst <= Max(w.catalyst, 10.0) && p.orders <= Max(w.orders, 8.0);
  }

  /** The most that a factor can reach whose facts count only beside a stated score of zero. A negative weight keeps the stated score
      from being zero; then the most is that weight, or zero where a rule may void the factor. */
  function Reach(weight: real, anchor: real, mayBeVoid: bool): real {
    if weight >= 0.0 then Max(weight, anchor) else if mayBeVoid then 0.0 else weight
  }

  /** The most that each factor can reach under a policy. */
  function Attainable(policy: Policy): Weights {
    var w := policy.weights;
    Weights(Max(w.dependency, ANCHORS.dependency), Max(w.scarcity, ANCHORS.scarcity), Reach(w.demand, ANCHORS.demand, false),
            Reach(w.supply, ANCHORS.supply, true), Reach(w.pricing, ANCHORS.pricing, true),
            Reach(w.capture, ANCHORS.capture, policy.enforceClaims), Reach(w.leverage, ANCHORS.leverage, false),
            Max(w.catalyst, ANCHORS.catalyst), Reach(w.orders, ANCHORS.orders, false))
  }

  predicate AreAtLeast(w: Weights, a: Weights) {
    && w.dependency >= a.dependency && w.scarcity >= a.scarcity && w.demand >= a.demand && w.supply >= a.supply
    && w.pricing >= a.pricing && w.capture >= a.capture && w.leverage >= a.leverage && w.catalyst >= a.catalyst
    && w.orders >= a.orders
  }

  lemma RawScoreIsAtMostAttainable(c: Candidate, b: Bridge, policy: Policy)
    ensures RawScore(c, b, policy) <= Sum(Attainable(policy))
  {
    assert AreAtLeast(Attainable(policy), Points(c, b, policy));
  }

  /** The stated score that helps most: the weight itself, or zero where the recognised fact is worth more. */
  function BestScore(weight: real, anchor: real): real { if 0.0 <= weight < anchor then 0.0 else weight }

  /** A candidate with every recognised fact, and beside it the stated scores that help most; where a weight is negative, with the
      finding that voids the factor. */
  function BestCandidate(w: Weights): Candidate {
    Candidate("T", None, SingleSource,
              Dependency(false, true, false, if w.dependency < ANCHORS.dependency then 0.0 else w.dependency),
              Scarcity(true, None, if w.scarcity < ANCHORS.scarcity then 18.0 else 0.0, false, w.scarcity),
              Demand(BestScore(w.demand, ANCHORS.demand), true, true),
              Supply(w.supply < 0.0, false, BestScore(w.supply, ANCHORS.supply), 52.0),
              Pricing(w.pricing < 0.0, false, BestScore(w.pricing, ANCHORS.pricing), true, false),
              Capture(BestScore(w.capture, ANCHORS.capture), true, true),
              Leverage(BestScore(w.leverage, ANCHORS.leverage), true, false),
              [Catalyst(M6, true)], w.catalyst,
              Orders(BestScore(w.orders, ANCHORS.orders), Binding), 0, NoRisk, false,
              Risks(Calm, false, Calm, Calm, false), 0.0, History(None, None, None, None))
  }

  function BestBridge(w: Weights): Bridge { Bridge(true, true, 0, true, true, true, true, w.capture >= 0.0, true) }

  /** The ceiling is reached, under any policy. */
  lemma CeilingIsReached(policy: Policy)
    ensures RawScore(BestCandidate(policy.weights), BestBridge(policy.weights), policy) == Sum(Attainable(policy))
  {
    var c, w := BestCandidate(policy.weights), policy.weights;
    assert IsNear(c.catalysts[0]) && DatedPoints(c.catalysts) == 10.0;
    assert EffectiveRole(c) == SingleSource;
    assert Points(c, BestBridge(w), policy) == Attainable(policy);
  }

  /** A weight bounds its factor: no recognised fact is worth more, or the weight is negative and nothing of the factor is left. */
  predicate Caps(weight: real, anchor: real, mayBeVoid: bool) { weight >= anchor || (weight < 0.0 && !mayBeVoid) }

  predicate AllCap(policy: Policy) {
    var w := policy.weights;
    && w.dependency >= ANCHORS.dependency && w.scarcity >= ANCHORS.scarcity && w.catalyst >= ANCHORS.catalyst
    && w.supply >= ANCHORS.supply && w.pricing >= ANCHORS.pricing
    && Caps(w.demand, ANCHORS.demand, false) && Caps(w.leverage, ANCHORS.leverage, false) && Caps(w.orders, ANCHORS.orders, false)
    && Caps(w.capture, ANCHORS.capture, policy.enforceClaims)
  }

  const ZERO := Weights(0.0, 0.0, 0.0, 0.0, 0.0, 0.0, 0.0, 0.0, 0.0)

  lemma CeilingIsTheWeightsIffAllCap(policy: Policy)
    ensures Sum(Attainable(policy)) <= Sum(policy.weights) <==> AllCap(policy)
    ensures AreAtLeast(policy.weights, ZERO) ==> (AllCap(policy) <==> AreAtLeast(policy.weights, ANCHORS))
  {
    assert AreAtLeast(Attainable(policy), policy.weights);
  }

  /** Exactly when the configured weights bound every raw score. Where none is negative: when none is under its anchor. */
  lemma WeightsBoundTheScoreIff(policy: Policy)
    ensures (forall c, b :: RawScore(c, b, policy) <= Sum(policy.weights)) <==> AllCap(policy)
    ensures AreAtLeast(policy.weights, ZERO) ==>
              ((forall c, b :: RawScore(c, b, policy) <= Sum(policy.weights)) <==> AreAtLeast(policy.weights, ANCHORS))
  {
    CeilingIsReached(policy);
    CeilingIsTheWeightsIffAllCap(policy);
    forall c, b ensures RawScore(c, b, policy) <= Sum(Attainable(policy)) { RawScoreIsAtMostAttainable(c, b, policy); }
    if !AllCap(policy) {
      assert RawScore(BestCandidate(policy.weights), BestBridge(policy.weights), policy) > Sum(policy.weights);
    }
  }

  /** The default weights with a smaller one for orders: a binding order then takes a score past their sum. */
  lemma SmallerWeightDoesNotLowerTheBound(policy: Policy, orders: real)
    requires policy.weights == DEFAULT_WEIGHTS.(orders := orders) && 0.0 <= orders < 8.0
    ensures RawScore(BestCandidate(policy.weights), BestBridge(policy.weights), policy) == 100.0 > Sum(policy.weights)
  {
    CeilingIsReached(policy);
  }

  /** A negative weight under its anchor may bound its factor all the same. */
  lemma NegativeWeightCanBound(policy: Policy)
    requires policy.weights == DEFAULT_WEIGHTS.(demand := -1.0)
    ensures forall c, b :: RawScore(c, b, policy) <= Sum(policy.weights)
  {
    WeightsBoundTheScoreIff(policy);
  }

  // ---- penalties, score, admission

  function At(level: Level, severe: real, moderate: real): real {
    match level case Severe => severe case Moderate => moderate case Calm => 0.0
  }

  function FinancingPenalty(f: Financing, p: Penalties): real {
    match f
    case Destroyed => 100.0
    case StructuralDisqualifier => p.structural
    case MaterialOverhang => p.overhang
    case NoRisk => 0.0
  }

  predicate HasConflicts(b: Bridge) { b.conflicts > 0 || !b.unconflicted }

  function Penalty(c: Candidate, b: Bridge, clock: Option<int>, p: Penalties): real {
    (if clock.None? then 20.0 else 0.0) + FinancingPenalty(c.financing, p)
    + At(c.risks.concentration, p.severeConcentration, p.concentration)
    + (if c.risks.deterioration then p.decline else 0.0)
    + At(c.risks.exportRisk, p.severeExport, p.exportExposure)
    + At(c.risks.crowding, p.extremeCrowding, p.expectations)
    + (if c.risks.undisclosed then p.omitted else 0.0)
    + (if HasConflicts(b) then 15.0 else 0.0)
  }

  /** The caller's clock, or else the candidate's own date. */
  function ClockOf(c: Candidate, now: Option<int>): Option<int> { if now.Some? then now else c.asOf }

  function FinalScore(c: Candidate, b: Bridge, policy: Policy, now: Option<int>): (r: real)
    ensures 0.0 <= r <= 100.0
  {
    Max(0.0, Min(100.0, RawScore(c, b, policy) - Penalty(c, b, ClockOf(c, now), policy.penalties)))
  }

  datatype Status = FinancingDestroyed | ThesisBroken | InsufficientEvidence | Admitted

  predicate HasAllPillars(c: Candidate, b: Bridge, policy: Policy, now: Option<int>) {
    var p := Points(c, b, policy);
    && b.hasClaims && b.allSupported && !HasConflicts(b)
    && (policy.enforceClaims ==> b.coreAdmitted)
    && EffectiveRole(c) in {SingleSource, SemiMonopoly, QualificationConstrained, CapacityBottleneck}
    && p.scarcity > 0.0 && p.demand > 0.0 && (p.pricing > 0.0 || p.capture > 0.0) && p.catalyst > 0.0
    && c.falsifiers > 0 && c.financing != Destroyed && !c.broken && ClockOf(c, now).Some?
  }

  function StatusOf(c: Candidate, b: Bridge, policy: Policy, now: Option<int>): Status {
    if c.financing == Destroyed then FinancingDestroyed
    else if c.broken then ThesisBroken
    else if !HasAllPillars(c, b, policy, now) then InsufficientEvidence
    else Admitted
  }

  function DataQuality(c: Candidate, b: Bridge, policy: Policy, now: Option<int>): real {
    if c.dataQuality > 0.0 then c.dataQuality
    else if b.allSupported then 0.9
    else if HasAllPillars(c, b, policy, now) then 0.7
    else 0.4
  }

  /** How the record rounds its score and its data quality. */
  datatype Rounding = Rounding(score: real -> real, quality: real -> real)

  datatype Evaluation = Evaluation(ticker: string, score: real, quality: real, status: Status, role: Role, points: Weights, rank: Option<nat>,
                                   longTerm: Option<real>, shortTerm: Option<real>)

  datatype Setting = Setting(policy: Policy, now: Option<int>, rounding: Rounding)

  /** A candidate with its bridge. */
  datatype Entry = Entry(candidate: Candidate, bridge: Bridge)

  function EvaluationOf(setting: Setting, e: Entry): Evaluation {
    var c, b, policy, now, h := e.candidate, e.bridge, setting.policy, setting.now, e.candidate.history;
    Evaluation(c.ticker, setting.rounding.score(FinalScore(c, b, policy, now)), setting.rounding.quality(DataQuality(c, b, policy, now)),
               StatusOf(c, b, policy, now), EffectiveRole(c), Points(c, b, policy), None,
               if h.longTerm.Some? then h.longTerm else h.contextLong,
               if h.shortTerm.Some? then h.shortTerm else h.contextShort)
  }

  function Evaluate(setting: Setting): Entry -> Evaluation { (e: Entry) => EvaluationOf(setting, e) }

  /** While claims are enforced, nothing is admitted on an unlicensed scarcity, nor without a licensed price or capture mechanism. */
  lemma AdmissionIsLicensed(setting: Setting, e: Entry)
    requires EvaluationOf(setting, e).status == Admitted
    ensures setting.policy.enforceClaims ==>
              e.bridge.coreAdmitted && e.bridge.scarcityLicensed && (e.bridge.pricingLicensed || e.bridge.captureLicensed)
    ensures e.bridge.allSupported && e.bridge.conflicts == 0 && e.candidate.financing != Destroyed && !e.candidate.scarcity.relieved
  {
  }

  /** A monotone rounding that keeps the ends keeps the recorded score in range. */
  lemma RecordedScoreIsInRange(setting: Setting, e: Entry)
    requires forall x, y :: x <= y ==> setting.rounding.score(x) <= setting.rounding.score(y)
    requires setting.rounding.score(0.0) == 0.0 && setting.rounding.score(100.0) == 100.0
    ensures 0.0 <= EvaluationOf(setting, e).score <= 100.0
  {
    var x := FinalScore(e.candidate, e.bridge, setting.policy, setting.now);
    assert setting.rounding.score(0.0) <= setting.rounding.score(x) <= setting.rounding.score(100.0);
  }

  // ---- ranking

  predicate IsAdmitted(e: Evaluation) { e.status == Admitted }

  predicate IsUnranked(e: Evaluation) { e.status != Admitted }

  /** Score, then data quality, both descending, then ticker. */
  predicate RanksBefore(a: Evaluation, b: Evaluation) {
    || a.score > b.score
    || (a.score == b.score && a.quality > b.quality)
    || (a.score == b.score && a.quality == b.quality && TextLeq(a.ticker, b.ticker))
  }

  lemma RanksBeforeIsOrder()
    ensures IsTotalPreorder(RanksBefore)
  {
    TextLeqIsOrder();
  }

  datatype Ranking = Ranking(ranked: seq<Evaluation>, overflow: seq<Evaluation>, unranked: seq<Evaluation>)

  function RankFrom(sorted: seq<Evaluation>, first: nat): (r: seq<Evaluation>)
    ensures |r| == |sorted|
    ensures forall i :: 0 <= i < |r| ==> r[i] == sorted[i].(rank := Some(first + i))
  {
    if sorted == [] then [] else [sorted[0].(rank := Some(first))] + RankFrom(sorted[1..], first + 1)
  }

  function AdmittedInOrder(entries: seq<Entry>, setting: Setting): seq<Evaluation> {
    SortBy(RanksBefore, Filter(IsAdmitted, Map(Evaluate(setting), entries)))
  }

  function Places(topCount: int, n: nat): nat { if topCount <= 0 then 0 else if topCount < n then topCount else n }

  function RankingOf(entries: seq<Entry>, topCount: int, setting: Setting): Ranking {
    var sorted := AdmittedInOrder(entries, setting);
    var k := Places(topCount, |sorted|);
    Ranking(RankFrom(sorted[..k], 1), sorted[k..], Filter(IsUnranked, Map(Evaluate(setting), entries)))
  }

  method RankCandidates(entries: seq<Entry>, topCount: int, setting: Setting) returns (r: Ranking)
    ensures r == RankingOf(entries, topCount, setting)
  {
    var evaluated := Map(Evaluate(setting), entries);
    var admitted := SortBy(RanksBefore, Filter(IsAdmitted, evaluated));
    var k := Places(topCount, |admitted|);
    var ranked, overflow: seq<Evaluation> := [], [];
    for i := 0 to |admitted|
      invariant |ranked| == if i <= k then i else k
      invariant forall j :: 0 <= j < |ranked| ==> ranked[j] == admitted[j].(rank := Some(j + 1))
      invariant overflow == if i <= k then [] else admitted[k..i]
    {
      if i < topCount {
        ranked := ranked + [admitted[i].(rank := Some(i + 1))];
      } else {
        assert admitted[i].rank == None by { NotYetRanked(entries, setting, i); }
        overflow := overflow + [admitted[i].(rank := None)];
      }
    }
    assert ranked == RankFrom(admitted[..k], 1);
    r := Ranking(ranked, overflow, Filter(IsUnranked, evaluated));
  }

  lemma NotYetRanked(entries: seq<Entry>, setting: Setting, i: nat)
    requires i < |AdmittedInOrder(entries, setting)|
    ensures AdmittedInOrder(entries, setting)[i].rank == None && AdmittedInOrder(entries, setting)[i].status == Admitted
  {
    var evaluated := Map(Evaluate(setting), entries);
    SortIsSortedPermutation(RanksBefore, Filter(IsAdmitted, evaluated));
    MultisetMember(AdmittedInOrder(entries, setting), Filter(IsAdmitted, evaluated), AdmittedInOrder(entries, setting)[i]);
    FilterMembers(IsAdmitted, evaluated);
  }

  function Unplaced(e: Evaluation): Evaluation { e.(rank := None) }

  /** The three lists together hold every evaluated candidate once. */
  lemma NothingIsLost(entries: seq<Entry>, topCount: int, setting: Setting)
    ensures var r := RankingOf(entries, topCount, setting);
            multiset(Map(Unplaced, r.ranked)) + multiset(r.overflow) + multiset(r.unranked) == multiset(Map(Evaluate(setting), entries))
  {
    var evaluated := Map(Evaluate(setting), entries);
    var sorted := AdmittedInOrder(entries, setting);
    var r := RankingOf(entries, topCount, setting);
    var k := Places(topCount, |sorted|);
    forall i | 0 <= i < k ensures Map(Unplaced, r.ranked)[i] == sorted[i] { NotYetRanked(entries, setting, i); }
    assert Map(Unplaced, r.ranked) == sorted[..k];
    assert sorted == sorted[..k] + sorted[k..];
    SortIsSortedPermutation(RanksBefore, Filter(IsAdmitted, evaluated));
    FilterSplit(IsAdmitted, IsUnranked, Anyone, evaluated);
    FilterAll(Anyone, evaluated);
  }

  predicate Anyone(e: Evaluation) { true }

  /** The ranked rows are admitted, sorted and numbered from one without a gap; every overflow row would rank after them; there is
      overflow only when the places are full. */
  lemma RankedInOrder(entries: seq<Entry>, topCount: int, setting: Setting)
    ensures var r := RankingOf(entries, topCount, setting);
            && IsSorted(RanksBefore, r.ranked + r.overflow)
            && (forall i :: 0 <= i < |r.ranked| ==> r.ranked[i].rank == Some(i + 1) && r.ranked[i].status == Admitted)
            && (forall i :: 0 <= i < |r.overflow| ==> r.overflow[i].rank == None && r.overflow[i].status == Admitted)
            && (forall i :: 0 <= i < |r.unranked| ==> r.unranked[i].status != Admitted)
            && (topCount >= 0 ==> |r.ranked| <= topCount)
            && (r.overflow != [] ==> |r.ranked| >= topCount)
  {
    var r := RankingOf(entries, topCount, setting);
    var sorted := AdmittedInOrder(entries, setting);
    RanksBeforeIsOrder();
    SortIsSortedPermutation(RanksBefore, Filter(IsAdmitted, Map(Evaluate(setting), entries)));
    FilterMembers(IsUnranked, Map(Evaluate(setting), entries));
    assert forall i :: 0 <= i < |r.unranked| ==> r.unranked[i] in r.unranked;
    forall i | 0 <= i < |sorted| ensures sorted[i].rank == None && sorted[i].status == Admitted { NotYetRanked(entries, setting, i); }
    NumberedInOrder(sorted, Places(topCount, |sorted|));
  }

  lemma NumberedInOrder(sorted: seq<Evaluation>, k: nat)
    requires IsSorted(RanksBefore, sorted) && k <= |sorted|
    ensures IsSorted(RanksBefore, RankFrom(sorted[..k], 1) + sorted[k..])
  {
    var all := RankFrom(sorted[..k], 1) + sorted[k..];
    assert forall i :: 0 <= i < |all| ==> Unplaced(all[i]) == Unplaced(sorted[i]);
    forall i, j | 0 <= i < j < |all| ensures RanksBefore(all[i], all[j]) {
      assert RanksBefore(sorted[i], sorted[j]);
    }
  }

  ghost predicate HasDistinctTickers(entries: seq<Entry>) {
    forall i, j :: 0 <= i < j < |entries| ==> entries[i].candidate.ticker != entries[j].candidate.ticker
  }

  /** With distinct tickers the input order decides nothing about the ranked rows and the overflow. */
  lemma RankingIgnoresInputOrder(entries: seq<Entry>, permuted: seq<Entry>, topCount: int, setting: Setting)
    requires HasDistinctTickers(entries) && multiset(permuted) == multiset(entries)
    ensures RankingOf(permuted, topCount, setting).ranked == RankingOf(entries, topCount, setting).ranked
    ensures RankingOf(permuted, topCount, setting).overflow == RankingOf(entries, topCount, setting).overflow
    ensures multiset(RankingOf(permuted, topCount, setting).unranked) == multiset(RankingOf(entries, topCount, setting).unranked)
  {
    var a, b := Map(Evaluate(setting), entries), Map(Evaluate(setting), permuted);
    MapOfPermutation(Evaluate(setting), entries, permuted);
    FilterOfPermutation(IsUnranked, a, b);
    FilterOfPermutation(IsAdmitted, a, b);
    var p, q := Filter(IsAdmitted, a), Filter(IsAdmitted, b);
    RanksBeforeIsOrder();
    SortIsSortedPermutation(RanksBefore, p);
    SortIsSortedPermutation(RanksBefore, q);
    FilterMembers(IsAdmitted, a);
    forall x, y | x in SortBy(RanksBefore, p) && y in SortBy(RanksBefore, p) && RanksBefore(x, y) && RanksBefore(y, x) ensures x == y {
      MultisetMember(SortBy(RanksBefore, p), p, x);
      MultisetMember(SortBy(RanksBefore, p), p, y);
      TextLeqIsOrder();
      OneRowPerTicker(entries, setting, x, y);
    }
    SortedIsUnique(RanksBefore, SortBy(RanksBefore, p), SortBy(RanksBefore, q));
  }

  lemma OneRowPerTicker(entries: seq<Entry>, setting: Setting, x: Evaluation, y: Evaluation)
    requires HasDistinctTickers(entries)
    requires x in Map(Evaluate(setting), entries) && y in Map(Evaluate(setting), entries) && x.ticker == y.ticker
    ensures x == y
  {
    var a := Map(Evaluate(setting), entries);
    var i :| 0 <= i < |a| && a[i] == x;
    var j :| 0 <= j < |a| && a[j] == y;
    assert a[i] == EvaluationOf(setting, entries[i]) && a[j] == EvaluationOf(setting, entries[j]);
    assert !(i < j) && !(j < i);
  }

  // ---- historical returns decide nothing

  function Forget(e: Evaluation): Evaluation { e.(longTerm := None, shortTerm := None) }

  ghost predicate DifferOnlyInHistory(a: seq<Entry>, b: seq<Entry>) {
    && |a| == |b|
    && forall i :: 0 <= i < |a| ==> a[i].bridge == b[i].bridge && a[i].candidate == b[i].candidate.(history := a[i].candidate.history)
  }

  lemma EvaluationIgnoresHistory(setting: Setting, a: Entry, b: Entry)
    requires a.bridge == b.bridge && a.candidate == b.candidate.(history := a.candidate.history)
    ensures Forget(EvaluationOf(setting, a)) == Forget(EvaluationOf(setting, b))
  {
    var c, d := a.candidate, b.candidate;
    assert Points(c, a.bridge, setting.policy) == Points(d, b.bridge, setting.policy);
    assert StatusOf(c, a.bridge, setting.policy, setting.now) == StatusOf(d, b.bridge, setting.policy, setting.now);
  }

  lemma EvaluationsAlike(setting: Setting, a: seq<Entry>, b: seq<Entry>)
    requires DifferOnlyInHistory(a, b)
    ensures Map(Forget, Map(Evaluate(setting), a)) == Map(Forget, Map(Evaluate(setting), b))
  {
    var x, y := Map(Evaluate(setting), a), Map(Evaluate(setting), b);
    forall i | 0 <= i < |a| ensures Forget(x[i]) == Forget(y[i]) {
      EvaluationIgnoresHistory(setting, a[i], b[i]);
      assert x[i] == EvaluationOf(setting, a[i]) && y[i] == EvaluationOf(setting, b[i]);
    }
  }

  lemma UnrankedAlike(x: seq<Evaluation>, y: seq<Evaluation>)
    requires Map(Forget, x) == Map(Forget, y)
    ensures Map(Forget, Filter(IsUnranked, x)) == Map(Forget, Filter(IsUnranked, y))
  {
    MapOfFilter(IsUnranked, IsUnranked, Forget, x);
    MapOfFilter(IsUnranked, IsUnranked, Forget, y);
  }

  /** Two runs that differ in historical returns alone give the same lists, ranks, scores and statuses; only what is displayed differs. */
  lemma HistoryDecidesNothing(a: seq<Entry>, b: seq<Entry>, topCount: int, setting: Setting)
    requires DifferOnlyInHistory(a, b)
    ensures var r, s := RankingOf(a, topCount, setting), RankingOf(b, topCount, setting);
            && Map(Forget, r.ranked) == Map(Forget, s.ranked)
            && Map(Forget, r.overflow) == Map(Forget, s.overflow)
            && Map(Forget, r.unranked) == Map(Forget, s.unranked)
  {
    EvaluationsAlike(setting, a, b);
    UnrankedAlike(Map(Evaluate(setting), a), Map(Evaluate(setting), b));
    SortedAlike(Map(Evaluate(setting), a));
    SortedAlike(Map(Evaluate(setting), b));
    SplitAlike(AdmittedInOrder(a, setting), AdmittedInOrder(b, setting), Places(topCount, |AdmittedInOrder(a, setting)|));
  }

  lemma SplitAlike(p: seq<Evaluation>, q: seq<Evaluation>, k: nat)
    requires Map(Forget, p) == Map(Forget, q) && k <= |p|
    ensures |p| == |q|
    ensures Map(Forget, RankFrom(p[..k], 1)) == Map(Forget, RankFrom(q[..k], 1))
    ensures Map(Forget, p[k..]) == Map(Forget, q[k..])
  {
    assert |Map(Forget, p)| == |Map(Forget, q)|;
    forall i | 0 <= i < |p| ensures Forget(p[i]) == Forget(q[i]) { assert Map(Forget, p)[i] == Map(Forget, q)[i]; }
  }

  lemma SortedAlike(x: seq<Evaluation>)
    ensures Map(Forget, SortBy(RanksBefore, Filter(IsAdmitted, x))) == SortBy(RanksBefore, Filter(IsAdmitted, Map(Forget, x)))
  {
    MapOfSort(RanksBefore, RanksBefore, Forget, Filter(IsAdmitted, x));
    MapOfFilter(IsAdmitted, IsAdmitted, Forget, x);
  }
}
