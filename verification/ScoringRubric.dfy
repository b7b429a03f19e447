/**
 What moves a score. Each law compares two candidates, or reads off one what its facts are worth: what a
 finding costs, which facts count for nothing alone, and what keeps a candidate off the list.
 */
module ScoringRubric {
  import opened Ordering
  import opened Wrappers
  import opened BottleneckRanking

  // ---- what is held against a candidate

  ghost predicate HasClock(c: Candidate, now: Option<int>) { now.Some? || c.asOf.Some? }

  ghost predicate IsUnconflicted(b: Bridge) { b.conflicts == 0 && b.unconflicted }

  /** No finding at all. */
  ghost predicate IsClean(c: Candidate, b: Bridge, now: Option<int>) {
    && HasClock(c, now) && IsUnconflicted(b) && c.financing.NoRisk?
    && c.risks.concentration.Calm? && c.risks.exportRisk.Calm? && c.risks.crowding.Calm?
    && !c.risks.deterioration && !c.risks.undisclosed
  }

  /** `x` cut to 0..100. */
  ghost predicate IsCut(x: real, score: real) {
    if x < 0.0 then score == 0.0 else if x > 100.0 then score == 100.0 else score == x
  }

  /** Without a finding the score is the raw score, cut to 0..100. */
  lemma CleanScore(c: Candidate, b: Bridge, policy: Policy, now: Option<int>)
    requires IsClean(c, b, now)
    ensures IsCut(RawScore(c, b, policy), FinalScore(c, b, policy, now))
  {
  }

  /** The second score is the first less the amount, unless the first or that is cut off. */
  ghost predicate Costs(before: real, after: real, amount: real) {
    0.0 < before < 100.0 ==> IsCut(before - amount, after)
  }

  ghost function WithRisks(c: Candidate, risks: Risks): Candidate { c.(risks := risks) }

  lemma RisksLeaveTheRawScore(c: Candidate, risks: Risks, b: Bridge, policy: Policy)
    ensures RawScore(WithRisks(c, risks), b, policy) == RawScore(c, b, policy)
  {
  }

  /** A customer concentration costs what the policy says for its level. */
  lemma ConcentrationCosts(c: Candidate, b: Bridge, policy: Policy, now: Option<int>, level: Level)
    requires c.risks.concentration.Calm?
    ensures Costs(FinalScore(c, b, policy, now), FinalScore(WithRisks(c, c.risks.(concentration := level)), b, policy, now),
                  match level case Severe => policy.penalties.severeConcentration case Moderate => policy.penalties.concentration case Calm => 0.0)
  {
    RisksLeaveTheRawScore(c, c.risks.(concentration := level), b, policy);
  }

  /** So does an export or policy risk. */
  lemma ExportRiskCosts(c: Candidate, b: Bridge, policy: Policy, now: Option<int>, level: Level)
    requires c.risks.exportRisk.Calm?
    ensures Costs(FinalScore(c, b, policy, now), FinalScore(WithRisks(c, c.risks.(exportRisk := level)), b, policy, now),
                  match level case Severe => policy.penalties.severeExport case Moderate => policy.penalties.exportExposure case Calm => 0.0)
  {
    RisksLeaveTheRawScore(c, c.risks.(exportRisk := level), b, policy);
  }

  /** And a crowded valuation. */
  lemma CrowdingCosts(c: Candidate, b: Bridge, policy: Policy, now: Option<int>, level: Level)
    requires c.risks.crowding.Calm?
    ensures Costs(FinalScore(c, b, policy, now), FinalScore(WithRisks(c, c.risks.(crowding := level)), b, policy, now),
                  match level case Severe => policy.penalties.extremeCrowding case Moderate => policy.penalties.expectations case Calm => 0.0)
  {
    RisksLeaveTheRawScore(c, c.risks.(crowding := level), b, policy);
  }

  /** An unexplained fall of revenue costs its penalty. */
  lemma DeteriorationCosts(c: Candidate, b: Bridge, policy: Policy, now: Option<int>)
    requires !c.risks.deterioration
    ensures Costs(FinalScore(c, b, policy, now), FinalScore(WithRisks(c, c.risks.(deterioration := true)), b, policy, now),
                  policy.penalties.decline)
  {
    RisksLeaveTheRawScore(c, c.risks.(deterioration := true), b, policy);
  }

  /** So does a missing risk disclosure: no disclosed risk is not no risk. */
  lemma MissingDisclosureCosts(c: Candidate, b: Bridge, policy: Policy, now: Option<int>)
    requires !c.risks.undisclosed
    ensures Costs(FinalScore(c, b, policy, now), FinalScore(WithRisks(c, c.risks.(undisclosed := true)), b, policy, now),
                  policy.penalties.omitted)
  {
    RisksLeaveTheRawScore(c, c.risks.(undisclosed := true), b, policy);
  }

  /** An unresolved conflict costs 15, however many there are and however they are reported. */
  lemma ConflictsCost(c: Candidate, b: Bridge, conflicts: nat, unconflicted: bool, policy: Policy, now: Option<int>)
    requires IsUnconflicted(b) && (conflicts > 0 || !unconflicted)
    ensures var after := b.(conflicts := conflicts, unconflicted := unconflicted);
            Costs(FinalScore(c, b, policy, now), FinalScore(c, after, policy, now), 15.0)
  {
    var after := b.(conflicts := conflicts, unconflicted := unconflicted);
    assert Points(c, after, policy) == Points(c, b, policy);
  }

  /** A missing clock costs 20; the candidate's own date will do. */
  lemma MissingClockCosts(c: Candidate, b: Bridge, policy: Policy, now: Option<int>)
    ensures Costs(FinalScore(c, b, policy, now), FinalScore(c.(asOf := None), b, policy, None), if HasClock(c, now) then 20.0 else 0.0)
  {
    assert Points(c.(asOf := None), b, policy) == Points(c, b, policy);
  }

  /** An overhang costs its penalty. A structural finding costs its own, and may take the capture points too. */
  lemma FinancingCosts(c: Candidate, b: Bridge, policy: Policy, now: Option<int>)
    requires c.financing.NoRisk?
    ensures var s := FinalScore(c, b, policy, now);
            var overhang, structural := c.(financing := MaterialOverhang), c.(financing := StructuralDisqualifier);
            && Costs(s, FinalScore(overhang, b, policy, now), policy.penalties.overhang)
            && Costs(s, FinalScore(structural, b, policy, now),
                     policy.penalties.structural + Points(c, b, policy).capture - Points(structural, b, policy).capture)
  {
    var overhang, structural := c.(financing := MaterialOverhang), c.(financing := StructuralDisqualifier);
    assert Points(overhang, b, policy) == Points(c, b, policy);
    assert Points(structural, b, policy) == Points(c, b, policy).(capture := Points(structural, b, policy).capture);
  }

  ghost predicate ArePenalties(p: Penalties) {
    && p.structural >= 0.0 && p.overhang >= 0.0 && p.severeConcentration >= 0.0 && p.concentration >= 0.0 && p.decline >= 0.0
    && p.severeExport >= 0.0 && p.exportExposure >= 0.0 && p.extremeCrowding >= 0.0 && p.expectations >= 0.0 && p.omitted >= 0.0
  }

  ghost predicate IsOrCalm(less: Level, level: Level) { less == level || less.Calm? }

  /** The same candidate with some of the findings dropped. */
  ghost predicate HasFewerFindings(less: Candidate, c: Candidate) {
    && less == c.(financing := less.financing, risks := less.risks)
    && (less.financing == c.financing || less.financing.NoRisk?)
    && IsOrCalm(less.risks.concentration, c.risks.concentration) && IsOrCalm(less.risks.exportRisk, c.risks.exportRisk)
    && IsOrCalm(less.risks.crowding, c.risks.crowding)
    && (less.risks.deterioration ==> c.risks.deterioration) && (less.risks.undisclosed ==> c.risks.undisclosed)
  }

  ghost predicate HasFewerConflicts(less: Bridge, b: Bridge) {
    && less == b.(conflicts := less.conflicts, unconflicted := less.unconflicted)
    && (IsUnconflicted(b) ==> IsUnconflicted(less))
  }

  lemma FewerFindingsNeverLowerThePoints(less: Candidate, c: Candidate, a: Bridge, b: Bridge, policy: Policy)
    requires HasFewerFindings(less, c) && HasFewerConflicts(a, b)
    ensures RawScore(less, a, policy) >= RawScore(c, b, policy)
  {
    var p, q := Points(less, a, policy), Points(c, b, policy);
    assert p.capture >= q.capture;
    assert p == q.(capture := p.capture);
  }

  /** Under penalties that are not negative no finding, and no set of findings, raises a score. */
  lemma NoFindingRaisesAScore(less: Candidate, c: Candidate, a: Bridge, b: Bridge, policy: Policy, now: Option<int>)
    requires ArePenalties(policy.penalties) && HasFewerFindings(less, c) && HasFewerConflicts(a, b)
    ensures FinalScore(less, a, policy, now) >= FinalScore(c, b, policy, now)
  {
    FewerFindingsNeverLowerThePoints(less, c, a, b, policy);
  }

  /** Destroyed financing takes a hundred points off what is else a clean raw score. */
  lemma DestroyedTakesAHundred(c: Candidate, b: Bridge, policy: Policy, now: Option<int>)
    requires c.financing.Destroyed? && IsClean(c.(financing := NoRisk), b, now)
    ensures IsCut(RawScore(c, b, policy) - 100.0, FinalScore(c, b, policy, now))
  {
  }

  /** Destroyed financing leaves nothing of a raw score up to 100, so nothing of any score under the in-code weights. */
  lemma DestroyedScoresNothing(c: Candidate, b: Bridge, policy: Policy, now: Option<int>)
    requires c.financing.Destroyed? && ArePenalties(policy.penalties)
    requires RawScore(c, b, policy) <= 100.0 || policy.weights == DEFAULT_WEIGHTS
    ensures FinalScore(c, b, policy, now) == 0.0
  {
    RawScoreIsBounded(c, b, policy);
  }

  // ---- what the facts are worth

  /** `x` is the smaller of the two. */
  ghost predicate IsLesser(x: real, a: real, b: real) { (x == a || x == b) && x <= a && x <= b }

  ghost predicate IsCustomerAlone(d: Dependency) { d.customerOnly && !d.irreplaceable }

  ghost predicate IsExpansionAlone(s: Supply) { s.expansionOnly && !s.bindingScarcity }

  ghost predicate IsMarginAlone(p: Pricing) { p.marginOnly && !p.mechanism }

  ghost predicate HasDated(c: Candidate, timings: set<Timing>) {
    exists i :: 0 <= i < |c.catalysts| && c.catalysts[i].described && c.catalysts[i].timing in timings
  }

  /** A named customer, an announced expansion or a high margin alone scores nothing, nor does scarcity once the shortage is relieved,
      which also leaves at most four points for supply. */
  lemma FactsThatCountForNothing(c: Candidate, b: Bridge, policy: Policy)
    ensures var p := Points(c, b, policy);
            && (IsCustomerAlone(c.dependency) ==> p.dependency == 0.0)
            && (IsMarginAlone(c.pricing) ==> p.pricing == 0.0)
            && (IsExpansionAlone(c.supply) ==> p.supply == 0.0)
            && (c.scarcity.relieved ==>
                  && p.scarcity == 0.0
                  && IsLesser(p.supply, 4.0, Points(c.(scarcity := c.scarcity.(relieved := false)), b, policy).supply))
  {
  }

  /** A stated score counts up to the weight of its factor. */
  lemma StatedScoresAreCapped(c: Candidate, b: Bridge, policy: Policy)
    requires !policy.enforceClaims && !c.scarcity.relieved
    ensures var p, w := Points(c, b, policy), policy.weights;
            && (c.dependency.score > 0.0 && !IsCustomerAlone(c.dependency) ==> IsLesser(p.dependency, w.dependency, c.dependency.score))
            && (c.scarcity.switchingMonths < 6.0 ==> IsLesser(p.scarcity, w.scarcity, c.scarcity.score))
            && (c.demand.score > 0.0 && w.demand > 0.0 ==> IsLesser(p.demand, w.demand, c.demand.score))
            && (c.supply.score > 0.0 && w.supply > 0.0 && !IsExpansionAlone(c.supply) ==> IsLesser(p.supply, w.supply, c.supply.score))
            && (c.pricing.score > 0.0 && w.pricing > 0.0 && !IsMarginAlone(c.pricing) ==> IsLesser(p.pricing, w.pricing, c.pricing.score))
            && (c.capture.score > 0.0 && w.capture > 0.0 ==> IsLesser(p.capture, w.capture, c.capture.score))
            && (c.leverage.score > 0.0 && w.leverage > 0.0 ==> IsLesser(p.leverage, w.leverage, c.leverage.score))
            && (c.orders.score > 0.0 && w.orders > 0.0 ==> IsLesser(p.orders, w.orders, c.orders.score))
            && (c.catalysts == [] && c.catalystScore > 0.0 && w.catalyst > 0.0 ==> IsLesser(p.catalyst, w.catalyst, c.catalystScore))
  {
  }

  ghost predicate StatesNoScore(c: Candidate) {
    && c.dependency.score == 0.0 && c.scarcity.score == 0.0 && c.demand.score == 0.0 && c.supply.score == 0.0
    && c.pricing.score == 0.0 && c.capture.score == 0.0 && c.leverage.score == 0.0 && c.catalystScore == 0.0 && c.orders.score == 0.0
  }

  ghost predicate IsSoleSource(c: Candidate) { c.role.SingleSource? || c.role.SemiMonopoly? }

  /** What the facts alone are worth, whatever the weights: the lead times, switching times and catalyst dates at which they count. */
  lemma FactsAreWorth(c: Candidate, b: Bridge, policy: Policy)
    requires !policy.enforceClaims && AreAtLeast(policy.weights, ZERO) && StatesNoScore(c) && !c.scarcity.relieved
    requires !IsCustomerAlone(c.dependency) && !IsExpansionAlone(c.supply) && !IsMarginAlone(c.pricing)
    ensures var p, months := Points(c, b, policy), c.scarcity.switchingMonths;
            var fewSuppliers := c.scarcity.suppliers.Some? && c.scarcity.suppliers.value <= 2;
            && p.dependency == (if c.dependency.irreplaceable then 12.0 else if c.dependency.highCriticality then 8.0 else 0.0)
            && p.scarcity == (if IsSoleSource(c) && months >= 18.0 then 14.0
                              else if fewSuppliers && months >= 12.0 then 10.0
                              else if months >= 6.0 then 5.0 else 0.0)
            && p.demand == (if c.demand.structural && c.demand.multiYear then 10.0 else if c.demand.structural then 7.0 else 0.0)
            && p.supply == (if c.supply.leadWeeks >= 52.0 then 12.0 else if c.supply.leadWeeks >= 24.0 then 8.0 else 0.0)
            && p.pricing == (if c.pricing.increases then 12.0 else if c.pricing.stable then 8.0 else 0.0)
            && p.capture == (if !c.capture.disciplined || c.financing.StructuralDisqualifier? || c.financing.Destroyed? then 0.0
                             else if c.capture.dominantShare then 12.0 else 8.0)
            && p.leverage == (if c.leverage.incremental then 10.0 else if c.leverage.expansion then 7.0 else 0.0)
            && p.catalyst == (if HasDated(c, {M6, M12, M18}) then 10.0 else if HasDated(c, {M24, M36}) then 7.0 else 0.0)
            && p.orders == (if c.orders.kind.Binding? then 8.0 else if c.orders.kind.Backlog? then 5.0
                            else if c.orders.kind.DesignWin? then 2.0 else 0.0)
  {
    DatedFacts(c);
  }

  lemma DatedFacts(c: Candidate)
    ensures DatedPoints(c.catalysts)
            == if HasDated(c, {M6, M12, M18}) then 10.0 else if HasDated(c, {M24, M36}) then 7.0 else 0.0
  {
    forall i | 0 <= i < |c.catalysts|
      ensures IsNear(c.catalysts[i]) <==> c.catalysts[i].described && c.catalysts[i].timing in {M6, M12, M18}
      ensures IsFar(c.catalysts[i]) <==> c.catalysts[i].described && c.catalysts[i].timing in {M24, M36}
    {
    }
  }

  /** Enforced claims only withhold: the four core factors keep their points exactly when licensed, the others always. */
  lemma LicencesOnlyWithhold(c: Candidate, b: Bridge, policy: Policy)
    requires policy.enforceClaims
    ensures var p, q := Points(c, b, policy), Points(c, b, policy.(enforceClaims := false));
            && p == q.(dependency := p.dependency, scarcity := p.scarcity, pricing := p.pricing, capture := p.capture)
            && p.dependency == (if b.dependencyLicensed then q.dependency else 0.0)
            && p.scarcity == (if b.scarcityLicensed then q.scarcity else 0.0)
            && p.pricing == (if b.pricingLicensed then q.pricing else 0.0)
            && p.capture == (if b.captureLicensed then q.capture else 0.0)
  {
  }

  /** The raw score is the nine factors together: what one gains, the score gains. */
  lemma EveryFactorCounts(c: Candidate, d: Candidate, a: Bridge, b: Bridge, policy: Policy)
    ensures var p, q := Points(c, a, policy), Points(d, b, policy);
            RawScore(c, a, policy) - RawScore(d, b, policy)
            == (p.dependency - q.dependency) + (p.scarcity - q.scarcity) + (p.demand - q.demand) + (p.supply - q.supply)
               + (p.pricing - q.pricing) + (p.capture - q.capture) + (p.leverage - q.leverage) + (p.catalyst - q.catalyst)
               + (p.orders - q.orders)
  {
  }

  // ---- who is admitted

  /** A label of sole source needs corroboration, few suppliers or a long switching time. */
  ghost predicate HasProvenRole(c: Candidate) {
    || c.role.QualificationConstrained? || c.role.CapacityBottleneck?
    || (IsSoleSource(c)
        && (c.scarcity.corroborated || (c.scarcity.suppliers.Some? && c.scarcity.suppliers.value <= 2) || c.scarcity.switchingMonths >= 12.0))
  }

  /** Exactly who is admitted, and why anybody else is not. */
  lemma AdmittedIff(c: Candidate, b: Bridge, policy: Policy, now: Option<int>)
    ensures var p, status := Points(c, b, policy), StatusOf(c, b, policy, now);
            && (status == Admitted <==>
                  && !c.financing.Destroyed? && !c.broken && HasClock(c, now)
                  && b.hasClaims && b.allSupported && IsUnconflicted(b) && (policy.enforceClaims ==> b.coreAdmitted)
                  && HasProvenRole(c) && c.falsifiers > 0
                  && p.scarcity > 0.0 && p.demand > 0.0 && p.catalyst > 0.0 && (p.pricing > 0.0 || p.capture > 0.0))
            && (status == FinancingDestroyed <==> c.financing.Destroyed?)
            && (status == ThesisBroken <==> c.broken && !c.financing.Destroyed?)
  {
  }

  /** A relieved shortage is never admitted, nor a label of sole source without proof. */
  lemma NotAdmitted(c: Candidate, b: Bridge, policy: Policy, now: Option<int>)
    requires c.scarcity.relieved || (IsSoleSource(c) && !HasProvenRole(c))
    ensures StatusOf(c, b, policy, now) != Admitted
  {
  }

  /** A stated data quality counts; without one it is 0.9 for supported claims and 0.4 otherwise, so the 0.7 in between is never given. */
  lemma QualityOf(c: Candidate, b: Bridge, policy: Policy, now: Option<int>)
    ensures DataQuality(c, b, policy, now) == if c.dataQuality > 0.0 then c.dataQuality else if b.allSupported then 0.9 else 0.4
  {
  }

  // ---- what is listed

  ghost predicate ScoresAbove(a: Evaluation, b: Evaluation) {
    || a.score > b.score
    || (a.score == b.score && (a.quality > b.quality || (a.quality == b.quality && TextLeq(a.ticker, b.ticker))))
  }

  /** The recorded numbers are the rounded ones, and a return is the candidate's own or else that of its context. */
  ghost predicate IsRowOf(row: Evaluation, e: Entry, setting: Setting) {
    var c := e.candidate;
    && row.ticker == c.ticker
    && row.score == setting.rounding.score(FinalScore(c, e.bridge, setting.policy, setting.now))
    && row.points == Points(c, e.bridge, setting.policy)
    && (row.role.Unproven? <==> c.role.Unproven? || (IsSoleSource(c) && !HasProvenRole(c))) && (!row.role.Unproven? ==> row.role == c.role)
    && row.quality == setting.rounding.quality(if c.dataQuality > 0.0 then c.dataQuality else 0.9)
    && row.longTerm == (if c.history.longTerm.None? then c.history.contextLong else c.history.longTerm)
    && row.shortTerm == (if c.history.shortTerm.None? then c.history.contextShort else c.history.shortTerm)
  }

  lemma RowOfAdmitted(e: Entry, setting: Setting)
    requires EvaluationOf(setting, e).status == Admitted
    ensures IsRowOf(EvaluationOf(setting, e), e, setting)
  {
  }

  lemma RowOfEntry(entries: seq<Entry>, setting: Setting, i: nat) returns (e: Entry)
    requires i < |AdmittedInOrder(entries, setting)|
    ensures e in entries && AdmittedInOrder(entries, setting)[i] == EvaluationOf(setting, e)
  {
    var sorted, evaluated := AdmittedInOrder(entries, setting), Map(Evaluate(setting), entries);
    SortIsSortedPermutation(RanksBefore, Filter(IsAdmitted, evaluated));
    MultisetMember(sorted, Filter(IsAdmitted, evaluated), sorted[i]);
    FilterMembers(IsAdmitted, evaluated);
    var k :| 0 <= k < |evaluated| && evaluated[k] == sorted[i];
    e := entries[k];
  }

  /** The list goes by score, then quality, then ticker. */
  lemma ListedInOrder(entries: seq<Entry>, topCount: int, setting: Setting, i: nat, j: nat)
    requires var r := RankingOf(entries, topCount, setting); i < j < |r.ranked + r.overflow|
    ensures var r := RankingOf(entries, topCount, setting); ScoresAbove((r.ranked + r.overflow)[i], (r.ranked + r.overflow)[j])
  {
    RankedInOrder(entries, topCount, setting);
    var all := RankingOf(entries, topCount, setting).ranked + RankingOf(entries, topCount, setting).overflow;
    assert RanksBefore(all[i], all[j]);
  }

  /** Of each entry the list shows its own score, points and returns. */
  lemma ListedRows(entries: seq<Entry>, topCount: int, setting: Setting, i: nat)
    requires i < |RankingOf(entries, topCount, setting).ranked|
    ensures exists e :: e in entries && IsRowOf(RankingOf(entries, topCount, setting).ranked[i], e, setting)
  {
    var e := RowOfEntry(entries, setting, i);
    NotYetRanked(entries, setting, i);
    RowOfAdmitted(e, setting);
    assert IsRowOf(RankingOf(entries, topCount, setting).ranked[i], e, setting);
  }
}
