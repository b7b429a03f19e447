/**
 The evidence boundary of the activation bundle: which sources count as claims about a company,
 what a record needs to publish a positive advantage, and what every admitted bundle has.
 */
module EvidenceAdmission {
  import opened Ordering
  import opened Wrappers

  datatype Result<T> = Ok(value: T) | Refused(reason: Reason)

  datatype Reason = NoSources | NoMetrics | NoLogic | SevereThesis | NotDiverse | NoFreshSupport | LimitedForbidden | NoPrimary
                  | OneOrigin | NoMarket | StaleMarket | WrongProviderCount | MarketConflict | ValuationOverCap
                  | NotFresh | BadOrder | BadMembership | NoPortfolio | SingleOriginRow | LimitedIsHigh

  /** The families that a rule names; `MarketFamily` is any name that ends in "_market". */
  datatype Family = RegulatorFiling | IssuerPrimary | ExchangeSro | OfficialMacro | MarketFamily(name: string) | NoFamily
                  | OtherFamily(name: string)

  datatype ClaimType = MarketReturn | MarketCorroboration | MacroContext | ListingIdentity | LegalEntityReference
                     | RegistryObservation | LegalEntityIdentity | NoType | OtherType(text: string)

  /** By the prefix of the identifier. */
  datatype SourceId = SymbolDirectory(id: string) | Gleif(id: string) | OtherId(id: string)

  /** A source with its domain resolved, and its age in days where it has a usable date. */
  datatype Source = Source(family: Family, domain: string, claimType: ClaimType, sourceId: SourceId, primary: bool, https: bool,
                           age: Option<real>)

  datatype Policy = Policy(currentMax: real, structuralMax: real, identityMax: real, limitedPrimaryMax: real, marketMax: real,
                           minFamilies: int, minDomains: int, minPrimary: int, minAdvantageUnits: int, minAdvantageDomains: int,
                           minDatedRatio: real, limitedMinPrimary: int, limitedMinOrigins: int, limitedMinDomains: int,
                           limitedAllowed: bool, sensitive: seq<string>)

  // ---- what a source is

  predicate IsMarketOrMacro(s: Source) {
    s.family.OfficialMacro? || s.family.MarketFamily? || s.claimType in {MarketReturn, MarketCorroboration, MacroContext}
  }

  predicate IsIdentity(s: Source) {
    || s.claimType in {ListingIdentity, LegalEntityReference, RegistryObservation, LegalEntityIdentity}
    || s.sourceId.SymbolDirectory? || s.sourceId.Gleif?
  }

  predicate IsClaim(s: Source) {
    s.family != NoFamily && s.claimType != NoType && !IsMarketOrMacro(s) && !IsIdentity(s)
  }

  predicate IsPrimary(s: Source) { s.primary || s.family in {RegulatorFiling, IssuerPrimary, ExchangeSro} }

  predicate IsOther(s: Source) { !IsPrimary(s) }

  function IsDated(max: real): Source -> bool { (s: Source) => s.https && s.age.Some? && s.age.value <= max }

  // ---- one source per unit

  function UnitOf(s: Source): Option<(Family, string, ClaimType)> {
    if s.family == NoFamily || s.domain == "" || s.claimType == NoType then None else Some((s.family, s.domain, s.claimType))
  }

  /** Who published it; a source without a family goes by its identifier. */
  datatype Origin = SymbolDirectoryOrigin | LegalRegistryOrigin | RegulatorOrigin | FamilyOrigin(family: Family, domain: string)
                  | IdOrigin(id: string, domain: string)

  const SEC := "sec.gov"

  function OriginOf(s: Source): Origin {
    if s.sourceId.SymbolDirectory? then SymbolDirectoryOrigin
    else if s.sourceId.Gleif? then LegalRegistryOrigin
    else if s.family == RegulatorFiling || s.domain == SEC then RegulatorOrigin
    else if s.family == NoFamily then IdOrigin(s.sourceId.id, s.domain)
    else FamilyOrigin(s.family, s.domain)
  }

  function ProvenanceKey(s: Source): Option<(Origin, string)> {
    if s.domain == "" then None else Some((OriginOf(s), s.domain))
  }

  predicate HasKey<K(==)>(key: Source -> Option<K>, kept: seq<Source>, k: Option<K>) {
    exists i :: 0 <= i < |kept| && key(kept[i]) == k
  }

  /** The first source of each key; sources without a key are dropped. */
  function FirstPerKey<K(==)>(key: Source -> Option<K>, sources: seq<Source>): seq<Source> {
    if sources == [] then []
    else
      var kept, last := FirstPerKey(key, sources[..|sources| - 1]), sources[|sources| - 1];
      if key(last).None? || HasKey(key, kept, key(last)) then kept else kept + [last]
  }

  method KeepFirst<K(==)>(key: Source -> Option<K>, sources: seq<Source>) returns (kept: seq<Source>)
    ensures kept == FirstPerKey(key, sources)
  {
    kept := [];
    var seen: set<Option<K>> := {};
    for n := 0 to |sources|
      invariant kept == FirstPerKey(key, sources[..n])
      invariant forall k: Option<K> :: k in seen <==> HasKey(key, kept, k)
    {
      ghost var before := kept;
      ghost var prefix := sources[..n + 1];
      assert prefix[..|prefix| - 1] == sources[..n] && prefix[|prefix| - 1] == sources[n];
      var k := key(sources[n]);
      if k.Some? && k !in seen {
        KeyOneMore(key, kept, sources[n]);
        seen := seen + {k};
        kept := kept + [sources[n]];
      }
      assert FirstPerKey(key, prefix) == if k.None? || HasKey(key, before, k) then before else before + [sources[n]];
    }
    assert sources[..|sources|] == sources;
  }

  lemma KeyOneMore<K>(key: Source -> Option<K>, kept: seq<Source>, s: Source)
    ensures forall k: Option<K> :: HasKey(key, kept + [s], k) <==> HasKey(key, kept, k) || key(s) == k
  {
    forall k: Option<K> ensures HasKey(key, kept + [s], k) <==> HasKey(key, kept, k) || key(s) == k {
      if HasKey(key, kept, k) {
        var i :| 0 <= i < |kept| && key(kept[i]) == k;
        assert key((kept + [s])[i]) == k;
      }
      if key(s) == k { assert key((kept + [s])[|kept|]) == k; }
    }
  }

  /** Every key of the sources is kept, and kept once. */
  lemma {:induction false} EveryKeyOnce<K>(key: Source -> Option<K>, sources: seq<Source>)
    ensures forall k: Option<K> :: HasKey(key, FirstPerKey(key, sources), k) <==> k.Some? && HasKey(key, sources, k)
    ensures forall i, j :: 0 <= i < j < |FirstPerKey(key, sources)| ==>
              key(FirstPerKey(key, sources)[i]) != key(FirstPerKey(key, sources)[j])
  {
    if sources != [] {
      var m := |sources| - 1;
      EveryKeyOnce(key, sources[..m]);
      KeyOneMore(key, sources[..m], sources[m]);
      assert sources == sources[..m] + [sources[m]];
      var kept := FirstPerKey(key, sources[..m]);
      KeyOneMore(key, kept, sources[m]);
      if !HasKey(key, kept, key(sources[m])) { assert forall i :: 0 <= i < |kept| ==> key(kept[i]) != key(sources[m]); }
    }
  }

  // ---- counting evidence

  function FamilyOf(s: Source): Family { s.family }

  function DomainOf(s: Source): string { s.domain }

  function Values<V>(f: Source -> V, sources: seq<Source>): set<V> { set s | s in sources :: f(s) }

  function Domains(sources: seq<Source>): set<string> { Values(DomainOf, sources) - {""} }

  datatype Claims = Claims(allUnits: nat, units: nat, families: nat, domains: nat, primaries: nat,
                           current: nat, currentDomains: nat, currentPrimaries: nat, currentOthers: nat)

  function DatedClaims(sources: seq<Source>, policy: Policy): seq<Source> {
    Filter(IsDated(policy.structuralMax), FirstPerKey(UnitOf, Filter(IsClaim, sources)))
  }

  function IsWithin(max: real): Source -> bool { (s: Source) => s.age.Some? && s.age.value <= max }

  function ClaimsOf(sources: seq<Source>, policy: Policy): Claims {
    var dated := DatedClaims(sources, policy);
    var units := FirstPerKey(UnitOf, dated);
    var current := FirstPerKey(UnitOf, Filter(IsWithin(policy.currentMax), dated));
    Claims(|FirstPerKey(UnitOf, Filter(IsClaim, sources))|, |units|, |Values(FamilyOf, units)|, |Domains(units)|,
           |Filter(IsPrimary, units)|, |current|, |Domains(current)|, |Filter(IsPrimary, current)|, |Filter(IsOther, current)|)
  }

  function FreshIdentities(sources: seq<Source>, policy: Policy): seq<Source> {
    Filter(IsDated(policy.identityMax), Filter(IsIdentity, sources))
  }

  /** The sources that a limited row may lean on: dated claims, and fresh identity records. */
  function ProvenanceSources(sources: seq<Source>, policy: Policy): seq<Source> {
    Filter(IsWithin(policy.limitedPrimaryMax), DatedClaims(sources, policy)) + FreshIdentities(sources, policy)
  }

  datatype Provenance = Provenance(origins: nat, domains: nat, primaries: nat)

  function ProvenanceOf(sources: seq<Source>, policy: Policy): Provenance {
    var units := FirstPerKey(ProvenanceKey, ProvenanceSources(sources, policy));
    Provenance(|Values(OriginOf, units)|, |Domains(units)|,
               |Filter(IsPrimary, Filter(IsWithin(policy.limitedPrimaryMax), DatedClaims(sources, policy)))|)
  }

  // ---- the market object

  datatype Provider = Provider(live: bool, age: Option<real>)
  datatype Market = Market(providers: seq<Provider>, declared: int, conflict: bool)

  function FreshProviders(providers: seq<Provider>, max: real): nat {
    if providers == [] then 0
    else FreshProviders(providers[1..], max)
         + if providers[0].live && providers[0].age.Some? && providers[0].age.value <= max then 1 else 0
  }

  predicate HasStale(providers: seq<Provider>, max: real) {
    exists i :: 0 <= i < |providers| && providers[i].live && !(providers[i].age.Some? && providers[i].age.value <= max)
  }

  function JudgeMarket(market: Option<Market>, valuation: real, policy: Policy): Result<nat> {
    if market.None? then Refused(NoMarket)
    else
      var m := market.value;
      var current := FreshProviders(m.providers, policy.marketMax);
      if HasStale(m.providers, policy.marketMax) then Refused(StaleMarket)
      else if m.declared != current then Refused(WrongProviderCount)
      else if m.conflict then Refused(MarketConflict)
      else if current == 0 && valuation > 3.75 then Refused(ValuationOverCap)
      else Ok(current)
  }

  // ---- judging a record

  datatype Mode = EvidenceQualified | LimitedResearch

  type Factors = map<string, real>

  function Factor(factors: Factors, name: string): real { if name in factors then factors[name] else 0.0 }

  function IsPositive(factors: Factors): string -> bool { (name: string) => Factor(factors, name) > 0.0 }

  function PositiveFactors(factors: Factors, policy: Policy): seq<string> { Filter(IsPositive(factors), policy.sensitive) }

  predicate StrictlyQualified(c: Claims, lineage: bool, policy: Policy) {
    && c.families >= policy.minFamilies && c.domains >= policy.minDomains && c.primaries >= policy.minPrimary
    && (if c.allUnits == 0 then 0.0 else c.units as real / c.allUnits as real) >= policy.minDatedRatio
    && c.current > 0 && lineage
  }

  predicate Supported(c: Claims, policy: Policy) {
    c.current >= policy.minAdvantageUnits && c.currentDomains >= policy.minAdvantageDomains
    && c.currentPrimaries > 0 && c.currentOthers > 0
  }

  function JudgeEvidence(c: Claims, p: Provenance, positive: bool, lineage: bool, policy: Policy): Result<Mode> {
    if positive then
      if !StrictlyQualified(c, lineage, policy) then Refused(NotDiverse)
      else if !Supported(c, policy) then Refused(NoFreshSupport)
      else Ok(EvidenceQualified)
    else if StrictlyQualified(c, lineage, policy) then Ok(EvidenceQualified)
    else if !policy.limitedAllowed then Refused(LimitedForbidden)
    else if p.primaries < policy.limitedMinPrimary then Refused(NoPrimary)
    else if p.origins < policy.limitedMinOrigins || p.domains < policy.limitedMinDomains then Refused(OneOrigin)
    else Ok(LimitedResearch)
  }

  datatype LogicField = Architecture | DependencyGraph | BottleneckOrExpansion | CompanyCapture | Lifecycle | OtherField(text: string)
  datatype LogicState = ThesisBroken | Broken | ThesisImpaired | DestroyedState | Unproven | OtherState(text: string)

  const CLAIM_DRIVEN: set<LogicField> := {Architecture, DependencyGraph, BottleneckOrExpansion, CompanyCapture, Lifecycle}
  const SEVERE: set<LogicState> := {ThesisBroken, Broken, ThesisImpaired, DestroyedState}

  datatype Confidence = LimitedConfidence | OtherConfidence(text: string)

  datatype Logic = Logic(states: map<LogicField, LogicState>, confidence: Confidence, validatedThesis: bool)

  predicate IsSevere(logic: Logic) {
    exists field :: field in CLAIM_DRIVEN && field in logic.states && logic.states[field] in SEVERE
  }

  /** What the judge reads of a record besides its ticker. */
  datatype Dossier = Dossier(sources: Option<seq<Source>>, hasMetrics: bool, logic: Option<Logic>, market: Option<Market>,
                             factors: Factors, valuation: real, lineage: bool)

  datatype Finding = Finding(mode: Mode, positive: seq<string>, claims: Claims, provenance: Provenance, freshMarket: nat)

  function JudgeFrom(claims: Claims, provenance: Provenance, positive: seq<string>, market: Result<nat>, d: Dossier, policy: Policy)
    : Result<Finding>
  {
    if !d.hasMetrics then Refused(NoMetrics)
    else if d.logic.None? then Refused(NoLogic)
    else if IsSevere(d.logic.value) then Refused(SevereThesis)
    else
      var mode := JudgeEvidence(claims, provenance, positive != [], d.lineage, policy);
      if mode.Refused? then Refused(mode.reason)
      else if market.Refused? then Refused(market.reason)
      else Ok(Finding(mode.value, positive, claims, provenance, market.value))
  }

  function Judge(d: Dossier, policy: Policy): Result<Finding> {
    if d.sources.None? then Refused(NoSources)
    else JudgeFrom(ClaimsOf(d.sources.value, policy), ProvenanceOf(d.sources.value, policy), PositiveFactors(d.factors, policy),
                   JudgeMarket(d.market, d.valuation, policy), d, policy)
  }

  ghost predicate HasNoAdvantage(factors: Factors, policy: Policy) {
    forall name :: name in policy.sensitive ==> Factor(factors, name) <= 0.0
  }

  lemma PositiveIffSomeFactor(factors: Factors, policy: Policy)
    ensures PositiveFactors(factors, policy) == [] <==> HasNoAdvantage(factors, policy)
  {
    FilterMembers(IsPositive(factors), policy.sensitive);
    var positive := PositiveFactors(factors, policy);
    if positive != [] { assert positive[0] in positive; }
    if name :| name in policy.sensitive && Factor(factors, name) > 0.0 { assert name in positive; }
  }

  /** The checks in the order in which they are made; each refusal is final. */
  method WeighEvidence(d: Dossier, policy: Policy) returns (result: Result<Finding>)
    ensures result == Judge(d, policy)
    ensures result.Ok? ==> d.logic.Some?
    ensures result.Ok? && result.value.mode.LimitedResearch? ==> HasNoAdvantage(d.factors, policy)
  {
    PositiveIffSomeFactor(d.factors, policy);
    if d.sources.None? { return Refused(NoSources); }
    var claims, provenance := ClaimsOf(d.sources.value, policy), ProvenanceOf(d.sources.value, policy);
    if !d.hasMetrics { return Refused(NoMetrics); }
    var positive := PositiveFactors(d.factors, policy);
    if d.logic.None? { return Refused(NoLogic); }
    if IsSevere(d.logic.value) { return Refused(SevereThesis); }
    var mode: Mode;
    if positive != [] {
      if !StrictlyQualified(claims, d.lineage, policy) { return Refused(NotDiverse); }
      if !Supported(claims, policy) { return Refused(NoFreshSupport); }
      mode := EvidenceQualified;
    } else if StrictlyQualified(claims, d.lineage, policy) {
      mode := EvidenceQualified;
    } else {
      if !policy.limitedAllowed { return Refused(LimitedForbidden); }
      if provenance.primaries < policy.limitedMinPrimary { return Refused(NoPrimary); }
      if provenance.origins < policy.limitedMinOrigins || provenance.domains < policy.limitedMinDomains { return Refused(OneOrigin); }
      mode := LimitedResearch;
    }
    var market := JudgeMarket(d.market, d.valuation, policy);
    if market.Refused? { return Refused(market.reason); }
    result := Ok(Finding(mode, positive, claims, provenance, market.value));
  }

  // ---- sources that are not claims

  /** Market and macro data, and directory and registry records. */
  ghost predicate IsBackground(s: Source) {
    || s.family.OfficialMacro? || s.family.MarketFamily?
    || !(s.claimType.OtherType? || s.claimType.NoType?)
    || !s.sourceId.OtherId?
  }

  ghost predicate AreNotClaims(extra: seq<Source>) {
    forall i :: 0 <= i < |extra| ==> IsBackground(extra[i])
  }

  function Inserted(sources: seq<Source>, at: nat, extra: seq<Source>): seq<Source>
    requires at <= |sources|
  {
    sources[..at] + extra + sources[at..]
  }

  lemma FilterInserted(p: Source -> bool, sources: seq<Source>, at: nat, extra: seq<Source>)
    requires at <= |sources| && forall s :: s in extra ==> !p(s)
    ensures Filter(p, Inserted(sources, at, extra)) == Filter(p, sources)
  {
    var before, after := sources[..at], sources[at..];
    assert before + after == sources;
    FilterSkips(p, before, extra, after);
  }

  /** Identity, market and macro sources, put anywhere in a record, change none of its claim counts. */
  lemma OnlyClaimsAreCounted(sources: seq<Source>, at: nat, extra: seq<Source>, policy: Policy)
    requires at <= |sources| && AreNotClaims(extra)
    ensures DatedClaims(Inserted(sources, at, extra), policy) == DatedClaims(sources, policy)
    ensures ClaimsOf(Inserted(sources, at, extra), policy) == ClaimsOf(sources, policy)
  {
    FilterInserted(IsClaim, sources, at, extra);
  }

  /** A record with a positive sensitive factor gets the same verdict, and the same reason, with or without such sources. */
  lemma NonClaimSourcesCannotAdmitAnAdvantage(d: Dossier, at: nat, extra: seq<Source>, policy: Policy)
    requires d.sources.Some? && at <= |d.sources.value| && AreNotClaims(extra)
    requires PositiveFactors(d.factors, policy) != []
    ensures var after := Judge(d.(sources := Some(Inserted(d.sources.value, at, extra))), policy);
            var before := Judge(d, policy);
            (before.Refused? ==> after == before)
            && (before.Ok? ==> after.Ok? && after.value.(provenance := before.value.provenance) == before.value)
  {
    OnlyClaimsAreCounted(d.sources.value, at, extra, policy);
    var more := d.(sources := Some(Inserted(d.sources.value, at, extra)));
    assert IsSameButSources(d, more);
    PositiveVerdictIsFromClaims(ClaimsOf(d.sources.value, policy), ProvenanceOf(d.sources.value, policy),
                                ProvenanceOf(more.sources.value, policy), PositiveFactors(d.factors, policy),
                                JudgeMarket(d.market, d.valuation, policy), d, more, policy);
  }

  predicate IsSameButSources(a: Dossier, b: Dossier) { b == a.(sources := b.sources) }

  lemma PositiveVerdictIsFromClaims(claims: Claims, p: Provenance, q: Provenance, positive: seq<string>, market: Result<nat>,
                                    d: Dossier, e: Dossier, policy: Policy)
    requires positive != [] && IsSameButSources(d, e)
    ensures var before, after := JudgeFrom(claims, p, positive, market, d, policy), JudgeFrom(claims, q, positive, market, e, policy);
            (before.Refused? ==> after == before)
            && (before.Ok? ==> after.Ok? && after.value.(provenance := before.value.provenance) == before.value)
  {
  }

  lemma MoreProvenanceNeverQualifies(claims: Claims, p: Provenance, q: Provenance, positive: seq<string>, market: Result<nat>,
                                     d: Dossier, e: Dossier, policy: Policy)
    requires IsSameButSources(d, e) && p.origins <= q.origins && p.domains <= q.domains && p.primaries == q.primaries
    ensures var before, after := JudgeFrom(claims, p, positive, market, d, policy), JudgeFrom(claims, q, positive, market, e, policy);
            (before.Ok? ==> after.Ok? && after.value.mode == before.value.mode)
            && (after.Ok? && before.Refused? ==> after.value.mode == LimitedResearch && before.reason == OneOrigin)
  {
  }

  // ---- and without a positive factor they can only help a limited row

  lemma CountsGrow<V>(a: set<V>, b: set<V>)
    requires a <= b
    ensures |a| <= |b|
  {
    var rest := b - a;
    assert b == a + rest;
  }

  lemma ValuesOfUnits<V>(f: Source -> V, sources: seq<Source>)
    requires forall a, b :: ProvenanceKey(a) == ProvenanceKey(b) ==> f(a) == f(b) || ProvenanceKey(a).None?
    ensures Values(f, FirstPerKey(ProvenanceKey, sources)) == set s | s in sources && s.domain != "" :: f(s)
  {
    EveryKeyOnce(ProvenanceKey, sources);
    var units := FirstPerKey(ProvenanceKey, sources);
    forall s | s in sources && s.domain != "" ensures f(s) in Values(f, units) {
      var i :| 0 <= i < |sources| && sources[i] == s;
      assert HasKey(ProvenanceKey, sources, ProvenanceKey(s));
      assert HasKey(ProvenanceKey, units, ProvenanceKey(s));
      var j :| 0 <= j < |units| && ProvenanceKey(units[j]) == ProvenanceKey(s);
      assert f(units[j]) == f(s);
    }
    forall s | s in units ensures exists t :: t in sources && t.domain != "" && f(t) == f(s) {
      var i :| 0 <= i < |units| && units[i] == s;
      assert HasKey(ProvenanceKey, units, ProvenanceKey(s));
      var j :| 0 <= j < |sources| && ProvenanceKey(sources[j]) == ProvenanceKey(s);
      assert f(sources[j]) == f(s);
    }
  }

  lemma ProvenanceGrows(sources: seq<Source>, at: nat, extra: seq<Source>, policy: Policy)
    requires at <= |sources| && AreNotClaims(extra)
    ensures var before, after := ProvenanceOf(sources, policy), ProvenanceOf(Inserted(sources, at, extra), policy);
            before.origins <= after.origins && before.domains <= after.domains && before.primaries == after.primaries
  {
    var old', new' := ProvenanceSources(sources, policy), ProvenanceSources(Inserted(sources, at, extra), policy);
    OnlyClaimsAreCounted(sources, at, extra, policy);
    forall s | s in old' ensures s in new' { IdentitiesStay(sources, at, extra, policy, s); }
    ValuesOfUnits(OriginOf, old');
    ValuesOfUnits(OriginOf, new');
    ValuesOfUnits(DomainOf, old');
    ValuesOfUnits(DomainOf, new');
    CountsGrow(Values(OriginOf, FirstPerKey(ProvenanceKey, old')), Values(OriginOf, FirstPerKey(ProvenanceKey, new')));
    CountsGrow(Domains(FirstPerKey(ProvenanceKey, old')), Domains(FirstPerKey(ProvenanceKey, new')));
  }

  lemma FreshIdentityMembers(sources: seq<Source>, policy: Policy)
    ensures forall s :: s in FreshIdentities(sources, policy) <==> s in sources && IsIdentity(s) && IsDated(policy.identityMax)(s)
  {
    FilterMembers(IsIdentity, sources);
    FilterMembers(IsDated(policy.identityMax), Filter(IsIdentity, sources));
  }

  lemma InsertedKeepsMembers(sources: seq<Source>, at: nat, extra: seq<Source>, s: Source)
    requires at <= |sources| && s in sources
    ensures s in Inserted(sources, at, extra)
  {
    assert sources == sources[..at] + sources[at..];
  }

  lemma IdentitiesStay(sources: seq<Source>, at: nat, extra: seq<Source>, policy: Policy, s: Source)
    requires at <= |sources| && AreNotClaims(extra) && s in ProvenanceSources(sources, policy)
    ensures s in ProvenanceSources(Inserted(sources, at, extra), policy)
  {
    OnlyClaimsAreCounted(sources, at, extra, policy);
    if s in FreshIdentities(sources, policy) {
      FreshIdentityMembers(sources, policy);
      InsertedKeepsMembers(sources, at, extra, s);
      FreshIdentityMembers(Inserted(sources, at, extra), policy);
    }
  }

  /** An admitted record stays admitted in the same mode, and no record becomes evidence-qualified. */
  lemma NonClaimSourcesNeverQualify(d: Dossier, at: nat, extra: seq<Source>, policy: Policy)
    requires d.sources.Some? && at <= |d.sources.value| && AreNotClaims(extra)
    ensures var after := Judge(d.(sources := Some(Inserted(d.sources.value, at, extra))), policy);
            var before := Judge(d, policy);
            (before.Ok? ==> after.Ok? && after.value.mode == before.value.mode)
            && (after.Ok? && before.Refused? ==> after.value.mode == LimitedResearch && before.reason == OneOrigin)
  {
    OnlyClaimsAreCounted(d.sources.value, at, extra, policy);
    ProvenanceGrows(d.sources.value, at, extra, policy);
    var more := d.(sources := Some(Inserted(d.sources.value, at, extra)));
    assert IsSameButSources(d, more);
    MoreProvenanceNeverQualifies(ClaimsOf(d.sources.value, policy), ProvenanceOf(d.sources.value, policy),
                                 ProvenanceOf(more.sources.value, policy), PositiveFactors(d.factors, policy),
                                 JudgeMarket(d.market, d.valuation, policy), d, more, policy);
  }

  /** What an admitted record has. */
  lemma AdmittedRecord(d: Dossier, policy: Policy)
    requires Judge(d, policy).Ok?
    ensures var f := Judge(d, policy).value;
            (f.mode == LimitedResearch ==> HasNoAdvantage(d.factors, policy))
            && (!HasNoAdvantage(d.factors, policy) ==>
                  d.lineage && f.claims.currentPrimaries > 0 && f.claims.currentOthers > 0
                  && f.claims.families >= policy.minFamilies && f.claims.domains >= policy.minDomains)
  {
    PositiveIffSomeFactor(d.factors, policy);
    AdmittedFrom(ClaimsOf(d.sources.value, policy), ProvenanceOf(d.sources.value, policy), PositiveFactors(d.factors, policy),
                 JudgeMarket(d.market, d.valuation, policy), d, policy);
  }

  lemma AdmittedFrom(claims: Claims, p: Provenance, positive: seq<string>, market: Result<nat>, d: Dossier, policy: Policy)
    requires JudgeFrom(claims, p, positive, market, d, policy).Ok?
    ensures var f := JudgeFrom(claims, p, positive, market, d, policy).value;
            f.claims == claims && f.provenance == p && f.positive == positive
            && (f.mode == LimitedResearch ==> positive == [])
            && (positive != [] ==> d.lineage && claims.currentPrimaries > 0 && claims.currentOthers > 0
                                   && claims.families >= policy.minFamilies && claims.domains >= policy.minDomains)
  {
  }

  // ---- the first source of a unit hides the later ones

  /** Position `n` holds the first source of its key. */
  ghost predicate IsFirstOfKey<K(!new)>(key: Source -> Option<K>, sources: seq<Source>, n: nat) {
    n < |sources| && key(sources[n]).Some? && forall m :: 0 <= m < n ==> key(sources[m]) != key(sources[n])
  }

  lemma {:induction false} KeptIsFirst<K(!new)>(key: Source -> Option<K>, sources: seq<Source>, s: Source) returns (n: nat)
    requires s in FirstPerKey(key, sources)
    ensures IsFirstOfKey(key, sources, n) && sources[n] == s
  {
    var m := |sources| - 1;
    var kept := FirstPerKey(key, sources[..m]);
    if s in kept {
      n := KeptIsFirst(key, sources[..m], s);
      assert forall i :: 0 <= i < m ==> sources[..m][i] == sources[i];
    } else {
      n := m;
      EveryKeyOnce(key, sources[..m]);
      forall i | 0 <= i < m ensures key(sources[i]) != key(sources[m]) {
        assert key(sources[..m][i]) == key(sources[m]) ==> HasKey(key, sources[..m], key(sources[m]));
      }
    }
  }

  lemma {:induction false} FirstIsKept<K(!new)>(key: Source -> Option<K>, sources: seq<Source>, n: nat)
    requires IsFirstOfKey(key, sources, n)
    ensures sources[n] in FirstPerKey(key, sources)
  {
    var m := |sources| - 1;
    if n < m {
      assert forall i :: 0 <= i < m ==> sources[..m][i] == sources[i];
      FirstIsKept(key, sources[..m], n);
    } else {
      EveryKeyOnce(key, sources[..m]);
      assert forall i :: 0 <= i < m ==> key(sources[..m][i]) == key(sources[i]) != key(sources[m]);
    }
  }

  /** What is kept: exactly the first source of each key. */
  lemma KeptIffFirst<K(!new)>(key: Source -> Option<K>, sources: seq<Source>, s: Source)
    ensures s in FirstPerKey(key, sources) <==> exists n: nat :: IsFirstOfKey(key, sources, n) && sources[n] == s
  {
    if s in FirstPerKey(key, sources) { var n := KeptIsFirst(key, sources, s); }
    if n: nat :| IsFirstOfKey(key, sources, n) && sources[n] == s { FirstIsKept(key, sources, n); }
  }

  function ClaimSources(sources: seq<Source>): seq<Source> { Filter(IsClaim, sources) }

  /** For every record: a source is a dated claim exactly when it is the first claim source of its unit and is dated itself. */
  lemma DatedIffFirstAndDated(sources: seq<Source>, policy: Policy, s: Source)
    ensures s in DatedClaims(sources, policy) <==>
            IsDated(policy.structuralMax)(s)
            && exists n: nat :: IsFirstOfKey(UnitOf, ClaimSources(sources), n) && ClaimSources(sources)[n] == s
  {
    FilterMembers(IsDated(policy.structuralMax), FirstPerKey(UnitOf, ClaimSources(sources)));
    KeptIffFirst(UnitOf, ClaimSources(sources), s);
  }

  /** A dated claim source of some unit. */
  ghost predicate IsDatedClaim(sources: seq<Source>, policy: Policy, s: Source) {
    s in ClaimSources(sources) && UnitOf(s).Some? && IsDated(policy.structuralMax)(s)
  }

  lemma {:induction false} FirstExists<K(!new)>(key: Source -> Option<K>, sources: seq<Source>, s: Source) returns (n: nat)
    requires s in sources && key(s).Some?
    ensures IsFirstOfKey(key, sources, n) && key(sources[n]) == key(s)
  {
    var m := |sources| - 1;
    assert forall i :: 0 <= i < m ==> sources[..m][i] == sources[i];
    if i :| 0 <= i < m && key(sources[i]) == key(s) {
      assert sources[..m][i] in sources[..m];
      n := FirstExists(key, sources[..m], sources[i]);
    } else {
      var i :| 0 <= i < |sources| && sources[i] == s;
      n := m;
    }
  }

  /** The unit of `s` is counted, by a source that may stand for `s`. */
  ghost predicate IsRepresented(sources: seq<Source>, policy: Policy, s: Source, standsFor: (Source, Source) -> bool) {
    exists t :: t in DatedClaims(sources, policy) && UnitOf(t) == UnitOf(s) && standsFor(t, s)
  }

  /** A condition on the list of sources: the first claim source of each unit is dated and stands for every dated one of the unit. */
  ghost predicate FirstsStandForAll(sources: seq<Source>, policy: Policy, standsFor: (Source, Source) -> bool) {
    forall n: nat, s | IsFirstOfKey(UnitOf, ClaimSources(sources), n) && IsDatedClaim(sources, policy, s) ::
      UnitOf(ClaimSources(sources)[n]) == UnitOf(s) ==>
        IsDated(policy.structuralMax)(ClaimSources(sources)[n]) && standsFor(ClaimSources(sources)[n], s)
  }

  lemma RepresentedByTheFirst(sources: seq<Source>, policy: Policy, s: Source, n: nat, standsFor: (Source, Source) -> bool)
    requires IsDatedClaim(sources, policy, s)
    requires IsFirstOfKey(UnitOf, ClaimSources(sources), n) && UnitOf(ClaimSources(sources)[n]) == UnitOf(s)
    ensures IsRepresented(sources, policy, s, standsFor) <==>
            IsDated(policy.structuralMax)(ClaimSources(sources)[n]) && standsFor(ClaimSources(sources)[n], s)
  {
    var claims := ClaimSources(sources);
    if IsRepresented(sources, policy, s, standsFor) {
      var t :| t in DatedClaims(sources, policy) && UnitOf(t) == UnitOf(s) && standsFor(t, s);
      DatedIffFirstAndDated(sources, policy, t);
      var k: nat :| IsFirstOfKey(UnitOf, claims, k) && claims[k] == t;
      assert !(k < n) && !(n < k);
    }
    DatedIffFirstAndDated(sources, policy, claims[n]);
  }

  lemma AllRepresentedIff(sources: seq<Source>, policy: Policy, standsFor: (Source, Source) -> bool)
    ensures (forall s :: IsDatedClaim(sources, policy, s) ==> IsRepresented(sources, policy, s, standsFor))
            <==> FirstsStandForAll(sources, policy, standsFor)
  {
    var claims := ClaimSources(sources);
    forall n: nat, s | IsFirstOfKey(UnitOf, claims, n) && IsDatedClaim(sources, policy, s) && UnitOf(claims[n]) == UnitOf(s)
      ensures IsRepresented(sources, policy, s, standsFor) <==> IsDated(policy.structuralMax)(claims[n]) && standsFor(claims[n], s)
    {
      RepresentedByTheFirst(sources, policy, s, n, standsFor);
    }
    forall s | IsDatedClaim(sources, policy, s)
      ensures exists n: nat :: IsFirstOfKey(UnitOf, claims, n) && UnitOf(claims[n]) == UnitOf(s)
    {
      var n := FirstExists(UnitOf, claims, s);
    }
  }

  predicate IsAny(t: Source, s: Source) { true }

  predicate IsNoOlder(t: Source, s: Source) { t.age.Some? && s.age.Some? && t.age.value <= s.age.value }

  /** Every unit with a dated claim source is counted exactly when the first claim source of each such unit is dated. */
  lemma DatedUnitsAreCountedIff(sources: seq<Source>, policy: Policy)
    ensures (forall s :: IsDatedClaim(sources, policy, s) ==> HasKey(UnitOf, DatedClaims(sources, policy), UnitOf(s)))
            <==> FirstsStandForAll(sources, policy, IsAny)
  {
    AllRepresentedIff(sources, policy, IsAny);
    var dated := DatedClaims(sources, policy);
    forall s ensures HasKey(UnitOf, dated, UnitOf(s)) <==> IsRepresented(sources, policy, s, IsAny) {
      if t :| t in dated && UnitOf(t) == UnitOf(s) { var i :| 0 <= i < |dated| && dated[i] == t; }
    }
  }

  /** The latest dated source of every unit is the one selected exactly when the first claim source of each such unit is dated and no
      dated claim source of the unit is younger. */
  lemma LatestIsSelectedIff(sources: seq<Source>, policy: Policy)
    ensures (forall s :: IsDatedClaim(sources, policy, s) ==>
               exists t :: t in DatedClaims(sources, policy) && UnitOf(t) == UnitOf(s)
                           && t.age.Some? && s.age.Some? && t.age.value <= s.age.value)
            <==> FirstsStandForAll(sources, policy, IsNoOlder)
  {
    AllRepresentedIff(sources, policy, IsNoOlder);
    forall s ensures IsRepresented(sources, policy, s, IsNoOlder) <==>
                     exists t :: t in DatedClaims(sources, policy) && UnitOf(t) == UnitOf(s) && IsNoOlder(t, s) {}
  }

  lemma RepeatedUnitIsDropped(claims: seq<Source>, s: Source)
    requires HasKey(UnitOf, claims, UnitOf(s))
    ensures FirstPerKey(UnitOf, claims + [s]) == FirstPerKey(UnitOf, claims)
  {
    EveryKeyOnce(UnitOf, claims);
    assert (claims + [s])[..|claims|] == claims;
  }

  lemma FilterAfterOneMore(sources: seq<Source>, s: Source)
    ensures Filter(IsClaim, sources + [s]) == if IsClaim(s) then Filter(IsClaim, sources) + [s] else Filter(IsClaim, sources)
  {
    FilterAppend(IsClaim, sources, [s]);
    FilterOne(IsClaim, s);
  }

  /** A later source of a unit is never looked at. */
  lemma LaterSourceOfUnitIsIgnored(sources: seq<Source>, s: Source, policy: Policy)
    requires HasKey(UnitOf, Filter(IsClaim, sources), UnitOf(s))
    ensures ClaimsOf(sources + [s], policy) == ClaimsOf(sources, policy)
    ensures DatedClaims(sources + [s], policy) == DatedClaims(sources, policy)
  {
    FilterAfterOneMore(sources, s);
    RepeatedUnitIsDropped(Filter(IsClaim, sources), s);
  }

  lemma PairOf(a: Source, b: Source)
    ensures [a] + [b] == [a, b]
  {
  }

  /** So the order of a record's sources matters: a fresh filing counts before a stale one of its unit, and not after it. */
  lemma SourceOrderMatters(newer: Source, stale: Source, policy: Policy)
    requires IsClaim(newer) && IsClaim(stale) && UnitOf(newer) == UnitOf(stale) != None
    requires IsDated(policy.structuralMax)(newer) && !IsDated(policy.structuralMax)(stale)
    ensures DatedClaims([newer, stale], policy) == [newer]
    ensures DatedClaims([stale, newer], policy) == []
  {
    PairOf(newer, stale);
    PairOf(stale, newer);
    OneClaim(newer);
    OneClaim(stale);
    FilterOne(IsDated(policy.structuralMax), newer);
    FilterOne(IsDated(policy.structuralMax), stale);
    LaterSourceOfUnitIsIgnored([newer], stale, policy);
    LaterSourceOfUnitIsIgnored([stale], newer, policy);
  }

  /** Such filings exist. */
  lemma StaleFilingHidesAFreshOne(policy: Policy)
    requires 1.0 <= policy.structuralMax < 900.0
    ensures exists newer: Source, stale: Source ::
              DatedClaims([newer, stale], policy) == [newer] && DatedClaims([stale, newer], policy) == []
  {
    var stale := Source(OtherFamily("news"), "a.com", OtherType("order"), OtherId("a"), false, true, Some(900.0));
    var newer := stale.(age := Some(1.0));
    SourceOrderMatters(newer, stale, policy);
  }

  lemma OneClaim(s: Source)
    requires IsClaim(s) && UnitOf(s).Some?
    ensures Filter(IsClaim, [s]) == [s] && FirstPerKey(UnitOf, [s]) == [s]
    ensures HasKey(UnitOf, [s], UnitOf(s))
  {
    assert [s][1..] == [] && [s][..0] == [];
    assert UnitOf([s][0]) == UnitOf(s);
  }

  // ---- records and bundles

  datatype Code = IndependentCorroboration | LimitedCandidate | PortfolioPolicy | EmptyCode | OtherCode(text: string)

  function Withdrawn(states: map<LogicField, LogicState>): map<LogicField, LogicState> {
    map field | field in states.Keys + CLAIM_DRIVEN :: if field in CLAIM_DRIVEN then Unproven else states[field]
  }

  /** A limited row loses its states and its confidence; a qualified one says whether it carries a validated thesis. */
  function LogicAfter(logic: Logic, mode: Mode, positive: bool): Logic {
    if mode.LimitedResearch? then Logic(Withdrawn(logic.states), LimitedConfidence, false) else logic.(validatedThesis := positive)
  }

  function MissingAfter(missing: set<Code>, mode: Mode): set<Code> {
    if mode.LimitedResearch? then missing - {EmptyCode, PortfolioPolicy} + {IndependentCorroboration, LimitedCandidate} else missing
  }

  datatype TopRow = TopRow(ticker: string, rank: int, factors: Factors, valuation: real)

  /** One row of the source audit, which its validation rewrites. */
  class AuditRecord {
    const ticker: string
    const sources: Option<seq<Source>>
    const hasMetrics: bool
    const market: Option<Market>
    var rank: int
    var logic: Option<Logic>
    var eligibleForHigh: bool
    var missing: set<Code>
    var mode: Option<Mode>
    var finding: Option<Finding>

    constructor (ticker: string, sources: Option<seq<Source>>, hasMetrics: bool, market: Option<Market>, logic: Option<Logic>,
                 eligibleForHigh: bool, missing: set<Code>)
      ensures this.ticker == ticker && this.sources == sources && this.hasMetrics == hasMetrics && this.market == market
      ensures this.logic == logic && this.eligibleForHigh == eligibleForHigh && this.missing == missing
    {
      this.ticker, this.sources, this.hasMetrics, this.market := ticker, sources, hasMetrics, market;
      this.logic, this.eligibleForHigh, this.missing := logic, eligibleForHigh, missing;
      rank, mode, finding := 0, None, None;
    }

    function DossierWith(row: TopRow, lineage: bool): Dossier
      reads this`logic
    {
      Dossier(sources, hasMetrics, logic, market, row.factors, row.valuation, lineage)
    }

    function Verdict(row: TopRow, lineage: bool, policy: Policy): Result<Finding>
      reads this`logic
    {
      Judge(DossierWith(row, lineage), policy)
    }

    /** Writes an admitted finding into the record. */
    method Rewrite(row: TopRow, f: Finding)
      requires logic.Some?
      modifies this
      ensures rank == row.rank && finding == Some(f) && mode == Some(f.mode)
      ensures eligibleForHigh == (old(eligibleForHigh) && f.mode.EvidenceQualified?)
      ensures missing == MissingAfter(old(missing), f.mode)
      ensures logic == Some(LogicAfter(old(logic.value), f.mode, f.positive != []))
    {
      rank, finding, mode := row.rank, Some(f), Some(f.mode);
      missing := MissingAfter(missing, f.mode);
      logic := Some(LogicAfter(logic.value, f.mode, f.positive != []));
      if f.mode.LimitedResearch? { eligibleForHigh := false; }
    }

    /** Judges the record and, when it is admitted, rewrites it. */
    method ValidateEvidence(row: TopRow, lineage: bool, policy: Policy) returns (result: Result<Finding>)
      requires ticker == row.ticker
      modifies this
      ensures result == old(Verdict(row, lineage, policy))
      ensures result.Ok? ==> IsValidated(row, policy) && finding == Some(result.value)
      ensures result.Ok? ==> eligibleForHigh == (old(eligibleForHigh) && result.value.mode.EvidenceQualified?)
      ensures result.Ok? ==>
                && old(logic).Some? && missing == MissingAfter(old(missing), result.value.mode)
                && logic == Some(LogicAfter(old(logic.value), result.value.mode, result.value.positive != []))
    {
      result := WeighEvidence(DossierWith(row, lineage), policy);
      if result.Ok? { Rewrite(row, result.value); }
    }

    /** What every validated row has. */
    ghost predicate IsValidated(row: TopRow, policy: Policy)
      reads this
    {
      && ticker == row.ticker && rank == row.rank
      && finding.Some? && mode == Some(finding.value.mode)
      && (mode == Some(LimitedResearch) ==> !eligibleForHigh && HasNoAdvantage(row.factors, policy))
    }
  }

  /** Twenty rows with distinct tickers, ranked in their order. */
  predicate IsFinalOrder(top: seq<TopRow>) {
    && |top| == 20
    && (forall i :: 0 <= i < |top| ==> top[i].ticker != "" && top[i].rank == i + 1)
    && (forall i, j :: 0 <= i < j < |top| ==> top[i].ticker != top[j].ticker)
  }

  predicate AreUnique(tickers: seq<string>) {
    (forall i :: 0 <= i < |tickers| ==> tickers[i] != "") && forall i, j :: 0 <= i < j < |tickers| ==> tickers[i] != tickers[j]
  }

  function Tickers(records: seq<AuditRecord>): seq<string> { seq(|records|, i requires 0 <= i < |records| => records[i].ticker) }

  predicate IsGood(verdict: Result<Finding>) { verdict.Ok? && HasTwoOrigins(Some(verdict.value)) }

  predicate HasTwoOrigins(finding: Option<Finding>) {
    finding.Some? && finding.value.provenance.origins >= 2 && finding.value.provenance.domains >= 2
  }

  ghost predicate IsGoodFor(r: AuditRecord, row: TopRow, lineage: string -> bool, policy: Policy)
    reads r`logic
  {
    IsGood(r.Verdict(row, lineage(row.ticker), policy))
  }

  method ValidateRow(record: AuditRecord, row: TopRow, lineage: string -> bool, policy: Policy) returns (refusal: Option<Reason>)
    requires record.ticker == row.ticker
    modifies record
    ensures refusal.Some? ==> !old(IsGoodFor(record, row, lineage, policy))
    ensures refusal.None? ==> record.IsValidated(row, policy) && (old(IsGoodFor(record, row, lineage, policy)) <==> HasTwoOrigins(record.finding))
  {
    var verdict := record.ValidateEvidence(row, lineage(row.ticker), policy);
    refusal := if verdict.Refused? then Some(verdict.reason) else None;
  }

  /** Rows are validated in final order; the first refusal ends the bundle. */
  method ValidateInOrder(top: seq<TopRow>, ordered: seq<AuditRecord>, lineage: string -> bool, policy: Policy) returns (refusal: Option<Reason>)
    requires IsFinalOrder(top) && |ordered| == |top|
    requires forall k :: 0 <= k < |top| ==> ordered[k].ticker == top[k].ticker
    modifies set r | r in ordered
    ensures refusal.Some? ==>
              exists k :: 0 <= k < |top| && !old(IsGoodFor(ordered[k], top[k], lineage, policy))
    ensures refusal.None? ==>
              forall k :: 0 <= k < |top| ==>
                ordered[k].IsValidated(top[k], policy)
                && (old(IsGoodFor(ordered[k], top[k], lineage, policy)) <==> HasTwoOrigins(ordered[k].finding))
  {
    assert forall i, j :: 0 <= i < j < |top| ==> ordered[i].ticker != ordered[j].ticker;
    for k := 0 to |top|
      invariant forall j :: k <= j < |top| ==> ordered[j].logic == old(ordered[j].logic)
      invariant forall j :: 0 <= j < k ==>
                  ordered[j].IsValidated(top[j], policy)
                  && (old(IsGoodFor(ordered[j], top[j], lineage, policy)) <==> HasTwoOrigins(ordered[j].finding))
    {
      assert IsGoodFor(ordered[k], top[k], lineage, policy) == old(IsGoodFor(ordered[k], top[k], lineage, policy));
      var refused := ValidateRow(ordered[k], top[k], lineage, policy);
      if refused.Some? { return refused; }
      forall j | 0 <= j < |top| && j != k ensures ordered[j] != ordered[k] {}
    }
    refusal := None;
  }

  /** The records by ticker, in the order of the final rows. */
  method InFinalOrder(top: seq<TopRow>, records: seq<AuditRecord>) returns (ordered: Option<seq<AuditRecord>>)
    ensures ordered.Some? <==> (set r | r in records :: r.ticker) == (set row | row in top :: row.ticker)
    ensures ordered.Some? ==>
              && |ordered.value| == |top|
              && (forall r :: r in ordered.value ==> r in records)
              && (forall k :: 0 <= k < |top| ==> ordered.value[k].ticker == top[k].ticker)
  {
    var byTicker: map<string, AuditRecord> := map[];
    for n := 0 to |records|
      invariant forall t :: t in byTicker ==> byTicker[t] in records && byTicker[t].ticker == t
      invariant byTicker.Keys == set r | r in records[..n] :: r.ticker
    {
      assert records[..n + 1] == records[..n] + [records[n]];
      byTicker := byTicker[records[n].ticker := records[n]];
    }
    assert records[..|records|] == records;
    if byTicker.Keys != set row | row in top :: row.ticker { return None; }
    var found: seq<AuditRecord> := [];
    for k := 0 to |top|
      invariant |found| == k
      invariant forall r :: r in found ==> r in records
      invariant forall j :: 0 <= j < k ==> found[j].ticker == top[j].ticker
    {
      assert top[k] in top;
      found := found + [byTicker[top[k].ticker]];
    }
    ordered := Some(found);
  }

  /** Each record is admitted for the final row of its ticker, with two provenance origins and domains. */
  ghost predicate AreAllGood(top: seq<TopRow>, records: seq<AuditRecord>, lineage: string -> bool, policy: Policy)
    reads set r | r in records
  {
    forall r, row :: r in records && row in top && r.ticker == row.ticker ==> IsGoodFor(r, row, lineage, policy)
  }

  lemma EveryPairIsInOrder(top: seq<TopRow>, records: seq<AuditRecord>, ordered: seq<AuditRecord>, lineage: string -> bool, policy: Policy)
    requires IsFinalOrder(top) && AreUnique(Tickers(records)) && |ordered| == |top|
    requires forall r :: r in ordered ==> r in records
    requires forall k :: 0 <= k < |top| ==> ordered[k].ticker == top[k].ticker
    ensures AreAllGood(top, records, lineage, policy) <==> forall k :: 0 <= k < |top| ==> IsGoodFor(ordered[k], top[k], lineage, policy)
  {
    forall r, row | r in records && row in top && r.ticker == row.ticker
      ensures exists k :: 0 <= k < |top| && r == ordered[k] && row == top[k]
    {
      var k :| 0 <= k < |top| && top[k] == row;
      assert ordered[k] in ordered;
      var i :| 0 <= i < |records| && records[i] == r;
      var j :| 0 <= j < |records| && records[j] == ordered[k];
      assert Tickers(records)[i] == Tickers(records)[j];
    }
    assert forall k :: 0 <= k < |top| ==> ordered[k] in ordered && top[k] in top;
  }

  /** The rows one by one, then the checks of the bundle as a whole; the last of these never fails after the others. */
  method AdmitInOrder(top: seq<TopRow>, ordered: seq<AuditRecord>, lineage: string -> bool, hasPortfolio: bool, policy: Policy)
    returns (refusal: Option<Reason>)
    requires IsFinalOrder(top) && |ordered| == |top|
    requires forall k :: 0 <= k < |top| ==> ordered[k].ticker == top[k].ticker
    modifies set r | r in ordered
    ensures refusal.None? <==> hasPortfolio && forall k :: 0 <= k < |top| ==> old(IsGoodFor(ordered[k], top[k], lineage, policy))
    ensures refusal.None? ==> forall k :: 0 <= k < |top| ==> ordered[k].IsValidated(top[k], policy) && HasTwoOrigins(ordered[k].finding)
  {
    refusal := ValidateInOrder(top, ordered, lineage, policy);
    if refusal.Some? { return; }
    if !hasPortfolio { return Some(NoPortfolio); }
    if exists k :: 0 <= k < |ordered| && !HasTwoOrigins(ordered[k].finding) { return Some(SingleOriginRow); }
    if exists k :: 0 <= k < |ordered| && ordered[k].mode == Some(LimitedResearch) && ordered[k].eligibleForHigh {
      return Some(LimitedIsHigh);
    }
  }

  /** An admitted bundle: twenty rows in final order, each qualified or limited, each with two provenance origins and domains, and
      no limited row with a positive sensitive factor or high-confidence eligibility. */
  method NormalizeAndValidate(top: seq<TopRow>, records: seq<AuditRecord>, lineage: string -> bool, sameRun: bool, hasPortfolio: bool,
                              policy: Policy)
    returns (result: Result<seq<AuditRecord>>)
    modifies set r | r in records
    ensures result.Ok? ==> |result.value| == |top| == |records| == 20 && forall r :: r in result.value ==> r in records
    ensures result.Ok? ==>
              forall k :: 0 <= k < 20 ==> result.value[k].IsValidated(top[k], policy) && HasTwoOrigins(result.value[k].finding)
    ensures result.Ok? <==>
              && sameRun && hasPortfolio && IsFinalOrder(top) && |records| == 20 && AreUnique(Tickers(records))
              && (set r | r in records :: r.ticker) == (set row | row in top :: row.ticker)
              && old(AreAllGood(top, records, lineage, policy))
  {
    if !sameRun { return Refused(NotFresh); }
    if !IsFinalOrder(top) { return Refused(BadOrder); }
    if |records| != 20 || !AreUnique(Tickers(records)) { return Refused(BadMembership); }
    var found := InFinalOrder(top, records);
    if found.None? { return Refused(BadMembership); }
    var ordered := found.value;
    EveryPairIsInOrder(top, records, ordered, lineage, policy);
    var refusal := AdmitInOrder(top, ordered, lineage, hasPortfolio, policy);
    result := if refusal.Some? then Refused(refusal.value) else Ok(ordered);
  }
}
