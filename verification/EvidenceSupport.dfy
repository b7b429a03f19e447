/**
 What an admitted record has, read off the list of its sources: which sources speak for the company,
 how old they are, who published them, and what that makes of the record.
 */
module EvidenceSupport {
  import opened Ordering
  import opened Wrappers
  import opened EvidenceAdmission

  // ---- sources

  /** A source about the company itself: no market, macro, registry or listing data. */
  ghost predicate IsCompanyClaim(s: Source) {
    && (s.family.RegulatorFiling? || s.family.IssuerPrimary? || s.family.ExchangeSro? || s.family.OtherFamily?)
    && s.claimType.OtherType? && s.sourceId.OtherId?
  }

  ghost predicate IsFirstHand(s: Source) {
    s.primary || s.family.RegulatorFiling? || s.family.IssuerPrimary? || s.family.ExchangeSro?
  }

  ghost predicate IsIdentityRecord(s: Source) {
    || s.sourceId.SymbolDirectory? || s.sourceId.Gleif?
    || s.claimType.ListingIdentity? || s.claimType.LegalEntityReference? || s.claimType.RegistryObservation?
    || s.claimType.LegalEntityIdentity?
  }

  ghost predicate IsUpTo(s: Source, days: real) { s.https && s.age.Some? && s.age.value <= days }

  lemma KindsOfSources(s: Source)
    ensures IsClaim(s) <==> IsCompanyClaim(s)
    ensures IsPrimary(s) <==> IsFirstHand(s)
    ensures IsIdentity(s) <==> IsIdentityRecord(s)
    ensures IsCompanyClaim(s) ==> !IsIdentityRecord(s)
  {
  }

  /** Two sources come from one publisher: both are symbol directories, registry entries or regulator filings, or else they agree on
      family and domain, or, without a family, on identifier and domain. */
  lemma OnePublisherIff(a: Source, b: Source)
    ensures OriginOf(a) == OriginOf(b) <==>
            match (a.sourceId, b.sourceId)
            case (SymbolDirectory(_), SymbolDirectory(_)) => true
            case (Gleif(_), Gleif(_)) => true
            case (OtherId(i), OtherId(j)) =>
              var regulators := (a.family.RegulatorFiling? || a.domain == "sec.gov", b.family.RegulatorFiling? || b.domain == "sec.gov");
              || regulators == (true, true)
              || (regulators == (false, false) && a.family == b.family && a.domain == b.domain && (a.family.NoFamily? ==> i == j))
            case _ => false
  {
  }

  /** The source is the first claim of its family, domain and type; later ones of the same three are never looked at. */
  ghost predicate Speaks(sources: seq<Source>, n: nat) {
    && n < |sources| && IsCompanyClaim(sources[n]) && sources[n].domain != ""
    && forall m :: 0 <= m < n && IsCompanyClaim(sources[m]) ==>
         !(sources[m].family == sources[n].family && sources[m].domain == sources[n].domain
           && sources[m].claimType == sources[n].claimType)
  }

  ghost function Speakers(sources: seq<Source>): (r: set<nat>)
    ensures forall n :: n in r ==> n < |sources|
  {
    set n: nat | n < |sources| && Speaks(sources, n)
  }

  ghost function Chosen(sources: seq<Source>, q: Source -> bool): (r: set<nat>)
    ensures forall n :: n in r ==> n < |sources|
  {
    set n | n in Speakers(sources) && q(sources[n])
  }

  /** The list keeps exactly the sources at these positions. */
  ghost predicate Lists(list: seq<Source>, sources: seq<Source>, at: set<nat>)
    requires forall n :: n in at ==> n < |sources|
  {
    && |list| == |at|
    && (forall s :: s in list ==> exists n :: n in at && sources[n] == s)
    && (forall n :: n in at ==> sources[n] in list)
  }

  function Units(sources: seq<Source>): seq<Source> { FirstPerKey(UnitOf, Filter(IsClaim, sources)) }

  ghost predicate IsClaimOfUnit(s: Source, of: Source) { IsCompanyClaim(s) && UnitOf(s) == UnitOf(of) }

  lemma EarlierClaimOfUnit(sources: seq<Source>, s: Source)
    ensures HasKey(UnitOf, Filter(IsClaim, sources), UnitOf(s)) <==> exists m :: 0 <= m < |sources| && IsClaimOfUnit(sources[m], s)
  {
    var claims := Filter(IsClaim, sources);
    FilterMembers(IsClaim, sources);
    if HasKey(UnitOf, claims, UnitOf(s)) {
      var i :| 0 <= i < |claims| && UnitOf(claims[i]) == UnitOf(s);
      assert claims[i] in claims;
      var m :| 0 <= m < |sources| && sources[m] == claims[i];
      KindsOfSources(sources[m]);
    }
    if m :| 0 <= m < |sources| && IsClaimOfUnit(sources[m], s) {
      KindsOfSources(sources[m]);
      assert sources[m] in claims;
      var i :| 0 <= i < |claims| && claims[i] == sources[m];
    }
  }

  lemma SpeaksUnlessEarlier(sources: seq<Source>, n: nat)
    requires n < |sources| && IsCompanyClaim(sources[n]) && UnitOf(sources[n]).Some?
    ensures Speaks(sources, n) <==> !exists m :: 0 <= m < |sources[..n]| && IsClaimOfUnit(sources[..n][m], sources[n])
  {
    forall m | 0 <= m < n
      ensures IsClaimOfUnit(sources[..n][m], sources[n]) <==>
              && IsCompanyClaim(sources[m]) && sources[m].family == sources[n].family && sources[m].domain == sources[n].domain
              && sources[m].claimType == sources[n].claimType
    {
    }
  }

  lemma OneMoreSource(sources: seq<Source>, n: nat)
    requires n < |sources|
    ensures Units(sources[..n + 1]) == Units(sources[..n]) + if Speaks(sources, n) then [sources[n]] else []
  {
    var s := sources[n];
    var claims := Filter(IsClaim, sources[..n]);
    assert sources[..n + 1] == sources[..n] + [s];
    FilterAfterOneMore(sources[..n], s);
    EarlierClaimOfUnit(sources[..n], s);
    if IsCompanyClaim(s) && UnitOf(s).Some? { SpeaksUnlessEarlier(sources, n); }
    KindsOfSources(s);
    EveryKeyOnce(UnitOf, claims);
    assert (claims + [s])[..|claims|] == claims;
  }

  lemma OneMoreUnit(sources: seq<Source>, n: nat, q: Source -> bool)
    requires n < |sources|
    ensures Filter(q, Units(sources[..n + 1]))
            == Filter(q, Units(sources[..n])) + if n in Chosen(sources, q) then [sources[n]] else []
  {
    var before := Units(sources[..n]);
    OneMoreSource(sources, n);
    if Speaks(sources, n) {
      FilterAppend(q, before, [sources[n]]);
      FilterOne(q, sources[n]);
    } else {
      assert before + [] == before;
    }
  }

  lemma ListsOneMore(list: seq<Source>, sources: seq<Source>, n: nat, at: set<nat>)
    requires n < |sources| && (forall k :: k in at ==> k < n) && Lists(list, sources, at)
    ensures Lists(list + [sources[n]], sources, at + {n})
  {
    assert n in at + {n};
    forall k | k in at ensures k in at + {n} {}
  }

  ghost function ChosenBelow(sources: seq<Source>, n: nat, q: Source -> bool): (r: set<nat>)
    ensures forall k :: k in r ==> k < |sources| && k < n
  {
    set k | k in Chosen(sources, q) && k < n
  }

  ghost predicate ListsBelow(sources: seq<Source>, n: nat, q: Source -> bool)
    requires n <= |sources|
  {
    Lists(Filter(q, Units(sources[..n])), sources, ChosenBelow(sources, n, q))
  }

  lemma NoneChosenBelow(sources: seq<Source>, q: Source -> bool)
    ensures ListsBelow(sources, 0, q)
  {
    assert Filter(q, Units(sources[..0])) == [] && ChosenBelow(sources, 0, q) == {};
  }

  lemma OneMoreBelow(sources: seq<Source>, n: nat, q: Source -> bool)
    ensures ChosenBelow(sources, n + 1, q) == ChosenBelow(sources, n, q) + if n in Chosen(sources, q) then {n} else {}
  {
  }

  lemma ChosenOneMore(sources: seq<Source>, n: nat, q: Source -> bool, list: seq<Source>, more: seq<Source>)
    requires n < |sources| && Lists(list, sources, ChosenBelow(sources, n, q))
    requires more == list + if n in Chosen(sources, q) then [sources[n]] else []
    ensures Lists(more, sources, ChosenBelow(sources, n + 1, q))
  {
    var before := ChosenBelow(sources, n, q);
    OneMoreBelow(sources, n, q);
    if n in Chosen(sources, q) {
      ListsOneMore(list, sources, n, before);
    } else {
      assert list + [] == list && before + {} == before;
    }
  }

  lemma OneMoreListed(sources: seq<Source>, n: nat, q: Source -> bool)
    requires n < |sources| && ListsBelow(sources, n, q)
    ensures ListsBelow(sources, n + 1, q)
  {
    OneMoreUnit(sources, n, q);
    ChosenOneMore(sources, n, q, Filter(q, Units(sources[..n])), Filter(q, Units(sources[..n + 1])));
  }

  lemma {:induction false} ChosenUnits(sources: seq<Source>, n: nat, q: Source -> bool)
    requires n <= |sources|
    ensures ListsBelow(sources, n, q)
  {
    if n == 0 {
      NoneChosenBelow(sources, q);
    } else {
      ChosenUnits(sources, n - 1, q);
      OneMoreListed(sources, n - 1, q);
    }
  }

  /** A condition on the units is a condition on the sources that speak. */
  lemma UnitsAreSpeakers(sources: seq<Source>, q: Source -> bool)
    ensures Lists(Filter(q, Units(sources)), sources, Chosen(sources, q))
  {
    ChosenUnits(sources, |sources|, q);
    assert sources[..|sources|] == sources && ChosenBelow(sources, |sources|, q) == Chosen(sources, q);
  }

  lemma NoUnitAgain(q: Source -> bool, kept: seq<Source>, last: Source)
    requires !HasKey(UnitOf, kept, UnitOf(last))
    ensures !HasKey(UnitOf, Filter(q, kept), UnitOf(last))
  {
    var inner := Filter(q, kept);
    FilterMembers(q, kept);
    forall i | 0 <= i < |inner| ensures UnitOf(inner[i]) != UnitOf(last) {
      assert inner[i] in inner;
      var j :| 0 <= j < |kept| && kept[j] == inner[i];
    }
  }

  lemma UnitsStayOneMore(q: Source -> bool, kept: seq<Source>, last: Source)
    requires FirstPerKey(UnitOf, Filter(q, kept)) == Filter(q, kept)
    requires UnitOf(last).Some? && !HasKey(UnitOf, kept, UnitOf(last))
    ensures FirstPerKey(UnitOf, Filter(q, kept + [last])) == Filter(q, kept + [last])
  {
    NoUnitAgain(q, kept, last);
    FilterAppend(q, kept, [last]);
    FilterOne(q, last);
    var inner := Filter(q, kept);
    assert (inner + [last])[..|inner|] == inner && inner + [] == inner;
  }

  lemma {:induction false} UnitsStay(q: Source -> bool, claims: seq<Source>)
    ensures FirstPerKey(UnitOf, Filter(q, FirstPerKey(UnitOf, claims))) == Filter(q, FirstPerKey(UnitOf, claims))
  {
    if claims != [] {
      var kept, last := FirstPerKey(UnitOf, claims[..|claims| - 1]), claims[|claims| - 1];
      UnitsStay(q, claims[..|claims| - 1]);
      if UnitOf(last).Some? && !HasKey(UnitOf, kept, UnitOf(last)) { UnitsStayOneMore(q, kept, last); }
    }
  }

  function Both(p: Source -> bool, q: Source -> bool): Source -> bool { (s: Source) => p(s) && q(s) }

  lemma {:induction false} FilterBoth(p: Source -> bool, q: Source -> bool, s: seq<Source>)
    ensures Filter(p, Filter(q, s)) == Filter(Both(p, q), s)
  {
    if s != [] {
      FilterBoth(p, q, s[1..]);
      FilterAppend(p, if q(s[0]) then [s[0]] else [], Filter(q, s[1..]));
      FilterOne(p, s[0]);
    }
  }

  lemma ListedValues<V>(f: Source -> V, list: seq<Source>, sources: seq<Source>, at: set<nat>)
    requires (forall n :: n in at ==> n < |sources|) && Lists(list, sources, at)
    ensures Values(f, list) == set n | n in at :: f(sources[n])
  {
    forall n | n in at ensures f(sources[n]) in Values(f, list) { assert sources[n] in list; }
  }

  // ---- what is counted

  /** The sources that speak and have a date in the structural window. */
  ghost function Dated(sources: seq<Source>, policy: Policy): (r: set<nat>)
    ensures forall n :: n in r ==> n < |sources|
  {
    set n | n in Speakers(sources) && IsUpTo(sources[n], policy.structuralMax)
  }

  /** Of those the ones in the current window. */
  ghost function Current(sources: seq<Source>, policy: Policy): (r: set<nat>)
    ensures forall n :: n in r ==> n < |sources|
  {
    set n | n in Dated(sources, policy) && IsUpTo(sources[n], policy.currentMax)
  }

  ghost function FirstHand(sources: seq<Source>, at: set<nat>): set<nat>
    requires forall n :: n in at ==> n < |sources|
  {
    set n | n in at && IsFirstHand(sources[n])
  }

  ghost function FamiliesAt(sources: seq<Source>, at: set<nat>): set<Family>
    requires forall n :: n in at ==> n < |sources|
  {
    set n | n in at :: sources[n].family
  }

  ghost function DomainsAt(sources: seq<Source>, at: set<nat>): set<string>
    requires forall n :: n in at ==> n < |sources|
  {
    set n | n in at :: sources[n].domain
  }

  lemma DatedUnits(sources: seq<Source>, policy: Policy)
    ensures Lists(Units(sources), sources, Speakers(sources))
    ensures DatedClaims(sources, policy) == Filter(IsDated(policy.structuralMax), Units(sources))
    ensures Lists(DatedClaims(sources, policy), sources, Dated(sources, policy))
    ensures FirstPerKey(UnitOf, DatedClaims(sources, policy)) == DatedClaims(sources, policy)
  {
    UnitsAreSpeakers(sources, IsSource);
    FilterAll(IsSource, Units(sources));
    assert Chosen(sources, IsSource) == Speakers(sources);
    UnitsAreSpeakers(sources, IsDated(policy.structuralMax));
    assert Chosen(sources, IsDated(policy.structuralMax)) == Dated(sources, policy);
    UnitsStay(IsDated(policy.structuralMax), Filter(IsClaim, sources));
  }

  predicate IsSource(s: Source) { true }

  lemma CurrentUnits(sources: seq<Source>, policy: Policy)
    ensures var current := Filter(IsWithin(policy.currentMax), DatedClaims(sources, policy));
            Lists(current, sources, Current(sources, policy)) && FirstPerKey(UnitOf, current) == current
  {
    var q := Both(IsWithin(policy.currentMax), IsDated(policy.structuralMax));
    FilterBoth(IsWithin(policy.currentMax), IsDated(policy.structuralMax), Units(sources));
    UnitsAreSpeakers(sources, q);
    assert Chosen(sources, q) == Current(sources, policy);
    UnitsStay(q, Filter(IsClaim, sources));
  }

  lemma FirstHandUnits(sources: seq<Source>, q: Source -> bool)
    ensures |Filter(IsPrimary, Filter(q, Units(sources)))| == |FirstHand(sources, Chosen(sources, q))|
    ensures |Filter(IsOther, Filter(q, Units(sources)))| == |Chosen(sources, q) - FirstHand(sources, Chosen(sources, q))|
  {
    FilterBoth(IsPrimary, q, Units(sources));
    FilterBoth(IsOther, q, Units(sources));
    UnitsAreSpeakers(sources, Both(IsPrimary, q));
    UnitsAreSpeakers(sources, Both(IsOther, q));
    forall s ensures IsPrimary(s) <==> IsFirstHand(s) { KindsOfSources(s); }
    assert Chosen(sources, Both(IsPrimary, q)) == FirstHand(sources, Chosen(sources, q));
    assert Chosen(sources, Both(IsOther, q)) == Chosen(sources, q) - FirstHand(sources, Chosen(sources, q));
  }

  lemma DomainsOfUnits(list: seq<Source>, sources: seq<Source>, at: set<nat>)
    requires (forall n :: n in at ==> n < |sources| && Speaks(sources, n)) && Lists(list, sources, at)
    ensures Domains(list) == DomainsAt(sources, at)
  {
    ListedValues(DomainOf, list, sources, at);
    forall n | n in at ensures DomainOf(sources[n]) == sources[n].domain != "" {}
  }

  lemma FamiliesOfUnits(list: seq<Source>, sources: seq<Source>, at: set<nat>)
    requires (forall n :: n in at ==> n < |sources|) && Lists(list, sources, at)
    ensures Values(FamilyOf, list) == FamiliesAt(sources, at)
  {
    ListedValues(FamilyOf, list, sources, at);
    forall n | n in at ensures FamilyOf(sources[n]) == sources[n].family {}
  }

  /** The parts that the counts are taken of. */
  lemma CountedParts(sources: seq<Source>, policy: Policy)
    ensures var c, dated := ClaimsOf(sources, policy), FirstPerKey(UnitOf, DatedClaims(sources, policy));
            && c.allUnits == |Units(sources)| && c.units == |dated| && c.families == |Values(FamilyOf, dated)|
            && c.domains == |Domains(dated)| && c.primaries == |Filter(IsPrimary, dated)|
    ensures var c := ClaimsOf(sources, policy);
            var current := FirstPerKey(UnitOf, Filter(IsWithin(policy.currentMax), DatedClaims(sources, policy)));
            && c.current == |current| && c.currentDomains == |Domains(current)|
            && c.currentPrimaries == |Filter(IsPrimary, current)| && c.currentOthers == |Filter(IsOther, current)|
  {
  }

  /** What is counted of a record's claims. */
  lemma DatedCounts(sources: seq<Source>, policy: Policy)
    ensures var c, dated := ClaimsOf(sources, policy), Dated(sources, policy);
            && c.allUnits == |Speakers(sources)| && c.units == |dated|
            && c.families == |FamiliesAt(sources, dated)| && c.domains == |DomainsAt(sources, dated)|
            && c.primaries == |FirstHand(sources, dated)|
  {
    var dated := Dated(sources, policy);
    CountedParts(sources, policy);
    DatedUnits(sources, policy);
    FamiliesOfUnits(DatedClaims(sources, policy), sources, dated);
    DomainsOfUnits(DatedClaims(sources, policy), sources, dated);
    assert Chosen(sources, IsDated(policy.structuralMax)) == dated;
    FirstHandUnits(sources, IsDated(policy.structuralMax));
  }

  lemma CurrentFirstHand(sources: seq<Source>, policy: Policy)
    ensures var units, current := Filter(IsWithin(policy.currentMax), DatedClaims(sources, policy)), Current(sources, policy);
            && |Filter(IsPrimary, units)| == |FirstHand(sources, current)|
            && |Filter(IsOther, units)| == |current - FirstHand(sources, current)|
  {
    var q := Both(IsWithin(policy.currentMax), IsDated(policy.structuralMax));
    FilterBoth(IsWithin(policy.currentMax), IsDated(policy.structuralMax), Units(sources));
    assert Chosen(sources, q) == Current(sources, policy);
    FirstHandUnits(sources, q);
  }

  lemma CurrentCounts(sources: seq<Source>, policy: Policy)
    ensures var c, current := ClaimsOf(sources, policy), Current(sources, policy);
            && c.current == |current| && c.currentDomains == |DomainsAt(sources, current)|
            && c.currentPrimaries == |FirstHand(sources, current)| && c.currentOthers == |current - FirstHand(sources, current)|
  {
    CountedParts(sources, policy);
    CurrentUnits(sources, policy);
    CurrentFirstHand(sources, policy);
    DomainsOfUnits(Filter(IsWithin(policy.currentMax), DatedClaims(sources, policy)), sources, Current(sources, policy));
  }

  // ---- where a limited row comes from

  /** A source a limited row may name: a claim that speaks and is recent enough, or a recent identity record. */
  ghost predicate MayBeNamed(sources: seq<Source>, n: nat, policy: Policy) {
    && n < |sources| && sources[n].domain != ""
    && ((n in Dated(sources, policy) && IsUpTo(sources[n], policy.limitedPrimaryMax))
        || (IsIdentityRecord(sources[n]) && IsUpTo(sources[n], policy.identityMax)))
  }

  ghost function Named(sources: seq<Source>, policy: Policy): (r: set<nat>)
    ensures forall n :: n in r ==> n < |sources|
  {
    set n: nat | n < |sources| && MayBeNamed(sources, n, policy)
  }

  ghost function PublishersAt(sources: seq<Source>, at: set<nat>): set<Origin>
    requires forall n :: n in at ==> n < |sources|
  {
    set n | n in at :: OriginOf(sources[n])
  }

  ghost function RecentFirstHand(sources: seq<Source>, policy: Policy): set<nat> {
    set n | n in FirstHand(sources, Dated(sources, policy)) && sources[n].age.value <= policy.limitedPrimaryMax
  }

  lemma RecentClaims(sources: seq<Source>, policy: Policy, s: Source)
    ensures s in Filter(IsWithin(policy.limitedPrimaryMax), DatedClaims(sources, policy)) <==>
            exists n :: n in Dated(sources, policy) && IsUpTo(sources[n], policy.limitedPrimaryMax) && sources[n] == s
  {
    FilterMembers(IsWithin(policy.limitedPrimaryMax), DatedClaims(sources, policy));
    DatedUnits(sources, policy);
  }

  lemma NamedSources(sources: seq<Source>, policy: Policy, s: Source)
    ensures s in ProvenanceSources(sources, policy) && s.domain != "" <==>
            exists n :: n in Named(sources, policy) && sources[n] == s
  {
    RecentClaims(sources, policy, s);
    FreshIdentityMembers(sources, policy);
    KindsOfSources(s);
    if s in FreshIdentities(sources, policy) && s.domain != "" {
      var n :| 0 <= n < |sources| && sources[n] == s;
      assert n in Named(sources, policy);
    }
    if n :| n in Dated(sources, policy) && IsUpTo(sources[n], policy.limitedPrimaryMax) && sources[n] == s && s.domain != "" {
      assert n in Named(sources, policy);
    }
  }

  lemma NamedValues<V>(f: Source -> V, sources: seq<Source>, policy: Policy)
    requires forall a, b :: ProvenanceKey(a) == ProvenanceKey(b) ==> f(a) == f(b) || ProvenanceKey(a).None?
    ensures Values(f, FirstPerKey(ProvenanceKey, ProvenanceSources(sources, policy)))
            == set n | n in Named(sources, policy) :: f(sources[n])
  {
    var all := ProvenanceSources(sources, policy);
    ValuesOfUnits(f, all);
    forall s | s in all && s.domain != "" ensures exists n :: n in Named(sources, policy) && f(sources[n]) == f(s) {
      NamedSources(sources, policy, s);
    }
    forall n | n in Named(sources, policy) ensures sources[n] in all && sources[n].domain != "" {
      NamedSources(sources, policy, sources[n]);
    }
  }

  lemma RecentFirstHandCount(sources: seq<Source>, policy: Policy)
    ensures ProvenanceOf(sources, policy).primaries == |RecentFirstHand(sources, policy)|
  {
    var q := Both(IsWithin(policy.limitedPrimaryMax), IsDated(policy.structuralMax));
    FilterBoth(IsWithin(policy.limitedPrimaryMax), IsDated(policy.structuralMax), Units(sources));
    FirstHandUnits(sources, q);
    RecentAreChosen(sources, policy);
  }

  lemma RecentAreChosen(sources: seq<Source>, policy: Policy)
    ensures FirstHand(sources, Chosen(sources, Both(IsWithin(policy.limitedPrimaryMax), IsDated(policy.structuralMax))))
            == RecentFirstHand(sources, policy)
  {
  }

  lemma PublisherCount(sources: seq<Source>, policy: Policy)
    ensures ProvenanceOf(sources, policy).origins == |PublishersAt(sources, Named(sources, policy))|
  {
    NamedValues(OriginOf, sources, policy);
    var units := FirstPerKey(ProvenanceKey, ProvenanceSources(sources, policy));
    assert Values(OriginOf, units) == PublishersAt(sources, Named(sources, policy));
  }

  lemma NamedDomainCount(sources: seq<Source>, policy: Policy)
    ensures ProvenanceOf(sources, policy).domains == |DomainsAt(sources, Named(sources, policy))|
  {
    NamedValues(DomainOf, sources, policy);
    var units := FirstPerKey(ProvenanceKey, ProvenanceSources(sources, policy));
    var domains := DomainsAt(sources, Named(sources, policy));
    assert Values(DomainOf, units) == domains;
    assert "" !in domains;
    assert Domains(units) == domains;
  }

  /** What is counted of a record's provenance. */
  lemma ProvenanceCounts(sources: seq<Source>, policy: Policy)
    ensures var p, named := ProvenanceOf(sources, policy), Named(sources, policy);
            && p.origins == |PublishersAt(sources, named)| && p.domains == |DomainsAt(sources, named)|
            && p.primaries == |RecentFirstHand(sources, policy)|
  {
    PublisherCount(sources, policy);
    NamedDomainCount(sources, policy);
    RecentFirstHandCount(sources, policy);
  }

  // ---- the market object

  ghost function Live(providers: seq<Provider>): set<nat> { set n: nat | n < |providers| && providers[n].live }

  ghost function Shifted(at: set<nat>): set<nat> { set n | n in at :: n + 1 }

  lemma ShiftedMembers(at: set<nat>)
    ensures forall m: nat :: m in Shifted(at) <==> m > 0 && m - 1 in at
  {
    forall m: nat | m > 0 && m - 1 in at ensures m in Shifted(at) {
      var n := m - 1;
      assert n in at && n + 1 == m;
    }
  }

  lemma {:induction false} ShiftedCount(at: set<nat>)
    ensures |Shifted(at)| == |at|
  {
    ShiftedMembers(at);
    if k :| k in at {
      ShiftedCount(at - {k});
      ShiftedMembers(at - {k});
      assert Shifted(at) == Shifted(at - {k}) + {k + 1};
    } else {
      assert Shifted(at) == {};
    }
  }

  lemma OneMoreProvider(providers: seq<Provider>)
    requires providers != []
    ensures Live(providers) == Shifted(Live(providers[1..])) + if providers[0].live then {0} else {}
  {
    ShiftedMembers(Live(providers[1..]));
    assert forall n: nat :: n in Live(providers[1..]) <==> n + 1 < |providers| && providers[n + 1].live;
    forall m: nat ensures m in Live(providers) <==> m in Shifted(Live(providers[1..])) || (m == 0 && providers[0].live) {
      if m > 0 { assert m - 1 in Live(providers[1..]) <==> m in Live(providers); }
    }
  }

  lemma {:induction false} FreshAreLive(providers: seq<Provider>, max: real)
    requires !HasStale(providers, max)
    ensures FreshProviders(providers, max) == |Live(providers)|
  {
    if providers != [] {
      assert forall i :: 0 <= i < |providers[1..]| ==> providers[1..][i] == providers[i + 1];
      FreshAreLive(providers[1..], max);
      ShiftedCount(Live(providers[1..]));
      OneMoreProvider(providers);
      assert 0 !in Shifted(Live(providers[1..]));
    }
  }

  /** No live provider is undated or stale, their number is declared, they do not disagree, and without one the valuation is capped. */
  ghost predicate MarketHolds(market: Option<Market>, valuation: real, policy: Policy) {
    && market.Some? && !market.value.conflict
    && (forall n :: n in Live(market.value.providers) ==>
          market.value.providers[n].age.Some? && market.value.providers[n].age.value <= policy.marketMax)
    && market.value.declared == |Live(market.value.providers)|
    && (Live(market.value.providers) == {} ==> valuation <= 3.75)
  }

  /** The first thing wrong with a market object that does not hold. */
  ghost function MarketFault(market: Option<Market>, policy: Policy): Reason {
    if market.None? then NoMarket
    else
      var m := market.value;
      if exists n :: n in Live(m.providers) && (m.providers[n].age.Some? ==> m.providers[n].age.value > policy.marketMax) then StaleMarket
      else if m.declared != |Live(m.providers)| then WrongProviderCount
      else if m.conflict then MarketConflict
      else ValuationOverCap
  }

  lemma MarketVerdict(market: Option<Market>, valuation: real, policy: Policy)
    ensures JudgeMarket(market, valuation, policy).Ok? <==> MarketHolds(market, valuation, policy)
    ensures MarketHolds(market, valuation, policy) ==> JudgeMarket(market, valuation, policy) == Ok(|Live(market.value.providers)|)
    ensures !MarketHolds(market, valuation, policy) ==> JudgeMarket(market, valuation, policy) == Refused(MarketFault(market, policy))
  {
    if market.Some? {
      var providers := market.value.providers;
      if !HasStale(providers, policy.marketMax) { FreshAreLive(providers, policy.marketMax); }
      if n :| n in Live(providers) && !(providers[n].age.Some? && providers[n].age.value <= policy.marketMax) {
        assert HasStale(providers, policy.marketMax);
      }
    }
  }

  // ---- the verdict

  ghost predicate StatesAdvantage(factors: Factors, policy: Policy) {
    exists name :: name in policy.sensitive && name in factors && factors[name] > 0.0
  }

  ghost predicate HasBrokenThesis(logic: Logic) {
    exists field :: field in logic.states && !field.OtherField?
      && (var state := logic.states[field]; state.ThesisBroken? || state.Broken? || state.ThesisImpaired? || state.DestroyedState?)
  }

  ghost predicate IsEnough(families: nat, domains: nat, firstHand: nat, all: nat, dated: nat, current: nat, policy: Policy) {
    && families >= policy.minFamilies && domains >= policy.minDomains && firstHand >= policy.minPrimary
    && (if all == 0 then policy.minDatedRatio <= 0.0 else dated as real / all as real >= policy.minDatedRatio)
    && current > 0
  }

  ghost predicate IsEnoughSupport(units: nat, domains: nat, firstHand: nat, others: nat, policy: Policy) {
    units >= policy.minAdvantageUnits && domains >= policy.minAdvantageDomains && firstHand > 0 && others > 0
  }

  lemma CountsDecide(c: Claims, lineage: bool, policy: Policy)
    ensures StrictlyQualified(c, lineage, policy) <==>
            lineage && IsEnough(c.families, c.domains, c.primaries, c.allUnits, c.units, c.current, policy)
    ensures Supported(c, policy) <==> IsEnoughSupport(c.current, c.currentDomains, c.currentPrimaries, c.currentOthers, policy)
  {
  }

  /** The claims that speak come from enough families and domains, enough of them first hand, enough of them dated, one of them current. */
  ghost predicate StandsOnItsClaims(sources: seq<Source>, lineage: bool, policy: Policy) {
    var dated := Dated(sources, policy);
    && lineage
    && IsEnough(|FamiliesAt(sources, dated)|, |DomainsAt(sources, dated)|, |FirstHand(sources, dated)|,
                |Speakers(sources)|, |dated|, |Current(sources, policy)|, policy)
  }

  /** Enough current claims on enough domains, one of them first hand and one of them not. */
  ghost predicate HasFreshSupport(sources: seq<Source>, policy: Policy) {
    var current := Current(sources, policy);
    && |current| >= policy.minAdvantageUnits && |DomainsAt(sources, current)| >= policy.minAdvantageDomains
    && (exists n :: n in current && IsFirstHand(sources[n])) && (exists n :: n in current && !IsFirstHand(sources[n]))
  }

  ghost predicate MayBeLimited(sources: seq<Source>, policy: Policy) {
    && policy.limitedAllowed && |RecentFirstHand(sources, policy)| >= policy.limitedMinPrimary
    && |PublishersAt(sources, Named(sources, policy))| >= policy.limitedMinOrigins
    && |DomainsAt(sources, Named(sources, policy))| >= policy.limitedMinDomains
  }

  ghost predicate IsAdmissible(d: Dossier, policy: Policy) {
    && d.sources.Some? && d.hasMetrics && d.logic.Some? && !HasBrokenThesis(d.logic.value)
    && MarketHolds(d.market, d.valuation, policy)
    && if StatesAdvantage(d.factors, policy)
       then StandsOnItsClaims(d.sources.value, d.lineage, policy) && HasFreshSupport(d.sources.value, policy)
       else StandsOnItsClaims(d.sources.value, d.lineage, policy) || MayBeLimited(d.sources.value, policy)
  }

  lemma ThesisVerdict(logic: Logic)
    ensures IsSevere(logic) <==> HasBrokenThesis(logic)
  {
  }

  lemma AdvantageVerdict(factors: Factors, policy: Policy)
    ensures PositiveFactors(factors, policy) != [] <==> StatesAdvantage(factors, policy)
    ensures forall name :: name in PositiveFactors(factors, policy) <==>
              name in policy.sensitive && name in factors && factors[name] > 0.0
  {
    PositiveIffSomeFactor(factors, policy);
    FilterMembers(IsPositive(factors), policy.sensitive);
  }

  lemma ClaimsVerdict(sources: seq<Source>, lineage: bool, policy: Policy)
    ensures StrictlyQualified(ClaimsOf(sources, policy), lineage, policy) <==> StandsOnItsClaims(sources, lineage, policy)
  {
    DatedCounts(sources, policy);
    CurrentCounts(sources, policy);
    CountsDecide(ClaimsOf(sources, policy), lineage, policy);
  }

  lemma SomeFirstHand(sources: seq<Source>, at: set<nat>)
    requires forall n :: n in at ==> n < |sources|
    ensures |FirstHand(sources, at)| > 0 <==> exists n :: n in at && IsFirstHand(sources[n])
    ensures |at - FirstHand(sources, at)| > 0 <==> exists n :: n in at && !IsFirstHand(sources[n])
  {
    if FirstHand(sources, at) != {} { var n :| n in FirstHand(sources, at); }
    if at - FirstHand(sources, at) != {} { var n :| n in at - FirstHand(sources, at); }
    if n :| n in at && IsFirstHand(sources[n]) { assert n in FirstHand(sources, at); }
    if n :| n in at && !IsFirstHand(sources[n]) { assert n in at - FirstHand(sources, at); }
  }

  lemma SupportVerdict(sources: seq<Source>, policy: Policy)
    ensures Supported(ClaimsOf(sources, policy), policy) <==> HasFreshSupport(sources, policy)
  {
    CurrentCounts(sources, policy);
    CountsDecide(ClaimsOf(sources, policy), true, policy);
    SomeFirstHand(sources, Current(sources, policy));
  }

  /** The order of the checks does not matter for the verdict. */
  lemma VerdictFrom(claims: Claims, p: Provenance, positive: seq<string>, market: Result<nat>, d: Dossier, policy: Policy)
    ensures var result := JudgeFrom(claims, p, positive, market, d, policy);
            && (result.Ok? <==>
                  && d.hasMetrics && d.logic.Some? && !IsSevere(d.logic.value) && market.Ok?
                  && if positive != [] then StrictlyQualified(claims, d.lineage, policy) && Supported(claims, policy)
                     else || StrictlyQualified(claims, d.lineage, policy)
                          || (policy.limitedAllowed && p.primaries >= policy.limitedMinPrimary
                              && p.origins >= policy.limitedMinOrigins && p.domains >= policy.limitedMinDomains))
            && (result.Ok? ==>
                  && (result.value.mode == EvidenceQualified <==> StrictlyQualified(claims, d.lineage, policy))
                  && result.value.positive == positive && result.value.provenance == p && result.value.freshMarket == market.value)
  {
  }

  /** What is recorded of an admitted record. */
  ghost predicate Records(f: Finding, d: Dossier, policy: Policy)
    requires d.sources.Some? && d.market.Some?
  {
    var sources := d.sources.value;
    && (f.mode == EvidenceQualified <==> StandsOnItsClaims(sources, d.lineage, policy))
    && (forall name :: name in f.positive <==> name in policy.sensitive && name in d.factors && d.factors[name] > 0.0)
    && f.provenance.origins == |PublishersAt(sources, Named(sources, policy))|
    && f.provenance.domains == |DomainsAt(sources, Named(sources, policy))|
    && f.freshMarket == |Live(d.market.value.providers)|
  }

  /** Exactly which records are admitted, in which mode, and what is recorded of them. */
  lemma AdmittedIff(d: Dossier, policy: Policy)
    ensures Judge(d, policy).Ok? <==> IsAdmissible(d, policy)
    ensures Judge(d, policy).Ok? ==> Records(Judge(d, policy).value, d, policy)
  {
    if d.sources.Some? {
      var sources := d.sources.value;
      ClaimsVerdict(sources, d.lineage, policy);
      SupportVerdict(sources, policy);
      ProvenanceCounts(sources, policy);
      AdmittedFromCounts(d, policy, ClaimsOf(sources, policy), ProvenanceOf(sources, policy));
    }
  }

  lemma AdmittedFromCounts(d: Dossier, policy: Policy, claims: Claims, p: Provenance)
    requires d.sources.Some?
    requires StrictlyQualified(claims, d.lineage, policy) <==> StandsOnItsClaims(d.sources.value, d.lineage, policy)
    requires Supported(claims, policy) <==> HasFreshSupport(d.sources.value, policy)
    requires p.origins == |PublishersAt(d.sources.value, Named(d.sources.value, policy))|
    requires p.domains == |DomainsAt(d.sources.value, Named(d.sources.value, policy))|
    requires p.primaries == |RecentFirstHand(d.sources.value, policy)|
    ensures var result := JudgeFrom(claims, p, PositiveFactors(d.factors, policy), JudgeMarket(d.market, d.valuation, policy), d, policy);
            (result.Ok? <==> IsAdmissible(d, policy)) && (result.Ok? ==> Records(result.value, d, policy))
  {
    VerdictFrom(claims, p, PositiveFactors(d.factors, policy), JudgeMarket(d.market, d.valuation, policy), d, policy);
    MarketVerdict(d.market, d.valuation, policy);
    AdvantageVerdict(d.factors, policy);
    if d.logic.Some? { ThesisVerdict(d.logic.value); }
  }

  // ---- what a reader of the bundle may rely on

  ghost predicate IsCurrentClaim(s: Source, policy: Policy) { IsCompanyClaim(s) && s.domain != "" && IsUpTo(s, policy.currentMax) }

  /** The claims in the current window, by family, domain and type. */
  ghost function CurrentUnitsOf(sources: seq<Source>, policy: Policy): set<(Family, string, ClaimType)> {
    set s | s in sources && IsCurrentClaim(s, policy) :: (s.family, s.domain, s.claimType)
  }

  ghost function CurrentDomainsOf(sources: seq<Source>, policy: Policy): set<string> {
    set s | s in sources && IsCurrentClaim(s, policy) :: s.domain
  }

  ghost function UnitAt(sources: seq<Source>, at: set<nat>): set<(Family, string, ClaimType)>
    requires forall n :: n in at ==> n < |sources|
  {
    set n | n in at :: (sources[n].family, sources[n].domain, sources[n].claimType)
  }

  lemma OwnUnit(sources: seq<Source>, rest: set<nat>, k: nat)
    requires k !in rest && k < |sources| && Speaks(sources, k) && forall n :: n in rest ==> n < |sources| && Speaks(sources, n)
    ensures (sources[k].family, sources[k].domain, sources[k].claimType) !in UnitAt(sources, rest)
  {
    forall n | n in rest
      ensures (sources[n].family, sources[n].domain, sources[n].claimType) != (sources[k].family, sources[k].domain, sources[k].claimType)
    {
      assert n < k || k < n;
    }
  }

  lemma {:induction false} SpeakersHaveOwnUnits(sources: seq<Source>, at: set<nat>)
    requires forall n :: n in at ==> n < |sources| && Speaks(sources, n)
    ensures |UnitAt(sources, at)| == |at|
  {
    if k :| k in at {
      var rest := at - {k};
      SpeakersHaveOwnUnits(sources, rest);
      OwnUnit(sources, rest, k);
      assert at == rest + {k};
      assert UnitAt(sources, at) == UnitAt(sources, rest) + {(sources[k].family, sources[k].domain, sources[k].claimType)};
    } else {
      assert UnitAt(sources, at) == {};
    }
  }

  /**
   A record that publishes a positive sensitive factor has a current claim from the company or its regulator and a current
   one from somebody else, and as many current units and domains as the policy asks for.
   */
  lemma AdvantageHasFreshSupport(d: Dossier, policy: Policy)
    requires Judge(d, policy).Ok? && StatesAdvantage(d.factors, policy)
    ensures Judge(d, policy).value.mode == EvidenceQualified && d.lineage
    ensures exists s :: s in d.sources.value && IsCurrentClaim(s, policy) && IsFirstHand(s)
    ensures exists s :: s in d.sources.value && IsCurrentClaim(s, policy) && !IsFirstHand(s)
    ensures |CurrentUnitsOf(d.sources.value, policy)| >= policy.minAdvantageUnits
    ensures |CurrentDomainsOf(d.sources.value, policy)| >= policy.minAdvantageDomains
  {
    AdmittedIff(d, policy);
    var sources := d.sources.value;
    var current := Current(sources, policy);
    forall n | n in current ensures sources[n] in sources && IsCurrentClaim(sources[n], policy) {}
    SpeakersHaveOwnUnits(sources, current);
    CountsGrow(UnitAt(sources, current), CurrentUnitsOf(sources, policy));
    CountsGrow(DomainsAt(sources, current), CurrentDomainsOf(sources, policy));
  }

  /** A record all of whose claims are past the current window is never evidence-qualified. */
  lemma StaleClaimsNeverQualify(d: Dossier, policy: Policy)
    requires Judge(d, policy).Ok?
    requires forall s :: s in d.sources.value && IsCompanyClaim(s) ==> !IsUpTo(s, policy.currentMax)
    ensures Judge(d, policy).value.mode == LimitedResearch && !StatesAdvantage(d.factors, policy)
  {
    AdmittedIff(d, policy);
    var sources := d.sources.value;
    forall n | n in Dated(sources, policy) ensures n !in Current(sources, policy) { assert sources[n] in sources; }
    assert Current(sources, policy) == {};
  }

  // ---- what becomes of an admitted record, and of the bundle

  /** A limited record keeps none of its claim-driven states, its confidence is limited, and its missing evidence is named. */
  lemma LimitedRowLosesItsClaims(logic: Logic, missing: set<Code>, positive: bool)
    ensures var after := LogicAfter(logic, LimitedResearch, positive);
            && after.confidence == LimitedConfidence && !after.validatedThesis
            && (forall field: LogicField :: !field.OtherField? ==> field in after.states && after.states[field] == Unproven)
            && (forall field: LogicField :: field.OtherField? ==>
                  (field in after.states <==> field in logic.states)
                  && (field in logic.states ==> after.states[field] == logic.states[field]))
    ensures forall code: Code :: code in MissingAfter(missing, LimitedResearch) <==>
              || code == IndependentCorroboration || code == LimitedCandidate
              || (code in missing && code != EmptyCode && code != PortfolioPolicy)
  {
    forall field: LogicField ensures field in CLAIM_DRIVEN <==> !field.OtherField? {}
  }

  /** A qualified record keeps its states and its confidence; its thesis is validated when a positive factor rests on it. */
  lemma QualifiedRowKeepsItsClaims(logic: Logic, missing: set<Code>, positive: bool)
    ensures LogicAfter(logic, EvidenceQualified, positive) == Logic(logic.states, logic.confidence, positive)
    ensures MissingAfter(missing, EvidenceQualified) == missing
  {
  }

  /** A record is good for the bundle exactly when it is admissible and names two publishers on two domains. */
  lemma GoodIff(d: Dossier, policy: Policy)
    ensures IsGood(Judge(d, policy)) <==>
            && IsAdmissible(d, policy)
            && |PublishersAt(d.sources.value, Named(d.sources.value, policy))| >= 2
            && |DomainsAt(d.sources.value, Named(d.sources.value, policy))| >= 2
  {
    AdmittedIff(d, policy);
  }

  /** Twenty rows numbered from one, with a ticker each and no ticker twice. */
  lemma FinalOrderIff(top: seq<TopRow>)
    ensures IsFinalOrder(top) <==>
            && |top| == 20 && (forall i :: 0 <= i < 20 ==> |top[i].ticker| > 0 && top[i].rank - 1 == i)
            && (forall i, j :: 0 <= i < 20 && 0 <= j < 20 && top[i].ticker == top[j].ticker ==> i == j)
  {
  }

  lemma UniqueIff(tickers: seq<string>)
    ensures AreUnique(tickers) <==>
            && (forall i :: 0 <= i < |tickers| ==> |tickers[i]| > 0)
            && (forall i, j :: 0 <= i < |tickers| && 0 <= j < |tickers| && tickers[i] == tickers[j] ==> i == j)
  {
    if AreUnique(tickers) {
      forall i, j | 0 <= i < |tickers| && 0 <= j < |tickers| && tickers[i] == tickers[j] ensures i == j {
        assert !(i < j) && !(j < i);
      }
    }
  }
}
