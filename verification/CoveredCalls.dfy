/**
 The covered-call choice for one expiry: the highest strike still worth selling, a balanced
 strike below it, and the limit price suggested for each. Black-Scholes figures come from an
 abstract model; every number is an exact real.
 */
module CoveredCalls {
  import opened Ordering
  import opened Wrappers

  const MIN_ANNUALIZED_YIELD := 0.06
  const MAX_HIGH_STRIKE_DELTA := 0.20
  const BALANCED_DELTA := 0.30
  const BALANCED_MONEYNESS := 1.05
  const MAX_SPREAD_PCT := 1.0
  const WIDE_SPREAD_PCT := 0.25

  datatype Quote = Quote(strike: real, bid: real, ask: real, delta: Option<real>, iv: Option<real>)

  /** Call delta from a strike and a volatility, and the volatility implied by a price at a strike. */
  datatype Model = Model(delta: (real, real) -> Option<real>, impliedVol: (real, real) -> Option<real>)

  datatype Priced = Priced(quote: Quote, delta: Option<real>, exact: Option<real>)

  // ---- rounding

  function Abs(x: real): real { if x < 0.0 then -x else x }

  /** Python's `round` to an integer: halves go to the even neighbour. */
  function RoundHalfEven(x: real): int {
    var f := x.Floor;
    var rest := x - f as real;
    if rest < 0.5 || (rest == 0.5 && f % 2 == 0) then f else f + 1
  }

  function RoundCents(x: real): real { RoundHalfEven(x * 100.0) as real / 100.0 }

  function Round3(x: real): real { RoundHalfEven(x * 1000.0) as real / 1000.0 }

  function Round4(x: real): real { RoundHalfEven(x * 10000.0) as real / 10000.0 }

  predicate IsCentExact(x: real) { (x * 100.0).Floor as real == x * 100.0 }

  // ---- the usable rows

  function EffectiveDays(dte: int): int { if dte < 1 then 1 else dte }

  function Annualized(bid: real, spot: real, dte: int): real
    requires spot > 0.0
  {
    bid / spot * 365.0 / EffectiveDays(dte) as real
  }

  /** A zero delta or volatility in the row is treated as the source's truth test does. */
  function WithDelta(q: Quote, m: Model): Priced {
    var hasVol := q.iv.Some? && q.iv.value != 0.0;
    if q.delta.Some? then
      Priced(q, q.delta, if hasVol then m.delta(q.strike, q.iv.value) else q.delta)
    else
      var vol := if hasVol then q.iv else m.impliedVol((q.bid + q.ask) / 2.0, q.strike);
      if vol.None? then Priced(q, None, None)
      else
        var exact := m.delta(q.strike, vol.value);
        Priced(q, if exact.Some? then Some(Round3(exact.value)) else None, exact)
  }

  /** Out of the money, with a two-sided quote that is not too wide, and exact in the two-decimal display if that is asked. */
  predicate IsUsable(q: Quote, spot: real, centExactOnly: bool) {
    && q.strike != 0.0 && q.strike > spot
    && q.ask >= q.bid > 0.0
    && (q.ask - q.bid) / ((q.ask + q.bid) / 2.0) <= MAX_SPREAD_PCT
    && (centExactOnly ==> IsCentExact(q.strike))
  }

  function Offers(spot: real, centExactOnly: bool): Quote -> bool { (q: Quote) => IsUsable(q, spot, centExactOnly) }

  function Pricing(m: Model): Quote -> Priced { (q: Quote) => WithDelta(q, m) }

  function Usable(rows: seq<Quote>, spot: real, centExactOnly: bool, m: Model): seq<Priced> {
    Map(Pricing(m), Filter(Offers(spot, centExactOnly), rows))
  }

  predicate IsWorthSelling(p: Priced, spot: real, dte: int)
    requires spot > 0.0
  {
    && Annualized(p.quote.bid, spot, dte) >= MIN_ANNUALIZED_YIELD
    && p.exact.Some? && p.exact.value <= MAX_HIGH_STRIKE_DELTA
  }

  function WorthSelling(spot: real, dte: int): Priced -> bool
    requires spot > 0.0
  {
    (p: Priced) => spot > 0.0 && IsWorthSelling(p, spot, dte)
  }

  predicate IsLower(p: Priced, first: Priced, spot: real, dte: int)
    requires spot > 0.0
  {
    && p.quote.strike < first.quote.strike
    && Annualized(p.quote.bid, spot, dte) > Annualized(first.quote.bid, spot, dte)
  }

  function Lower(first: Priced, spot: real, dte: int): Priced -> bool
    requires spot > 0.0
  {
    (p: Priced) => spot > 0.0 && IsLower(p, first, spot, dte)
  }

  /** `max` by strike: the first of equals. */
  function HighestStrike(rows: seq<Priced>): Priced
    requires rows != []
  {
    if |rows| == 1 then rows[0]
    else
      var rest := HighestStrike(rows[1..]);
      if rows[0].quote.strike >= rest.quote.strike then rows[0] else rest
  }

  /** `min` by a key: the first of equals. */
  function Nearest(rows: seq<Priced>, distance: Priced -> real): Priced
    requires rows != []
  {
    if |rows| == 1 then rows[0]
    else
      var rest := Nearest(rows[1..], distance);
      if distance(rows[0]) <= distance(rest) then rows[0] else rest
  }

  function DeltaDistance(p: Priced): real {
    if p.delta.Some? then Abs(p.delta.value - BALANCED_DELTA) else 0.0
  }

  function MoneynessDistance(spot: real): Priced -> real
    requires spot > 0.0
  {
    (p: Priced) => if spot > 0.0 then Abs(p.quote.strike / spot - BALANCED_MONEYNESS) else 0.0
  }

  predicate AllHaveDelta(rows: seq<Priced>) {
    forall i :: 0 <= i < |rows| ==> rows[i].delta.Some?
  }

  function Balanced(lower: seq<Priced>, spot: real): Priced
    requires lower != [] && spot > 0.0
  {
    if AllHaveDelta(lower) then Nearest(lower, DeltaDistance) else Nearest(lower, MoneynessDistance(spot))
  }

  datatype Tiers = NoTiers | HighOnly(high: Priced) | HighAndBalanced(high: Priced, balanced: Priced)

  function CoveredCallTiers(rows: seq<Quote>, spot: real, dte: int, centExactOnly: bool, m: Model): Tiers
    requires spot > 0.0
  {
    if dte < 0 then NoTiers
    else
      var usable := Usable(rows, spot, centExactOnly, m);
      var high := Filter(WorthSelling(spot, dte), usable);
      if high == [] then NoTiers
      else
        var first := HighestStrike(high);
        var lower := Filter(Lower(first, spot, dte), usable);
        if lower == [] then HighOnly(first) else HighAndBalanced(first, Balanced(lower, spot))
  }

  // ---- what the choice means

  lemma UsableMembers(rows: seq<Quote>, spot: real, centExactOnly: bool, m: Model, p: Priced)
    ensures p in Usable(rows, spot, centExactOnly, m) <==> IsOffered(rows, spot, centExactOnly, m, p)
  {
    var kept := Filter(Offers(spot, centExactOnly), rows);
    FilterMembers(Offers(spot, centExactOnly), rows);
    if p in Usable(rows, spot, centExactOnly, m) {
      var i :| 0 <= i < |kept| && Usable(rows, spot, centExactOnly, m)[i] == p;
      assert kept[i] in rows;
    }
    if i :| 0 <= i < |rows| && IsUsable(rows[i], spot, centExactOnly) && p == WithDelta(rows[i], m) {
      assert rows[i] in kept;
      var j :| 0 <= j < |kept| && kept[j] == rows[i];
      assert Usable(rows, spot, centExactOnly, m)[j] == p;
    }
  }

  lemma {:induction false} HighestStrikeIsHighest(rows: seq<Priced>)
    requires rows != []
    ensures HighestStrike(rows) in rows
    ensures forall p :: p in rows ==> p.quote.strike <= HighestStrike(rows).quote.strike
  {
    if |rows| > 1 { HighestStrikeIsHighest(rows[1..]); }
  }

  lemma {:induction false} NearestIsNearest(rows: seq<Priced>, distance: Priced -> real)
    requires rows != []
    ensures Nearest(rows, distance) in rows
    ensures forall p :: p in rows ==> distance(Nearest(rows, distance)) <= distance(p)
  {
    if |rows| > 1 { NearestIsNearest(rows[1..], distance); }
  }

  /** A row the choice may use, priced by the model. */
  ghost predicate IsOffered(rows: seq<Quote>, spot: real, centExactOnly: bool, m: Model, p: Priced) {
    exists i :: 0 <= i < |rows| && IsUsable(rows[i], spot, centExactOnly) && p == WithDelta(rows[i], m)
  }

  /** HIGH_STRIKE is the highest usable strike that meets the yield floor and the exact-delta cap; there is none only if no row does. */
  lemma HighStrikeIsHighest(rows: seq<Quote>, spot: real, dte: int, centExactOnly: bool, m: Model)
    requires spot > 0.0 && dte >= 0
    ensures var t := CoveredCallTiers(rows, spot, dte, centExactOnly, m);
            && (t.NoTiers? <==> forall p :: IsOffered(rows, spot, centExactOnly, m, p) ==> !IsWorthSelling(p, spot, dte))
            && (!t.NoTiers? ==>
                  && IsOffered(rows, spot, centExactOnly, m, t.high) && IsWorthSelling(t.high, spot, dte)
                  && forall p :: IsOffered(rows, spot, centExactOnly, m, p) && IsWorthSelling(p, spot, dte) ==>
                       p.quote.strike <= t.high.quote.strike)
  {
    var usable := Usable(rows, spot, centExactOnly, m);
    forall p ensures p in usable <==> IsOffered(rows, spot, centExactOnly, m, p) {
      UsableMembers(rows, spot, centExactOnly, m, p);
    }
    FilterMembers(WorthSelling(spot, dte), usable);
    var high := Filter(WorthSelling(spot, dte), usable);
    if high != [] {
      HighestStrikeIsHighest(high);
      assert high[0] in high;
    }
  }

  /**
   BALANCED is strictly lower in strike and strictly higher in bid yield than HIGH_STRIKE, is offered whenever some usable row
   is, and among those it is nearest the wanted delta, or the wanted moneyness when one of them has no delta.
   */
  lemma BalancedIsLowerAndRicher(rows: seq<Quote>, spot: real, dte: int, centExactOnly: bool, m: Model)
    requires spot > 0.0 && !CoveredCallTiers(rows, spot, dte, centExactOnly, m).NoTiers?
    ensures var t := CoveredCallTiers(rows, spot, dte, centExactOnly, m);
            && (t.HighAndBalanced? <==> exists p :: IsOffered(rows, spot, centExactOnly, m, p) && IsLower(p, t.high, spot, dte))
            && (t.HighAndBalanced? ==>
                  && IsOffered(rows, spot, centExactOnly, m, t.balanced)
                  && t.balanced.quote.strike < t.high.quote.strike
                  && Annualized(t.balanced.quote.bid, spot, dte) > Annualized(t.high.quote.bid, spot, dte)
                  && IsBestBalanced(rows, spot, dte, centExactOnly, m, t.high, t.balanced))
  {
    var usable := Usable(rows, spot, centExactOnly, m);
    forall p ensures p in usable <==> IsOffered(rows, spot, centExactOnly, m, p) {
      UsableMembers(rows, spot, centExactOnly, m, p);
    }
    var t := CoveredCallTiers(rows, spot, dte, centExactOnly, m);
    var lower := Filter(Lower(t.high, spot, dte), usable);
    FilterMembers(Lower(t.high, spot, dte), usable);
    if lower != [] {
      assert lower[0] in lower;
      NearestIsNearest(lower, DeltaDistance);
      NearestIsNearest(lower, MoneynessDistance(spot));
      BestBalanced(rows, spot, dte, centExactOnly, m, t.high, lower);
    }
  }

  ghost predicate IsBestBalanced(rows: seq<Quote>, spot: real, dte: int, centExactOnly: bool, m: Model, high: Priced, b: Priced)
    requires spot > 0.0
  {
    if forall p :: IsOffered(rows, spot, centExactOnly, m, p) && IsLower(p, high, spot, dte) ==> p.delta.Some?
    then forall p :: IsOffered(rows, spot, centExactOnly, m, p) && IsLower(p, high, spot, dte) ==>
           b.delta.Some? && Abs(b.delta.value - BALANCED_DELTA) <= Abs(p.delta.value - BALANCED_DELTA)
    else forall p :: IsOffered(rows, spot, centExactOnly, m, p) && IsLower(p, high, spot, dte) ==>
           Abs(b.quote.strike / spot - BALANCED_MONEYNESS) <= Abs(p.quote.strike / spot - BALANCED_MONEYNESS)
  }

  lemma BestBalanced(rows: seq<Quote>, spot: real, dte: int, centExactOnly: bool, m: Model, high: Priced, lower: seq<Priced>)
    requires spot > 0.0 && lower != []
    requires forall p :: p in lower <==> IsOffered(rows, spot, centExactOnly, m, p) && IsLower(p, high, spot, dte)
    ensures IsBestBalanced(rows, spot, dte, centExactOnly, m, high, Balanced(lower, spot))
  {
    NearestIsNearest(lower, DeltaDistance);
    NearestIsNearest(lower, MoneynessDistance(spot));
    var b := Balanced(lower, spot);
    if AllHaveDelta(lower) {
      forall p | p in lower ensures p.delta.Some? && DeltaDistance(b) <= DeltaDistance(p) {
        var i :| 0 <= i < |lower| && lower[i] == p;
      }
    } else {
      var i :| 0 <= i < |lower| && lower[i].delta.None?;
      assert lower[i] in lower;
      forall p | p in lower
        ensures Abs(b.quote.strike / spot - BALANCED_MONEYNESS) <= Abs(p.quote.strike / spot - BALANCED_MONEYNESS)
      {
        assert MoneynessDistance(spot)(b) <= MoneynessDistance(spot)(p);
      }
    }
  }

  // ---- the limit price

  function Mid(bid: real, ask: real): real { Round4((bid + ask) / 2.0) }

  /** The mid, or a quarter of the way from the bid when the spread is wide. */
  function Target(bid: real, ask: real): real {
    var mid := Mid(bid, ask);
    var spread := if mid > 0.0 then (ask - bid) / mid else 0.0;
    if spread <= WIDE_SPREAD_PCT then mid else bid + (ask - bid) / 4.0
  }

  /** Cut down to the cent, and never below the bid. */
  function CutToTick(target: real, bid: real): real {
    var cut := (target * 100.0 + 0.000000001).Floor as real / 100.0;
    RoundCents(if cut > bid then cut else bid)
  }

  function LimitPrice(bid: real, ask: real): real { CutToTick(Target(bid, ask), bid) }

  lemma CentsAreExact(n: int)
    ensures n as real / 100.0 * 100.0 == n as real
    ensures RoundCents(n as real / 100.0) == n as real / 100.0 && IsCentExact(n as real / 100.0)
  {
  }

  lemma CutOfQuarterCents(n: int)
    ensures (n as real / 400.0 * 100.0 + 0.000000001).Floor == n / 4
  {
    assert n as real / 400.0 * 100.0 == (n / 4) as real + (n % 4) as real / 4.0;
  }

  lemma CutOfCents(n: int, bidCents: int)
    ensures CutToTick(n as real / 400.0, bidCents as real / 100.0) == (if n / 4 > bidCents then n / 4 else bidCents) as real / 100.0
  {
    CutOfQuarterCents(n);
    CentsAreExact(n / 4);
    CentsAreExact(bidCents);
  }

  lemma MidOfCents(bidCents: int, askCents: int)
    ensures Mid(bidCents as real / 100.0, askCents as real / 100.0) == (bidCents + askCents) as real / 200.0
  {
    var sum := bidCents + askCents;
    assert (bidCents as real / 100.0 + askCents as real / 100.0) / 2.0 * 10000.0 == (50 * sum) as real;
  }

  lemma TargetInQuarterCents(bidCents: int, askCents: int) returns (n: int)
    requires 0 < bidCents <= askCents
    ensures Target(bidCents as real / 100.0, askCents as real / 100.0) == n as real / 400.0
    ensures 4 * bidCents <= n <= 2 * (bidCents + askCents)
  {
    var bid, ask := bidCents as real / 100.0, askCents as real / 100.0;
    MidOfCents(bidCents, askCents);
    assert bid + (ask - bid) / 4.0 == (3 * bidCents + askCents) as real / 400.0;
    n := if Target(bid, ask) == Mid(bid, ask) then 2 * (bidCents + askCents) else 3 * bidCents + askCents;
  }

  /** On the cent grid the order bid <= limit <= mid <= ask holds, and the limit is itself a cent price. */
  lemma LimitLiesInTheQuote(bidCents: int, askCents: int)
    requires 0 < bidCents <= askCents
    ensures var bid, ask := bidCents as real / 100.0, askCents as real / 100.0;
            bid <= LimitPrice(bid, ask) <= Mid(bid, ask) <= ask && IsCentExact(LimitPrice(bid, ask))
  {
    var n := TargetInQuarterCents(bidCents, askCents);
    CutOfCents(n, bidCents);
    MidOfCents(bidCents, askCents);
    CentsAreExact(if n / 4 > bidCents then n / 4 else bidCents);
  }

  // ---- the limit price off the cent grid

  function WholeCents(x: real): int { (x * 100.0).Floor }

  /** A fraction of a cent that two-decimal rounding drops. */
  predicate IsRoundedDown(x: real) {
    var rest := x * 100.0 - WholeCents(x) as real;
    0.0 < rest && (rest < 0.5 || (rest == 0.5 && WholeCents(x) % 2 == 0))
  }

  /** The target reaches the first whole cent above the bid. */
  predicate ReachesNextCent(bid: real, ask: real) {
    (WholeCents(bid) + 1) as real <= Target(bid, ask) * 100.0 + 0.000000001
  }

  predicate KeepsTheBid(bid: real, ask: real) { ReachesNextCent(bid, ask) || !IsRoundedDown(bid) }

  /** Some whole cent lies between bid and ask. */
  predicate HasWholeCent(bid: real, ask: real) { bid * 100.0 <= WholeCents(ask) as real }

  lemma CutOrBid(target: real, bid: real)
    ensures CutToTick(target, bid) ==
            if (WholeCents(bid) + 1) as real <= target * 100.0 + 0.000000001 then (target * 100.0 + 0.000000001).Floor as real / 100.0
            else RoundCents(bid)
  {
    var n := (target * 100.0 + 0.000000001).Floor;
    CentsAreExact(n);
    assert n as real / 100.0 > bid <==> n as real > bid * 100.0;
    assert n as real > bid * 100.0 <==> n >= WholeCents(bid) + 1;
  }

  lemma RoundedBid(bid: real)
    ensures RoundCents(bid) == (if IsRoundedDown(bid) || bid * 100.0 == WholeCents(bid) as real then WholeCents(bid) else WholeCents(bid) + 1) as real / 100.0
  {
  }

  /** For every quote: the limit is at least the bid exactly when the target reaches the next cent or the bid is not rounded down;
      otherwise it is the whole cents of the bid. */
  lemma LimitAgainstTheBid(bid: real, ask: real)
    requires 0.0 < bid <= ask
    ensures LimitPrice(bid, ask) >= bid <==> KeepsTheBid(bid, ask)
    ensures !KeepsTheBid(bid, ask) ==> LimitPrice(bid, ask) == WholeCents(bid) as real / 100.0
  {
    CutOrBid(Target(bid, ask), bid);
    RoundedBid(bid);
  }

  lemma TargetIsNearTheMiddle(bid: real, ask: real)
    requires 0.0 < bid <= ask
    ensures Target(bid, ask) <= (bid + ask) / 2.0 + 0.00005
  {
    var x := (bid + ask) / 2.0;
    assert RoundHalfEven(x * 10000.0) as real <= x * 10000.0 + 0.5;
  }

  /** With a whole cent between bid and ask the target cannot reach the first cent above the ask. */
  lemma TargetStaysUnderTheAsk(bid: real, ask: real)
    requires 0.0 < bid <= ask && HasWholeCent(bid, ask)
    ensures Target(bid, ask) * 100.0 + 0.000000001 < (WholeCents(ask) + 1) as real
  {
    TargetIsNearTheMiddle(bid, ask);
  }

  lemma LimitInCents(bid: real, ask: real) returns (n: int)
    requires 0.0 < bid <= ask
    ensures LimitPrice(bid, ask) == n as real / 100.0
    ensures KeepsTheBid(bid, ask) ==> n as real >= bid * 100.0
    ensures !KeepsTheBid(bid, ask) ==> n as real <= bid * 100.0
    ensures HasWholeCent(bid, ask) ==> n <= WholeCents(ask)
  {
    CutOrBid(Target(bid, ask), bid);
    RoundedBid(bid);
    if ReachesNextCent(bid, ask) {
      n := (Target(bid, ask) * 100.0 + 0.000000001).Floor;
      if HasWholeCent(bid, ask) { TargetStaysUnderTheAsk(bid, ask); }
    } else {
      n := if IsRoundedDown(bid) || bid * 100.0 == WholeCents(bid) as real then WholeCents(bid) else WholeCents(bid) + 1;
    }
  }

  /** For every quote: the limit is at most the ask exactly when a whole cent lies between bid and ask, or it falls below the bid. */
  lemma LimitAgainstTheAsk(bid: real, ask: real)
    requires 0.0 < bid <= ask
    ensures LimitPrice(bid, ask) <= ask <==> HasWholeCent(bid, ask) || !KeepsTheBid(bid, ask)
  {
    var n := LimitInCents(bid, ask);
    assert n as real / 100.0 <= ask <==> n <= WholeCents(ask);
  }

  /** So the limit lies in the quote exactly for quotes that hold a whole cent and keep their bid. */
  lemma LimitLiesInTheQuoteIff(bid: real, ask: real)
    requires 0.0 < bid <= ask
    ensures bid <= LimitPrice(bid, ask) <= ask <==> HasWholeCent(bid, ask) && KeepsTheBid(bid, ask)
  {
    LimitAgainstTheBid(bid, ask);
    LimitAgainstTheAsk(bid, ask);
  }

  /** Both ways out of the quote, and a yield floor met at the bid and missed at the limit. */
  lemma OffTheGridTheLimitMayFallBelowTheBid()
    ensures LimitPrice(0.004, 0.004) < 0.004
    ensures LimitPrice(0.006, 0.006) > 0.006
    ensures Annualized(LimitPrice(0.004, 0.004), 1.0, 1) < MIN_ANNUALIZED_YIELD <= Annualized(0.004, 1.0, 1)
  {
    assert Mid(0.004, 0.004) == 0.004 && Mid(0.006, 0.006) == 0.006;
  }

  lemma AnnualizedGrows(low: real, high: real, spot: real, dte: int)
    requires spot > 0.0 && low <= high
    ensures Annualized(low, spot, dte) <= Annualized(high, spot, dte)
  {
    var days := EffectiveDays(dte) as real;
    assert low / spot <= high / spot;
    assert low / spot * 365.0 <= high / spot * 365.0;
    assert low / spot * 365.0 / days <= high / spot * 365.0 / days;
  }

  /** A yield floor met at the bid is met at the limit exactly when the quote keeps its bid, or the whole cents of the bid meet it too. */
  lemma FloorAtTheLimit(bid: real, ask: real, spot: real, dte: int)
    requires 0.0 < bid <= ask && spot > 0.0 && Annualized(bid, spot, dte) >= MIN_ANNUALIZED_YIELD
    ensures Annualized(LimitPrice(bid, ask), spot, dte) >= MIN_ANNUALIZED_YIELD <==> MeetsTheFloorAtItsLimit(bid, ask, spot, dte)
  {
    LimitAgainstTheBid(bid, ask);
    if KeepsTheBid(bid, ask) { AnnualizedGrows(bid, LimitPrice(bid, ask), spot, dte); }
  }

  predicate MeetsTheFloorAtItsLimit(bid: real, ask: real, spot: real, dte: int)
    requires spot > 0.0
  {
    KeepsTheBid(bid, ask) || Annualized(WholeCents(bid) as real / 100.0, spot, dte) >= MIN_ANNUALIZED_YIELD
  }

  /** For any rows: when each suggestion still meets the yield floor at its limit price. */
  lemma SuggestionsMeetTheFloorIff(rows: seq<Quote>, spot: real, dte: int, centExactOnly: bool, m: Model)
    requires spot > 0.0 && dte >= 0
    ensures var t := CoveredCallTiers(rows, spot, dte, centExactOnly, m);
            && (!t.NoTiers? ==>
                  (Annualized(LimitPrice(t.high.quote.bid, t.high.quote.ask), spot, dte) >= MIN_ANNUALIZED_YIELD
                   <==> MeetsTheFloorAtItsLimit(t.high.quote.bid, t.high.quote.ask, spot, dte)))
            && (t.HighAndBalanced? ==>
                  (Annualized(LimitPrice(t.balanced.quote.bid, t.balanced.quote.ask), spot, dte) >= MIN_ANNUALIZED_YIELD
                   <==> MeetsTheFloorAtItsLimit(t.balanced.quote.bid, t.balanced.quote.ask, spot, dte)))
  {
    var t := CoveredCallTiers(rows, spot, dte, centExactOnly, m);
    if !t.NoTiers? {
      HighStrikeIsHighest(rows, spot, dte, centExactOnly, m);
      FloorAtTheLimit(t.high.quote.bid, t.high.quote.ask, spot, dte);
      if t.HighAndBalanced? {
        BalancedIsLowerAndRicher(rows, spot, dte, centExactOnly, m);
        FloorAtTheLimit(t.balanced.quote.bid, t.balanced.quote.ask, spot, dte);
      }
    }
  }

  /** In particular both suggestions meet it when every bid is a whole number of cents. */
  lemma SuggestionsMeetTheFloorAtTheirLimit(rows: seq<Quote>, spot: real, dte: int, centExactOnly: bool, m: Model)
    requires spot > 0.0 && dte >= 0 && forall q :: q in rows ==> IsCentExact(q.bid)
    ensures var t := CoveredCallTiers(rows, spot, dte, centExactOnly, m);
            && (!t.NoTiers? ==>
                  Annualized(LimitPrice(t.high.quote.bid, t.high.quote.ask), spot, dte) >= MIN_ANNUALIZED_YIELD)
            && (t.HighAndBalanced? ==>
                  Annualized(LimitPrice(t.balanced.quote.bid, t.balanced.quote.ask), spot, dte) >= MIN_ANNUALIZED_YIELD)
  {
    var t := CoveredCallTiers(rows, spot, dte, centExactOnly, m);
    SuggestionsMeetTheFloorIff(rows, spot, dte, centExactOnly, m);
    if !t.NoTiers? {
      HighStrikeIsHighest(rows, spot, dte, centExactOnly, m);
      OfferedBidsAreRows(rows, spot, centExactOnly, m, t.high);
      if t.HighAndBalanced? {
        BalancedIsLowerAndRicher(rows, spot, dte, centExactOnly, m);
        OfferedBidsAreRows(rows, spot, centExactOnly, m, t.balanced);
      }
    }
  }

  lemma OfferedBidsAreRows(rows: seq<Quote>, spot: real, centExactOnly: bool, m: Model, p: Priced)
    requires IsOffered(rows, spot, centExactOnly, m, p)
    ensures p.quote in rows && 0.0 < p.quote.bid <= p.quote.ask
  {
  }
}
