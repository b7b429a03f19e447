/**
 The tiers and their limit prices, read off the rows of the quote table: which row each tier is, with
 the thresholds written as conditions on prices, and the limit in whole cents.
 */
module TierLaws {
  import opened Ordering
  import opened Wrappers
  import opened CoveredCalls

  ghost predicate IsWhole(x: real) { x == x.Floor as real }

  // ---- thresholds as conditions on prices

  /** Out of the money, two-sided, the ask at most three times the bid, and a strike of whole cents if that is asked. */
  ghost predicate IsTradable(q: Quote, spot: real, wholeCents: bool) {
    q.strike > spot && 0.0 < q.bid <= q.ask <= 3.0 * q.bid && (wholeCents ==> IsWhole(q.strike * 100.0))
  }

  lemma SmallerTimes(x: real, y: real, base: real)
    requires base > 0.0
    ensures x * base <= y * base <==> x <= y
  {
    assert x * base - y * base == (x - y) * base;
    if x > y { assert (x - y) * base > 0.0; }
  }

  lemma ShareOf(part: real, whole: real, cap: real)
    requires whole > 0.0
    ensures part / whole <= cap <==> part <= cap * whole
  {
    assert part / whole * whole == part;
    SmallerTimes(part / whole, cap, whole);
  }

  lemma CapOnTheSpread(bid: real, ask: real)
    requires 0.0 < bid <= ask
    ensures (ask - bid) / ((ask + bid) / 2.0) <= 1.0 <==> ask <= 3.0 * bid
  {
    ShareOf(ask - bid, (ask + bid) / 2.0, 1.0);
  }

  lemma TradableIff(q: Quote, spot: real, wholeCents: bool)
    requires spot > 0.0
    ensures IsUsable(q, spot, wholeCents) <==> IsTradable(q, spot, wholeCents)
  {
    if 0.0 < q.bid <= q.ask { CapOnTheSpread(q.bid, q.ask); }
  }

  /** At least one day is counted, also on the day of expiry. */
  ghost function Days(dte: int): int { if dte > 1 then dte else 1 }

  /** Six percent a year on the spot price, from the bid. */
  ghost predicate PaysTheFloor(bid: real, spot: real, dte: int) { bid * 365.0 >= 0.06 * spot * Days(dte) as real }

  lemma YieldTimesDays(bid: real, spot: real, dte: int)
    requires spot > 0.0
    ensures Annualized(bid, spot, dte) * (spot * Days(dte) as real) == bid * 365.0
  {
    var days := EffectiveDays(dte) as real;
    assert bid / spot * spot == bid;
    assert bid / spot * 365.0 / days * days == bid / spot * 365.0;
  }

  lemma FloorIff(bid: real, spot: real, dte: int)
    requires spot > 0.0
    ensures Annualized(bid, spot, dte) >= MIN_ANNUALIZED_YIELD <==> PaysTheFloor(bid, spot, dte)
  {
    var base, x := spot * Days(dte) as real, Annualized(bid, spot, dte);
    YieldTimesDays(bid, spot, dte);
    assert base > 0.0;
    if x >= 0.06 { assert x * base >= 0.06 * base; }
    if x < 0.06 { assert x * base < 0.06 * base; }
  }

  /** The richer of two rows is the one with the higher bid. */
  lemma RicherIff(a: real, b: real, spot: real, dte: int)
    requires spot > 0.0
    ensures Annualized(a, spot, dte) > Annualized(b, spot, dte) <==> a > b
  {
    if a <= b { AnnualizedGrows(a, b, spot, dte); }
    if a > b {
      var base, x, y := spot * Days(dte) as real, Annualized(a, spot, dte), Annualized(b, spot, dte);
      YieldTimesDays(a, spot, dte);
      YieldTimesDays(b, spot, dte);
      assert x * base > y * base;
      SmallerTimes(x, y, base);
    }
  }

  // ---- the delta of a row

  ghost predicate QuotesVolatility(q: Quote) { q.iv.Some? && q.iv.value != 0.0 }

  /** The volatility to price with: the quoted one, or else the one implied by the middle of the quote. */
  ghost function VolatilityOf(q: Quote, m: Model): Option<real> {
    if QuotesVolatility(q) then q.iv else m.impliedVol((q.bid + q.ask) / 2.0, q.strike)
  }

  ghost function ExactDelta(q: Quote, m: Model): Option<real> {
    if q.delta.Some? && !QuotesVolatility(q) then q.delta
    else if VolatilityOf(q, m).None? then None
    else m.delta(q.strike, VolatilityOf(q, m).value)
  }

  /** Rounding goes to a nearest whole number, and to the even one of two. */
  lemma RoundingIsNearest(x: real)
    ensures -0.5 <= RoundHalfEven(x) as real - x <= 0.5
    ensures RoundHalfEven(x) as real - x == 0.5 || x - RoundHalfEven(x) as real == 0.5 ==> RoundHalfEven(x) % 2 == 0
  {
  }

  lemma InThousandths(x: real)
    ensures -0.0005 <= Round3(x) - x <= 0.0005 && IsWhole(Round3(x) * 1000.0)
  {
    var n := RoundHalfEven(x * 1000.0);
    RoundingIsNearest(x * 1000.0);
    assert n as real / 1000.0 * 1000.0 == n as real;
    assert (n as real).Floor == n;
  }

  /** A quoted delta is shown as it is; the exact one comes from the model wherever there is a volatility, and is shown in thousandths. */
  lemma DeltasOfARow(q: Quote, m: Model)
    ensures WithDelta(q, m).quote == q && WithDelta(q, m).exact == ExactDelta(q, m)
    ensures q.delta.Some? ==> WithDelta(q, m).delta == q.delta
    ensures q.delta.None? ==>
              && (WithDelta(q, m).delta.Some? <==> ExactDelta(q, m).Some?)
              && (ExactDelta(q, m).Some? ==>
                    var shown, exact := WithDelta(q, m).delta.value, ExactDelta(q, m).value;
                    -0.0005 <= shown - exact <= 0.0005 && IsWhole(shown * 1000.0))
  {
    if q.delta.None? && ExactDelta(q, m).Some? { InThousandths(ExactDelta(q, m).value); }
  }

  // ---- which rows the tiers are

  /** A row that may be sold: its yield meets the floor and its exact delta is at most a fifth. */
  ghost predicate IsSellable(q: Quote, spot: real, dte: int, wholeCents: bool, m: Model) {
    IsTradable(q, spot, wholeCents) && PaysTheFloor(q.bid, spot, dte) && ExactDelta(q, m).Some? && ExactDelta(q, m).value <= 0.20
  }

  lemma SellableIff(q: Quote, spot: real, dte: int, wholeCents: bool, m: Model)
    requires spot > 0.0
    ensures IsUsable(q, spot, wholeCents) && IsWorthSelling(WithDelta(q, m), spot, dte) <==> IsSellable(q, spot, dte, wholeCents, m)
  {
    TradableIff(q, spot, wholeCents);
    FloorIff(q.bid, spot, dte);
    DeltasOfARow(q, m);
  }

  /** A lower strike and a higher bid than the first tier. */
  ghost predicate IsBelow(q: Quote, first: Quote, spot: real, wholeCents: bool) {
    IsTradable(q, spot, wholeCents) && q.strike < first.strike && q.bid > first.bid
  }

  lemma BelowIff(q: Quote, first: Priced, spot: real, dte: int, wholeCents: bool, m: Model)
    requires spot > 0.0
    ensures IsUsable(q, spot, wholeCents) && IsLower(WithDelta(q, m), first, spot, dte) <==> IsBelow(q, first.quote, spot, wholeCents)
  {
    TradableIff(q, spot, wholeCents);
    RicherIff(q.bid, first.quote.bid, spot, dte);
    DeltasOfARow(q, m);
  }

  function Kept(rows: seq<Quote>, offers: Quote -> bool, m: Model, test: Priced -> bool): seq<Priced> {
    Filter(test, Map(Pricing(m), Filter(offers, rows)))
  }

  predicate IsKept(q: Quote, offers: Quote -> bool, m: Model, test: Priced -> bool) { offers(q) && test(WithDelta(q, m)) }

  lemma OneMoreKept(rows: seq<Quote>, offers: Quote -> bool, m: Model, test: Priced -> bool)
    requires rows != []
    ensures Kept(rows, offers, m, test)
            == (if IsKept(rows[0], offers, m, test) then [WithDelta(rows[0], m)] else []) + Kept(rows[1..], offers, m, test)
  {
    var rest := Filter(offers, rows[1..]);
    if offers(rows[0]) {
      assert Filter(offers, rows) == [rows[0]] + rest && ([rows[0]] + rest)[1..] == rest;
      assert Map(Pricing(m), [rows[0]] + rest) == [WithDelta(rows[0], m)] + Map(Pricing(m), rest);
      assert ([WithDelta(rows[0], m)] + Map(Pricing(m), rest))[1..] == Map(Pricing(m), rest);
    } else {
      assert Filter(offers, rows) == rest;
    }
  }

  /** Row `i` is kept and has the highest strike of the kept; of equals it is the first. */
  ghost predicate IsFirstHighest(rows: seq<Quote>, offers: Quote -> bool, m: Model, test: Priced -> bool, i: nat) {
    && i < |rows| && IsKept(rows[i], offers, m, test)
    && forall j :: 0 <= j < |rows| && IsKept(rows[j], offers, m, test) ==>
         rows[j].strike <= rows[i].strike && (j < i ==> rows[j].strike < rows[i].strike)
  }

  lemma {:induction false} FirstHighest(rows: seq<Quote>, offers: Quote -> bool, m: Model, test: Priced -> bool) returns (i: nat)
    requires Kept(rows, offers, m, test) != []
    ensures IsFirstHighest(rows, offers, m, test, i) && HighestStrike(Kept(rows, offers, m, test)) == WithDelta(rows[i], m)
  {
    OneMoreKept(rows, offers, m, test);
    var rest := Kept(rows[1..], offers, m, test);
    assert forall j :: 0 < j < |rows| ==> rows[j] == rows[1..][j - 1];
    if rest == [] {
      i := 0;
      NoneKept(rows[1..], offers, m, test);
      assert Kept(rows, offers, m, test) == [WithDelta(rows[0], m)];
    } else {
      var k := FirstHighest(rows[1..], offers, m, test);
      i := k + 1;
      if IsKept(rows[0], offers, m, test) {
        assert Kept(rows, offers, m, test)[1..] == rest;
        if rows[0].strike >= rows[i].strike { i := 0; }
      } else {
        assert Kept(rows, offers, m, test) == rest;
      }
    }
  }

  lemma {:induction false} NoneKept(rows: seq<Quote>, offers: Quote -> bool, m: Model, test: Priced -> bool)
    ensures Kept(rows, offers, m, test) == [] <==> forall j :: 0 <= j < |rows| ==> !IsKept(rows[j], offers, m, test)
  {
    if rows != [] {
      OneMoreKept(rows, offers, m, test);
      NoneKept(rows[1..], offers, m, test);
      assert forall j :: 0 < j < |rows| ==> rows[j] == rows[1..][j - 1];
      if Kept(rows, offers, m, test) == [] {
        forall j | 0 <= j < |rows| ensures !IsKept(rows[j], offers, m, test) {}
      } else if forall j :: 0 <= j < |rows| ==> !IsKept(rows[j], offers, m, test) {
        forall j | 0 <= j < |rows[1..]| ensures !IsKept(rows[1..][j], offers, m, test) { assert !IsKept(rows[j + 1], offers, m, test); }
      }
    }
  }

  /** Row `i` is kept and is nearest of the kept; of equals it is the first. */
  ghost predicate IsFirstNearest(rows: seq<Quote>, offers: Quote -> bool, m: Model, test: Priced -> bool, distance: Priced -> real, i: nat) {
    && i < |rows| && IsKept(rows[i], offers, m, test)
    && forall j :: 0 <= j < |rows| && IsKept(rows[j], offers, m, test) ==>
         && distance(WithDelta(rows[i], m)) <= distance(WithDelta(rows[j], m))
         && (j < i ==> distance(WithDelta(rows[i], m)) < distance(WithDelta(rows[j], m)))
  }

  lemma {:induction false} FirstNearest(rows: seq<Quote>, offers: Quote -> bool, m: Model, test: Priced -> bool, distance: Priced -> real)
    returns (i: nat)
    requires Kept(rows, offers, m, test) != []
    ensures IsFirstNearest(rows, offers, m, test, distance, i) && Nearest(Kept(rows, offers, m, test), distance) == WithDelta(rows[i], m)
  {
    OneMoreKept(rows, offers, m, test);
    var rest := Kept(rows[1..], offers, m, test);
    assert forall j :: 0 < j < |rows| ==> rows[j] == rows[1..][j - 1];
    if rest == [] {
      i := 0;
      NoneKept(rows[1..], offers, m, test);
      assert Kept(rows, offers, m, test) == [WithDelta(rows[0], m)];
    } else {
      var k := FirstNearest(rows[1..], offers, m, test, distance);
      i := k + 1;
      if IsKept(rows[0], offers, m, test) {
        assert Kept(rows, offers, m, test)[1..] == rest;
        if distance(WithDelta(rows[0], m)) <= distance(WithDelta(rows[i], m)) { i := 0; }
      } else {
        assert Kept(rows, offers, m, test) == rest;
      }
    }
  }

  /** HIGH_STRIKE is the first sellable row of the highest sellable strike. */
  ghost predicate IsHighStrike(rows: seq<Quote>, spot: real, dte: int, wholeCents: bool, m: Model, i: nat) {
    && i < |rows| && IsSellable(rows[i], spot, dte, wholeCents, m)
    && forall j :: 0 <= j < |rows| && IsSellable(rows[j], spot, dte, wholeCents, m) ==>
         rows[j].strike <= rows[i].strike && (j < i ==> rows[j].strike < rows[i].strike)
  }

  /** There is a first tier exactly when some row is sellable and the expiry is not past, and it is that row. */
  lemma HighStrikeOfRows(rows: seq<Quote>, spot: real, dte: int, wholeCents: bool, m: Model)
    requires spot > 0.0
    ensures var t := CoveredCallTiers(rows, spot, dte, wholeCents, m);
            && (t.NoTiers? <==> dte < 0 || forall j :: 0 <= j < |rows| ==> !IsSellable(rows[j], spot, dte, wholeCents, m))
            && (!t.NoTiers? ==> exists i: nat :: IsHighStrike(rows, spot, dte, wholeCents, m, i) && t.high == WithDelta(rows[i], m))
  {
    var offers, test := Offers(spot, wholeCents), WorthSelling(spot, dte);
    forall j | 0 <= j < |rows| ensures IsKept(rows[j], offers, m, test) <==> IsSellable(rows[j], spot, dte, wholeCents, m) {
      SellableIff(rows[j], spot, dte, wholeCents, m);
    }
    NoneKept(rows, offers, m, test);
    if Kept(rows, offers, m, test) != [] {
      var i := FirstHighest(rows, offers, m, test);
      assert IsHighStrike(rows, spot, dte, wholeCents, m, i);
    }
  }

  // ---- the balanced tier

  ghost function Apart(x: real, y: real): real { if x > y then x - y else y - x }

  ghost predicate AllShowDelta(rows: seq<Quote>, first: Quote, spot: real, wholeCents: bool, m: Model) {
    forall j :: 0 <= j < |rows| && IsBelow(rows[j], first, spot, wholeCents) ==> WithDelta(rows[j], m).delta.Some?
  }

  /** How far a row is from what is wanted: a delta of 0.30 where all candidates have one, else a strike five percent above the spot. */
  ghost function FromWanted(q: Quote, byDelta: bool, spot: real, m: Model): real
    requires spot > 0.0
  {
    if byDelta then (if WithDelta(q, m).delta.Some? then Apart(WithDelta(q, m).delta.value, 0.30) else 0.0)
    else Apart(q.strike / spot, 1.05)
  }

  /** BALANCED is the first row nearest to what is wanted among those below the first tier. */
  ghost predicate IsBalanced(rows: seq<Quote>, first: Quote, spot: real, wholeCents: bool, m: Model, i: nat)
    requires spot > 0.0
  {
    var byDelta := AllShowDelta(rows, first, spot, wholeCents, m);
    && i < |rows| && IsBelow(rows[i], first, spot, wholeCents)
    && forall j :: 0 <= j < |rows| && IsBelow(rows[j], first, spot, wholeCents) ==>
         && FromWanted(rows[i], byDelta, spot, m) <= FromWanted(rows[j], byDelta, spot, m)
         && (j < i ==> FromWanted(rows[i], byDelta, spot, m) < FromWanted(rows[j], byDelta, spot, m))
  }

  lemma DistancesOfARow(q: Quote, spot: real, m: Model)
    requires spot > 0.0
    ensures DeltaDistance(WithDelta(q, m)) == FromWanted(q, true, spot, m)
    ensures MoneynessDistance(spot)(WithDelta(q, m)) == FromWanted(q, false, spot, m)
  {
    DeltasOfARow(q, m);
  }

  lemma {:induction false} KeptDeltas(rows: seq<Quote>, offers: Quote -> bool, m: Model, test: Priced -> bool)
    ensures AllHaveDelta(Kept(rows, offers, m, test)) <==>
            forall j :: 0 <= j < |rows| && IsKept(rows[j], offers, m, test) ==> WithDelta(rows[j], m).delta.Some?
  {
    if rows != [] {
      var rest := Kept(rows[1..], offers, m, test);
      OneMoreKept(rows, offers, m, test);
      KeptDeltas(rows[1..], offers, m, test);
      assert forall j :: 0 < j < |rows| ==> rows[j] == rows[1..][j - 1];
      var all := Kept(rows, offers, m, test);
      if IsKept(rows[0], offers, m, test) {
        assert all[0] == WithDelta(rows[0], m) && forall j :: 0 <= j < |rest| ==> all[j + 1] == rest[j];
        assert AllHaveDelta(all) <==> WithDelta(rows[0], m).delta.Some? && AllHaveDelta(rest);
      } else {
        assert all == rest;
      }
    }
  }

  lemma BalancedOfRows(rows: seq<Quote>, first: Priced, spot: real, dte: int, wholeCents: bool, m: Model)
    requires spot > 0.0 && Kept(rows, Offers(spot, wholeCents), m, Lower(first, spot, dte)) != []
    ensures exists i: nat :: IsBalanced(rows, first.quote, spot, wholeCents, m, i)
                        && Balanced(Kept(rows, Offers(spot, wholeCents), m, Lower(first, spot, dte)), spot) == WithDelta(rows[i], m)
  {
    var offers, test := Offers(spot, wholeCents), Lower(first, spot, dte);
    forall j | 0 <= j < |rows|
      ensures IsKept(rows[j], offers, m, test) <==> IsBelow(rows[j], first.quote, spot, wholeCents)
      ensures DeltaDistance(WithDelta(rows[j], m)) == FromWanted(rows[j], true, spot, m)
      ensures MoneynessDistance(spot)(WithDelta(rows[j], m)) == FromWanted(rows[j], false, spot, m)
    {
      BelowIff(rows[j], first, spot, dte, wholeCents, m);
      DistancesOfARow(rows[j], spot, m);
    }
    KeptDeltas(rows, offers, m, test);
    var byDelta := AllShowDelta(rows, first.quote, spot, wholeCents, m);
    var i := FirstNearest(rows, offers, m, test, if byDelta then DeltaDistance else MoneynessDistance(spot));
    assert IsBalanced(rows, first.quote, spot, wholeCents, m, i);
  }

  /** There is a second tier exactly when some tradable row has a lower strike and a higher bid, and it is the nearest of those. */
  lemma SecondTierOfRows(rows: seq<Quote>, spot: real, dte: int, wholeCents: bool, m: Model)
    requires spot > 0.0 && !CoveredCallTiers(rows, spot, dte, wholeCents, m).NoTiers?
    ensures var t := CoveredCallTiers(rows, spot, dte, wholeCents, m);
            && (t.HighAndBalanced? <==> exists j :: 0 <= j < |rows| && IsBelow(rows[j], t.high.quote, spot, wholeCents))
            && (t.HighAndBalanced? ==>
                  exists i: nat :: IsBalanced(rows, t.high.quote, spot, wholeCents, m, i) && t.balanced == WithDelta(rows[i], m))
  {
    var first := CoveredCallTiers(rows, spot, dte, wholeCents, m).high;
    var offers, test := Offers(spot, wholeCents), Lower(first, spot, dte);
    NoneKept(rows, offers, m, test);
    forall j | 0 <= j < |rows| ensures IsKept(rows[j], offers, m, test) <==> IsBelow(rows[j], first.quote, spot, wholeCents) {
      BelowIff(rows[j], first, spot, dte, wholeCents, m);
    }
    if Kept(rows, offers, m, test) != [] { BalancedOfRows(rows, first, spot, dte, wholeCents, m); }
  }

  // ---- the limit price

  lemma TargetOf(bid: real, ask: real)
    ensures var mid := Mid(bid, ask);
            Target(bid, ask) == if mid <= 0.0 || ask - bid <= 0.25 * mid then mid else bid + (ask - bid) / 4.0
  {
    if Mid(bid, ask) > 0.0 { ShareOf(ask - bid, Mid(bid, ask), 0.25); }
  }

  lemma InHundredthsOfACent(x: real)
    ensures -0.00005 <= Round4(x) - x <= 0.00005 && IsWhole(Round4(x) * 10000.0)
  {
    var n := RoundHalfEven(x * 10000.0);
    RoundingIsNearest(x * 10000.0);
    assert n as real / 10000.0 * 10000.0 == n as real;
    assert (n as real).Floor == n;
  }

  /** The target is the middle of the quote in hundredths of a cent, or the quarter point where the spread is over a quarter of that. */
  lemma TargetOfAQuote(bid: real, ask: real) returns (mid: real)
    requires 0.0 < bid <= ask
    ensures -0.00005 <= mid - (bid + ask) / 2.0 <= 0.00005 && IsWhole(mid * 10000.0)
    ensures Target(bid, ask) == if mid <= 0.0 || ask - bid <= 0.25 * mid then mid else bid + (ask - bid) / 4.0
  {
    mid := Mid(bid, ask);
    InHundredthsOfACent((bid + ask) / 2.0);
    TargetOf(bid, ask);
  }

  /** The target on the cent grid, in quarter cents. */
  ghost function TargetQuarters(bidCents: int, askCents: int): int {
    if 8 * (askCents - bidCents) <= bidCents + askCents then 2 * (bidCents + askCents) else 3 * bidCents + askCents
  }

  lemma TargetInCents(bidCents: int, askCents: int)
    requires 0 < bidCents <= askCents
    ensures Target(bidCents as real / 100.0, askCents as real / 100.0)
            == TargetQuarters(bidCents, askCents) as real / 400.0
  {
    var bid, ask := bidCents as real / 100.0, askCents as real / 100.0;
    MidOfCents(bidCents, askCents);
    TargetOf(bid, ask);
    var mid := (bidCents + askCents) as real / 200.0;
    assert mid > 0.0;
    assert ask - bid <= 0.25 * mid <==> 8 * (askCents - bidCents) <= bidCents + askCents;
  }

  lemma QuartersInCents(bidCents: int, askCents: int)
    requires bidCents <= askCents
    ensures TargetQuarters(bidCents, askCents) / 4
            == if 8 * (askCents - bidCents) <= bidCents + askCents then (bidCents + askCents) / 2 else (3 * bidCents + askCents) / 4
    ensures TargetQuarters(bidCents, askCents) / 4 >= bidCents
  {
  }

  lemma LimitFromQuarters(bid: real, ask: real, bidCents: int, quarters: int)
    ensures bid == bidCents as real / 100.0 && Target(bid, ask) == quarters as real / 400.0 && quarters / 4 >= bidCents ==>
              LimitPrice(bid, ask) == (quarters / 4) as real / 100.0
  {
    CutOfCents(quarters, bidCents);
  }

  /** On the cent grid: the middle of the quote cut to the cent, or the cut quarter point where the spread is over a quarter of the middle. */
  lemma LimitInWholeCents(bidCents: int, askCents: int)
    requires 0 < bidCents <= askCents
    ensures var n := if 8 * (askCents - bidCents) <= bidCents + askCents then (bidCents + askCents) / 2 else (3 * bidCents + askCents) / 4;
            LimitPrice(bidCents as real / 100.0, askCents as real / 100.0) == n as real / 100.0
  {
    TargetInCents(bidCents, askCents);
    QuartersInCents(bidCents, askCents);
    LimitFromQuarters(bidCents as real / 100.0, askCents as real / 100.0, bidCents, TargetQuarters(bidCents, askCents));
  }
}
