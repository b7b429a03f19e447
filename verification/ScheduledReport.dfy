/**
 The scheduled seven-field report: which clock anchors each row, which order claims are
 withheld, and how long an accepted row stays inside its evidence window. Clocks are in
 microseconds.
 */
module ScheduledReport {
  import opened Wrappers

  datatype Result<T> = Ok(value: T) | Refused(reason: Reason)
  datatype Reason = OrderAcquisitionInvalid | AcquisitionUnknown | NameInvalid | ProfitDateUnknown | AnchorMissing | AnchorOutsideWindow
                  | MembershipChanged

  type Time = int

  const SECOND: Time := 1_000_000
  const SKEW: Time := 300 * SECOND

  /** `iso_z` keeps whole seconds only. */
  function WholeSecond(t: Time): (r: Time)
    ensures r <= t < r + SECOND && r % SECOND == 0
  {
    t - t % SECOND
  }

  /** Full windows, and the time an accepted report may still be re-sealed. */
  datatype Windows = Windows(claim: Time, market: Time, margin: Time)

  datatype OrderText = NotDisclosed | Text(text: string)
  datatype Confidence = Unavailable | NoReliableNumber | Stated(level: string)
  datatype Retrieval = Unknown | Invalid | At(time: Time)

  /** Order fields with their urls; `asOf` is None where the text holds no readable date. */
  datatype Orders = Orders(current: OrderText, future: OrderText, confidence: Confidence, currentUrls: seq<string>, futureUrls: seq<string>,
                           asOf: Option<Time>)

  datatype Evidence = Evidence(orders: Orders, retained: Retrieval)

  /** The end of a return window's daily series, and whether it is written as a bare ten-character day. */
  datatype SeriesEnd = SeriesEnd(moment: Option<Time>, isDay: bool)

  /** A five-field row, its validated name, its displayed profit claim if any with the filing date behind it, its return windows. */
  datatype FreshRow = FreshRow(ticker: string, retrieved: Option<Time>, nameOk: bool, showsProfit: bool, profitFiled: Option<Time>,
                               sixMonth: SeriesEnd, twoYear: SeriesEnd)

  datatype Class = CurrentStateClaim | MarketObservation

  datatype Record = Record(rank: nat, ticker: string, orders: Orders, showsProfit: bool, retrieved: Option<Time>, anchor: Time, class_: Class)

  // ---- the parts of a row

  predicate MakesNoClaim(o: Orders) {
    o.confidence in {Unavailable, NoReliableNumber} && o.current == NotDisclosed && o.future == NotDisclosed
    && o.currentUrls == [] && o.futureUrls == []
  }

  const WITHHELD := Orders(NotDisclosed, NotDisclosed, Unavailable, [], [], None)

  predicate MustWithhold(o: Orders, completed: Time, limit: Time) {
    !MakesNoClaim(o) && (o.asOf.None? || completed - o.asOf.value > limit)
  }

  function Shown(o: Orders, completed: Time, limit: Time): Orders { if MustWithhold(o, completed, limit) then WITHHELD else o }

  function MarketAnchor(row: FreshRow): Option<Time> {
    if row.sixMonth.moment.Some? && row.sixMonth.isDay then Some(WholeSecond(row.sixMonth.moment.value))
    else if row.twoYear.moment.Some? && row.twoYear.isDay then Some(WholeSecond(row.twoYear.moment.value))
    else None
  }

  function Earlier(a: Time, b: Time): Time { if a <= b then a else b }

  /** The acquisition clock of a row: the older of both where orders are shown, and unknown if either is. */
  function Acquired(row: FreshRow, e: Evidence, shown: Orders, completed: Time): Result<Option<Time>> {
    if MakesNoClaim(shown) then Ok(row.retrieved)
    else match e.retained
      case Unknown => Ok(None)
      case Invalid => Refused(OrderAcquisitionInvalid)
      case At(t) =>
        if t > completed then Refused(OrderAcquisitionInvalid)
        else Ok(if row.retrieved.Some? then Some(Earlier(row.retrieved.value, t)) else None)
  }

  /** The oldest date behind a displayed company claim; with none displayed, the latest daily bar. */
  function AnchorOf(row: FreshRow, shown: Orders): Option<Time> {
    if MakesNoClaim(shown) then (if row.showsProfit then row.profitFiled else MarketAnchor(row))
    else if row.showsProfit then
      (if row.profitFiled.Some? && shown.asOf.Some? then Some(Earlier(shown.asOf.value, row.profitFiled.value)) else None)
    else shown.asOf
  }

  function ClassOf(row: FreshRow, shown: Orders): Class {
    if MakesNoClaim(shown) && !row.showsProfit then MarketObservation else CurrentStateClaim
  }

  function FullWindow(c: Class, w: Windows): Time { if c == CurrentStateClaim then w.claim else w.market }

  function RecordOf(rank: nat, row: FreshRow, e: Evidence, completed: Time, w: Windows, requireKnown: bool): Result<Record> {
    var shown := Shown(e.orders, completed, w.claim - w.margin);
    var acquired := Acquired(row, e, shown, completed);
    if acquired.Refused? then Refused(acquired.reason)
    else if requireKnown && acquired.value.None? then Refused(AcquisitionUnknown)
    else if !row.nameOk then Refused(NameInvalid)
    else if row.showsProfit && row.profitFiled.None? then Refused(ProfitDateUnknown)
    else
      var anchor, c := AnchorOf(row, shown), ClassOf(row, shown);
      if anchor.None? then Refused(AnchorMissing)
      else if !(-SKEW <= completed - anchor.value <= FullWindow(c, w) - w.margin) then Refused(AnchorOutsideWindow)
      else Ok(Record(rank, row.ticker, shown, row.showsProfit, acquired.value, WholeSecond(anchor.value), c))
  }

  // ---- the loop over the rows

  function Withheld(rows: seq<FreshRow>, evidence: map<string, Evidence>, completed: Time, limit: Time): seq<string>
    requires forall i :: 0 <= i < |rows| ==> rows[i].ticker in evidence
  {
    if rows == [] then []
    else
      var last := rows[|rows| - 1];
      Withheld(rows[..|rows| - 1], evidence, completed, limit)
      + if MustWithhold(evidence[last.ticker].orders, completed, limit) then [last.ticker] else []
  }

  /** One row of the loop, with its orders, clocks and claim dates kept in variables. */
  method BuildRow(rank: nat, row: FreshRow, e: Evidence, completed: Time, w: Windows, requireKnown: bool)
    returns (result: Result<Record>, withheld: bool)
    ensures result == RecordOf(rank, row, e, completed, w, requireKnown)
    ensures withheld == MustWithhold(e.orders, completed, w.claim - w.margin)
  {
    var claimLimit, marketLimit := w.claim - w.margin, w.market - w.margin;
    var orders, retrieved := e.orders, row.retrieved;
    var noClaim := MakesNoClaim(orders);
    var claimDate := if noClaim then None else orders.asOf;
    withheld := !noClaim && (claimDate.None? || completed - claimDate.value > claimLimit);
    if withheld { orders, noClaim, claimDate := WITHHELD, true, None; }
    if !noClaim {
      if e.retained.Unknown? {
        retrieved := None;
      } else if e.retained.Invalid? || e.retained.time > completed {
        return Refused(OrderAcquisitionInvalid), withheld;
      } else if retrieved.Some? {
        retrieved := Some(Earlier(retrieved.value, e.retained.time));
      }
    }
    if requireKnown && retrieved.None? { return Refused(AcquisitionUnknown), withheld; }
    if !row.nameOk { return Refused(NameInvalid), withheld; }
    if row.showsProfit && row.profitFiled.None? { return Refused(ProfitDateUnknown), withheld; }
    var oldest := claimDate;
    if row.showsProfit { oldest := if oldest.None? then row.profitFiled else Some(Earlier(oldest.value, row.profitFiled.value)); }
    var c, anchor, limit := CurrentStateClaim, oldest, claimLimit;
    if oldest.None? { c, anchor, limit := MarketObservation, MarketAnchor(row), marketLimit; }
    if anchor.None? { return Refused(AnchorMissing), withheld; }
    if !(-SKEW <= completed - anchor.value <= limit) { return Refused(AnchorOutsideWindow), withheld; }
    result := Ok(Record(rank, row.ticker, orders, row.showsProfit, retrieved, WholeSecond(anchor.value), c));
  }

  ghost predicate IsRowResult(result: Result<Record>, k: nat, rows: seq<FreshRow>, evidence: map<string, Evidence>, completed: Time,
                              w: Windows, requireKnown: bool) {
    && k < |rows| && rows[k].ticker in evidence
    && result == RecordOf(k + 1, rows[k], evidence[rows[k].ticker], completed, w, requireKnown)
  }

  /** The first refusal ends the build. */
  method Build(rows: seq<FreshRow>, evidence: map<string, Evidence>, completed: Time, w: Windows, requireKnown: bool)
    returns (result: Result<seq<Record>>, withheld: seq<string>)
    ensures result.Ok? ==>
              && evidence.Keys == (set row | row in rows :: row.ticker)
              && |result.value| == |rows|
              && (forall k :: 0 <= k < |rows| ==> IsRowResult(Ok(result.value[k]), k, rows, evidence, completed, w, requireKnown))
              && withheld == Withheld(rows, evidence, completed, w.claim - w.margin)
    ensures result == Refused(MembershipChanged) <==> evidence.Keys != (set row | row in rows :: row.ticker)
    ensures result.Refused? && result.reason != MembershipChanged ==>
              exists k: nat :: IsRowResult(Refused(result.reason), k, rows, evidence, completed, w, requireKnown)
  {
    withheld := [];
    if evidence.Keys != set row | row in rows :: row.ticker { return Refused(MembershipChanged), []; }
    assert forall i :: 0 <= i < |rows| ==> rows[i] in rows && rows[i].ticker in evidence;
    var records: seq<Record> := [];
    for k := 0 to |rows|
      invariant |records| == k
      invariant forall j :: 0 <= j < k ==> IsRowResult(Ok(records[j]), j, rows, evidence, completed, w, requireKnown)
      invariant withheld == Withheld(rows[..k], evidence, completed, w.claim - w.margin)
    {
      assert rows[..k + 1][..k] == rows[..k];
      var built, stale := BuildRow(k + 1, rows[k], evidence[rows[k].ticker], completed, w, requireKnown);
      if built.Refused? {
        assert IsRowResult(Refused(built.reason), k, rows, evidence, completed, w, requireKnown);
        return Refused(built.reason), withheld;
      }
      if stale { withheld := withheld + [rows[k].ticker]; }
      records := records + [built.value];
    }
    assert rows[..|rows|] == rows;
    result := Ok(records);
  }

  // ---- what a built row shows and what anchors it

  ghost predicate IsBuilt(r: Record, row: FreshRow, e: Evidence, completed: Time, w: Windows, requireKnown: bool) {
    RecordOf(r.rank, row, e, completed, w, requireKnown) == Ok(r)
  }

  /** The dates behind the company claims that a row displays. */
  ghost predicate IsClaimDate(r: Record, row: FreshRow, t: Time) {
    || (!MakesNoClaim(r.orders) && r.orders.asOf == Some(t))
    || (r.showsProfit && row.profitFiled == Some(t))
  }

  ghost predicate DisplaysClaim(r: Record) { !MakesNoClaim(r.orders) || r.showsProfit }

  /** A row is a current-state claim exactly when it displays an order or profit claim; then its anchor is the oldest date behind
      those claims, to the second, and every displayed claim has a date. Otherwise the daily bar anchors it. */
  lemma ClaimsAnchorTheirRow(r: Record, row: FreshRow, e: Evidence, completed: Time, w: Windows, requireKnown: bool)
    requires IsBuilt(r, row, e, completed, w, requireKnown)
    ensures r.class_ == CurrentStateClaim <==> DisplaysClaim(r)
    ensures DisplaysClaim(r) ==>
              && (exists t :: IsClaimDate(r, row, t) && r.anchor == WholeSecond(t))
              && (forall t :: IsClaimDate(r, row, t) ==> r.anchor <= t)
              && (!MakesNoClaim(r.orders) ==> r.orders.asOf.Some?) && (r.showsProfit ==> row.profitFiled.Some?)
    ensures !DisplaysClaim(r) ==> MarketAnchor(row).Some? && r.anchor == WholeSecond(MarketAnchor(row).value)
  {
    if DisplaysClaim(r) {
      var t := AnchorOf(row, r.orders).value;
      assert IsClaimDate(r, row, t);
    }
  }

  /** Orders are shown as they were accepted, or not at all: a claim that is undated or older than its window leaves no text, url or
      date behind. */
  lemma StaleOrdersAreNotShown(r: Record, row: FreshRow, e: Evidence, completed: Time, w: Windows, requireKnown: bool)
    requires IsBuilt(r, row, e, completed, w, requireKnown)
    ensures !MakesNoClaim(r.orders) <==>
              !MakesNoClaim(e.orders) && e.orders.asOf.Some? && completed - e.orders.asOf.value <= w.claim - w.margin
    ensures !MakesNoClaim(r.orders) ==> r.orders == e.orders
    ensures MakesNoClaim(r.orders) ==> r.orders.current == NotDisclosed && r.orders.future == NotDisclosed
                                       && r.orders.currentUrls == [] == r.orders.futureUrls
  {
  }

  /** Retained orders never borrow a newer acquisition clock. */
  lemma AcquisitionIsTheOldest(r: Record, row: FreshRow, e: Evidence, completed: Time, w: Windows, requireKnown: bool)
    requires IsBuilt(r, row, e, completed, w, requireKnown)
    ensures r.retrieved.Some? ==> row.retrieved.Some? && r.retrieved.value <= row.retrieved.value
    ensures r.retrieved.Some? && !MakesNoClaim(r.orders) ==> e.retained.At? && r.retrieved.value <= e.retained.time <= completed
  {
  }

  ghost predicate IsInside(r: Record, w: Windows, now: Time) { -SKEW <= now - r.anchor <= FullWindow(r.class_, w) }

  ghost predicate IsInsideWithin(slack: Time, r: Record, w: Windows, now: Time) {
    -SKEW <= now - r.anchor < FullWindow(r.class_, w) + slack
  }

  /** The orders that a row will show, its anchor and its class, from its inputs alone. */
  function InputOrders(e: Evidence, completed: Time, w: Windows): Orders { Shown(e.orders, completed, w.claim - w.margin) }

  function InputAnchor(row: FreshRow, e: Evidence, completed: Time, w: Windows): Option<Time> {
    AnchorOf(row, InputOrders(e, completed, w))
  }

  function InputClass(row: FreshRow, e: Evidence, completed: Time, w: Windows): Class { ClassOf(row, InputOrders(e, completed, w)) }

  /** A row stays inside its full window for the whole carry margin exactly when the age of its anchor and the fraction of a second
      that its record drops fit into the limit together. The build tests the age alone, so a row can be late by less than a second,
      and only by that fraction. */
  lemma AnchorsLastTheMargin(r: Record, row: FreshRow, e: Evidence, completed: Time, w: Windows, requireKnown: bool)
    requires IsBuilt(r, row, e, completed, w, requireKnown) && w.margin >= 0
    ensures InputAnchor(row, e, completed, w).Some?
    ensures var anchor, full := InputAnchor(row, e, completed, w).value, FullWindow(InputClass(row, e, completed, w), w);
            && r.anchor == anchor - anchor % SECOND && FullWindow(r.class_, w) == full
            && ((forall now :: completed <= now <= completed + w.margin ==> IsInside(r, w, now)) <==>
                  completed - anchor + anchor % SECOND <= full - w.margin)
    ensures InputAnchor(row, e, completed, w).value % SECOND == 0 ==>
              forall now :: completed <= now <= completed + w.margin ==> IsInside(r, w, now)
    ensures forall now :: completed <= now <= completed + w.margin ==> IsInsideWithin(SECOND, r, w, now)
  {
    assert r.orders == InputOrders(e, completed, w) && r.anchor == WholeSecond(AnchorOf(row, r.orders).value);
    if completed - r.anchor > FullWindow(r.class_, w) - w.margin {
      assert !IsInside(r, w, completed + w.margin);
    }
  }

  /** Such a late row can be built. */
  lemma FractionalAnchorCanLapse(w: Windows, completed: Time) returns (r: Record, row: FreshRow, e: Evidence)
    requires 0 <= w.margin < w.claim && (completed - (w.claim - w.margin)) % SECOND > 0
    ensures IsBuilt(r, row, e, completed, w, false) && !IsInside(r, w, completed + w.margin)
  {
    var asOf := completed - (w.claim - w.margin);
    var orders := Orders(Text("10 units"), NotDisclosed, Stated("HIGH"), [], [], Some(asOf));
    e := Evidence(orders, At(completed));
    row := FreshRow("T", Some(completed), true, false, None, SeriesEnd(None, false), SeriesEnd(None, false));
    r := Record(1, "T", orders, false, Some(completed), WholeSecond(asOf), CurrentStateClaim);
  }

  // ---- orders dated in the future

  ghost predicate ShowsFutureOrders(result: Result<Record>, completed: Time) {
    result.Ok? && !MakesNoClaim(result.value.orders) && result.value.orders.asOf.Some? && result.value.orders.asOf.value > completed + SKEW
  }

  /** The acquisition clocks let retained orders be shown. */
  predicate MayShowRetained(row: FreshRow, e: Evidence, completed: Time, requireKnown: bool) {
    || (e.retained.At? && e.retained.time <= completed && (requireKnown ==> row.retrieved.Some?))
    || (e.retained.Unknown? && !requireKnown)
  }

  /** Exactly when a row is built that displays orders dated after the clock tolerance: nothing withholds them, and an older profit
      claim inside the window anchors the row. */
  lemma FutureOrdersAreShownIff(rank: nat, row: FreshRow, e: Evidence, completed: Time, w: Windows, requireKnown: bool)
    ensures ShowsFutureOrders(RecordOf(rank, row, e, completed, w, requireKnown), completed) <==>
            && !MakesNoClaim(e.orders) && e.orders.asOf.Some? && e.orders.asOf.value > completed + SKEW
            && MayShowRetained(row, e, completed, requireKnown) && row.nameOk
            && row.showsProfit && row.profitFiled.Some? && -SKEW <= completed - row.profitFiled.value <= w.claim - w.margin
  {
  }

  /** Such a row: orders dated a thousand seconds ahead, a profit claim filed at completion. */
  lemma FutureOrdersCanBeShown(w: Windows, completed: Time) returns (r: Record, row: FreshRow, e: Evidence)
    requires 0 <= w.margin < w.claim
    ensures IsBuilt(r, row, e, completed, w, true)
    ensures r.orders == e.orders && e.orders.current == Text("10 units") && e.orders.asOf == Some(completed + 1000 * SECOND)
  {
    var orders := Orders(Text("10 units"), NotDisclosed, Stated("HIGH"), [], [], Some(completed + 1000 * SECOND));
    e := Evidence(orders, At(completed));
    row := FreshRow("T", Some(completed), true, true, Some(completed), SeriesEnd(None, false), SeriesEnd(None, false));
    r := Record(1, "T", orders, true, Some(completed), WholeSecond(completed), CurrentStateClaim);
  }

  /** In particular such a row is built only under an older profit claim. */
  lemma FutureOrdersNeedAnOlderClaim(r: Record, row: FreshRow, e: Evidence, completed: Time, w: Windows, requireKnown: bool)
    requires IsBuilt(r, row, e, completed, w, requireKnown)
    requires !MakesNoClaim(r.orders) && r.orders.asOf.value > completed + SKEW
    ensures r.showsProfit && row.profitFiled.Some? && row.profitFiled.value <= completed + SKEW
  {
    FutureOrdersAreShownIff(r.rank, row, e, completed, w, requireKnown);
  }

  // ---- a row, from its inputs

  ghost predicate DisplaysOrders(o: Orders) {
    !o.current.NotDisclosed? || !o.future.NotDisclosed? || |o.currentUrls| > 0 || |o.futureUrls| > 0 || o.confidence.Stated?
  }

  /** Order claims are shown when they are dated, and no older than their window less the margin. */
  ghost predicate OrdersAreShown(e: Evidence, completed: Time, w: Windows) {
    DisplaysOrders(e.orders) && e.orders.asOf.Some? && e.orders.asOf.value + w.claim - w.margin >= completed
  }

  /** The last bar of the six-month series, or of the two-year series where that has none written as a day. */
  ghost predicate IsLatestBar(row: FreshRow, t: Time) {
    || (row.sixMonth.isDay && row.sixMonth.moment == Some(t))
    || (!(row.sixMonth.isDay && row.sixMonth.moment.Some?) && row.twoYear.isDay && row.twoYear.moment == Some(t))
  }

  /** The oldest date of what the row shows; a bar, to the second, where it shows neither orders nor profit. */
  ghost predicate IsAnchor(row: FreshRow, e: Evidence, completed: Time, w: Windows, t: Time) {
    if OrdersAreShown(e, completed, w) && row.showsProfit then
      && row.profitFiled.Some? && (t == e.orders.asOf.value || t == row.profitFiled.value)
      && t <= e.orders.asOf.value && t <= row.profitFiled.value
    else if OrdersAreShown(e, completed, w) then t == e.orders.asOf.value
    else if row.showsProfit then row.profitFiled == Some(t)
    else exists bar :: IsLatestBar(row, bar) && IsSecondOf(bar, t)
  }

  ghost predicate IsSecondOf(moment: Time, t: Time) { t <= moment < t + 1_000_000 && t % 1_000_000 == 0 }

  ghost predicate IsInTime(row: FreshRow, e: Evidence, completed: Time, w: Windows, t: Time) {
    t - 300_000_000 <= completed
    && completed <= t + (if OrdersAreShown(e, completed, w) || row.showsProfit then w.claim else w.market) - w.margin
  }

  /** With orders shown, their acquisition is not after completion; where an acquisition must be known, all of them are. */
  ghost predicate HasAcquisition(row: FreshRow, e: Evidence, completed: Time, w: Windows, requireKnown: bool) {
    && (requireKnown ==> row.retrieved.Some?)
    && (OrdersAreShown(e, completed, w) ==>
          !e.retained.Invalid? && (e.retained.At? ==> e.retained.time <= completed) && (requireKnown ==> e.retained.At?))
  }

  lemma OrdersShownIff(e: Evidence, completed: Time, w: Windows)
    ensures MakesNoClaim(Shown(e.orders, completed, w.claim - w.margin)) <==> !OrdersAreShown(e, completed, w)
    ensures OrdersAreShown(e, completed, w) ==> Shown(e.orders, completed, w.claim - w.margin) == e.orders
    ensures MakesNoClaim(e.orders) <==> !DisplaysOrders(e.orders)
  {
  }

  lemma AnchorFromInputs(row: FreshRow, e: Evidence, completed: Time, w: Windows)
    requires row.showsProfit ==> row.profitFiled.Some?
    ensures forall t :: InputAnchor(row, e, completed, w) == Some(t) <==> IsAnchor(row, e, completed, w, t)
  {
    OrdersShownIff(e, completed, w);
    if !OrdersAreShown(e, completed, w) && !row.showsProfit {
      forall t ensures MarketAnchor(row) == Some(t) <==> exists bar :: IsLatestBar(row, bar) && IsSecondOf(bar, t) {
        BarAnchor(row, t);
      }
    }
  }

  lemma BarAnchor(row: FreshRow, t: Time)
    ensures MarketAnchor(row) == Some(t) <==> exists bar :: IsLatestBar(row, bar) && IsSecondOf(bar, t)
  {
    if MarketAnchor(row) == Some(t) {
      var bar := if row.sixMonth.moment.Some? && row.sixMonth.isDay then row.sixMonth.moment.value else row.twoYear.moment.value;
      assert IsLatestBar(row, bar) && IsSecondOf(bar, t);
    }
    if bar :| IsLatestBar(row, bar) && IsSecondOf(bar, t) { WholeSecondIs(bar, t); }
  }

  lemma WholeSecondIs(moment: Time, t: Time)
    requires IsSecondOf(moment, t)
    ensures WholeSecond(moment) == t
  {
  }

  /** Exactly which rows are built, and what a built row records. */
  lemma BuiltRowIff(rank: nat, row: FreshRow, e: Evidence, completed: Time, w: Windows, requireKnown: bool)
    ensures RecordOf(rank, row, e, completed, w, requireKnown).Ok? <==>
            && row.nameOk && HasAcquisition(row, e, completed, w, requireKnown) && (row.showsProfit ==> row.profitFiled.Some?)
            && exists t :: IsAnchor(row, e, completed, w, t) && IsInTime(row, e, completed, w, t)
    ensures RecordOf(rank, row, e, completed, w, requireKnown).Ok? ==>
              var r := RecordOf(rank, row, e, completed, w, requireKnown).value;
              && r.rank == rank && r.ticker == row.ticker && r.showsProfit == row.showsProfit
              && (if OrdersAreShown(e, completed, w) then r.orders == e.orders else !DisplaysOrders(r.orders))
              && exists t :: IsAnchor(row, e, completed, w, t) && IsSecondOf(t, r.anchor)
  {
    OrdersShownIff(e, completed, w);
    if row.showsProfit ==> row.profitFiled.Some? { AnchorFromInputs(row, e, completed, w); }
    var a := InputAnchor(row, e, completed, w);
    if (row.showsProfit ==> row.profitFiled.Some?) && a.Some? { assert IsAnchor(row, e, completed, w, a.value); }
  }
}
