/**
 The quarter series of a filer: from the rows of every tag and unit, keep the quarter-long
 ones by period end (the latest filing wins), fill a missing fourth quarter from the annual
 row less the nine-month row, and return the series whose latest quarter is most recent.
 */
module QuarterSeries {
  import opened Ordering
  import opened Calendar
  import opened Wrappers

  /** One filed row. A missing or non-text date, and a missing value, is `None`; a missing `filed` is empty text. */
  datatype Row = Row(start: Option<string>, end: Option<string>, val: Option<int>, filed: string)

  datatype Fact = Fact(start: string, end: string, val: int, filed: string, unit: string, derived: bool)

  datatype UnitRows = UnitRows(tag: string, unit: string, rows: seq<Row>)

  type Series = map<string, Fact>

  /** What a row says once its dates are read. */
  datatype Period =
    | Skipped
    | Quarter(start: string, end: string, val: int, filed: string)
    | NineMonth(start: string, end: string, val: int, filed: string)
    | Annual(start: string, end: string, val: int, filed: string)

  predicate IsDated(row: Row) {
    row.start.Some? && row.end.Some? && IsCanonicalDay(row.start.value) && IsCanonicalDay(row.end.value)
  }

  function Read(row: Row): (p: Period)
    ensures !p.Skipped? ==> IsCanonicalDay(p.end) && IsCanonicalDay(p.start)
  {
    if !IsDated(row) || row.val.None? then Skipped
    else
      var days := DayNumber(row.end.value) - DayNumber(row.start.value);
      if 80 <= days <= 100 then Quarter(row.start.value, row.end.value, row.val.value, row.filed)
      else if 260 <= days <= 285 then NineMonth(row.start.value, row.end.value, row.val.value, row.filed)
      else if 350 <= days <= 380 then Annual(row.start.value, row.end.value, row.val.value, row.filed)
      else Skipped
  }

  function FiledFact(unit: string, p: Period): Fact
    requires p.Quarter?
  {
    Fact(p.start, p.end, p.val, p.filed, unit, false)
  }

  function DerivedFact(unit: string, year: Period, ytd: Period): Fact
    requires year.Annual? && ytd.NineMonth?
  {
    Fact(ytd.end, year.end, year.val - ytd.val, year.filed, unit, true)
  }

  // ---- the three passes as functions of the rows read so far

  function Quarters(unit: string, ps: seq<Period>): Series {
    if ps == [] then map[]
    else
      var before, p := Quarters(unit, ps[..|ps| - 1]), ps[|ps| - 1];
      if p.Quarter? && (p.end !in before || TextLeq(before[p.end].filed, p.filed))
      then before[p.end := FiledFact(unit, p)]
      else before
  }

  /** By period start; a later row replaces an earlier one, whenever it was filed. */
  function NineMonths(ps: seq<Period>): (r: map<string, Period>)
    ensures forall start :: start in r ==> r[start].NineMonth?
  {
    if ps == [] then map[]
    else
      var before, p := NineMonths(ps[..|ps| - 1]), ps[|ps| - 1];
      if p.NineMonth? then before[p.start := p] else before
  }

  predicate Derivable(year: Period, nine: map<string, Period>, end: string) {
    year.Annual? && year.end == end && year.start in nine
  }

  function WithDerived(unit: string, series: Series, ps: seq<Period>, nine: map<string, Period>): Series
    requires forall start :: start in nine ==> nine[start].NineMonth?
  {
    if ps == [] then series
    else
      var before, p := WithDerived(unit, series, ps[..|ps| - 1], nine), ps[|ps| - 1];
      if p.Annual? && p.start in nine && p.end !in before
      then before[p.end := DerivedFact(unit, p, nine[p.start])]
      else before
  }

  function SeriesOf(unit: string, rows: seq<Row>): Series {
    var ps := Map(Read, rows);
    WithDerived(unit, Quarters(unit, ps), ps, NineMonths(ps))
  }

  lemma OneMorePeriod(unit: string, ps: seq<Period>, n: nat)
    requires n < |ps|
    ensures var p, before := ps[n], Quarters(unit, ps[..n]);
            Quarters(unit, ps[..n + 1]) == if p.Quarter? && (p.end !in before || TextLeq(before[p.end].filed, p.filed))
                                           then before[p.end := FiledFact(unit, p)] else before
    ensures NineMonths(ps[..n + 1]) == if ps[n].NineMonth? then NineMonths(ps[..n])[ps[n].start := ps[n]] else NineMonths(ps[..n])
    ensures Filter(IsAnnual, ps[..n + 1]) == Filter(IsAnnual, ps[..n]) + if ps[n].Annual? then [ps[n]] else []
  {
    assert ps[..n + 1][..n] == ps[..n] && ps[..n + 1] == ps[..n] + [ps[n]];
    FilterAppend(IsAnnual, ps[..n], [ps[n]]);
    FilterOne(IsAnnual, ps[n]);
  }

  lemma OneMoreDerived(unit: string, series: Series, ps: seq<Period>, nine: map<string, Period>, n: nat)
    requires n < |ps| && forall start :: start in nine ==> nine[start].NineMonth?
    ensures var p, before := ps[n], WithDerived(unit, series, ps[..n], nine);
            WithDerived(unit, series, ps[..n + 1], nine) ==
            if p.Annual? && p.start in nine && p.end !in before then before[p.end := DerivedFact(unit, p, nine[p.start])] else before
  {
    assert ps[..n + 1][..n] == ps[..n];
  }

  /** The rows that are not annual add nothing to the last pass. */
  lemma {:induction false} OnlyAnnualRowsDerive(unit: string, series: Series, ps: seq<Period>, nine: map<string, Period>)
    requires forall start :: start in nine ==> nine[start].NineMonth?
    ensures WithDerived(unit, series, ps, nine) == WithDerived(unit, series, Filter(IsAnnual, ps), nine)
  {
    if ps != [] {
      var m := |ps| - 1;
      var kept := Filter(IsAnnual, ps[..m]);
      OnlyAnnualRowsDerive(unit, series, ps[..m], nine);
      OneMoreDerived(unit, series, ps, nine, m);
      OneMorePeriod(unit, ps, m);
      assert ps[..m + 1] == ps;
      if ps[m].Annual? {
        assert Filter(IsAnnual, ps) == kept + [ps[m]];
        assert (kept + [ps[m]])[..|kept|] == kept && (kept + [ps[m]])[..|kept| + 1] == kept + [ps[m]];
        OneMoreDerived(unit, series, kept + [ps[m]], nine, |kept|);
      } else {
        assert Filter(IsAnnual, ps) == kept;
      }
    }
  }

  predicate IsAnnual(p: Period) { p.Annual? }

  /** The first pass: quarters by end, nine-month rows by start, annual rows in order. */
  method SplitRows(unit: string, rows: seq<Row>) returns (series: Series, nineMonth: map<string, Period>, annual: seq<Period>)
    ensures var ps := Map(Read, rows);
            series == Quarters(unit, ps) && nineMonth == NineMonths(ps) && annual == Filter(IsAnnual, ps)
  {
    ghost var ps := Map(Read, rows);
    series, nineMonth, annual := map[], map[], [];
    for n := 0 to |rows|
      invariant series == Quarters(unit, ps[..n])
      invariant nineMonth == NineMonths(ps[..n])
      invariant annual == Filter(IsAnnual, ps[..n])
    {
      var period := Read(rows[n]);
      OneMorePeriod(unit, ps, n);
      match period {
        case Skipped =>
        case Quarter(_, end, _, filed) =>
          if end !in series || TextLeq(series[end].filed, filed) {
            series := series[end := FiledFact(unit, period)];
          }
        case NineMonth(start, _, _, _) => nineMonth := nineMonth[start := period];
        case Annual(_, _, _, _) => annual := annual + [period];
      }
    }
    assert ps[..|rows|] == ps;
  }

  /** The last pass over the annual rows fills in missing fourth quarters. */
  method AddDerived(unit: string, filed: Series, nineMonth: map<string, Period>, annual: seq<Period>) returns (series: Series)
    requires forall start :: start in nineMonth ==> nineMonth[start].NineMonth?
    requires forall i :: 0 <= i < |annual| ==> annual[i].Annual?
    ensures series == WithDerived(unit, filed, annual, nineMonth)
  {
    series := filed;
    for n := 0 to |annual|
      invariant series == WithDerived(unit, filed, annual[..n], nineMonth)
    {
      var year := annual[n];
      OneMoreDerived(unit, filed, annual, nineMonth, n);
      if year.start in nineMonth && year.end !in series {
        series := series[year.end := DerivedFact(unit, year, nineMonth[year.start])];
      }
    }
    assert annual[..|annual|] == annual;
  }

  method BuildSeries(unit: string, rows: seq<Row>) returns (series: Series)
    ensures series == SeriesOf(unit, rows)
  {
    var filed, nineMonth, annual := SplitRows(unit, rows);
    FilterMembers(IsAnnual, Map(Read, rows));
    assert forall i :: 0 <= i < |annual| ==> annual[i] in annual;
    series := AddDerived(unit, filed, nineMonth, annual);
    OnlyAnnualRowsDerive(unit, filed, Map(Read, rows), nineMonth);
  }

  // ---- what a series holds

  /** Row `i` is the quarter row with the greatest `filed` for its end; of equals, the last. */
  ghost predicate IsLatestFiling(ps: seq<Period>, i: nat) {
    && i < |ps| && ps[i].Quarter?
    && forall j :: 0 <= j < |ps| && ps[j].Quarter? && ps[j].end == ps[i].end ==>
         TextLeq(ps[j].filed, ps[i].filed) && (j > i ==> ps[j].filed != ps[i].filed)
  }

  ghost predicate HasQuarter(ps: seq<Period>, end: string) {
    exists i :: 0 <= i < |ps| && ps[i].Quarter? && ps[i].end == end
  }

  ghost predicate SaysWhatIsFiled(unit: string, p: Period, fact: Fact)
    requires p.Quarter?
  {
    && fact.start == p.start && fact.end == p.end && fact.val == p.val && fact.filed == p.filed
    && fact.unit == unit && !fact.derived
  }

  ghost predicate HoldsLatestFiling(unit: string, ps: seq<Period>, fact: Fact) {
    exists i: nat :: IsLatestFiling(ps, i) && SaysWhatIsFiled(unit, ps[i], fact)
  }

  lemma {:induction false} FiledQuarters(unit: string, ps: seq<Period>, end: string)
    ensures end in Quarters(unit, ps) <==> HasQuarter(ps, end)
    ensures end in Quarters(unit, ps) ==>
              Quarters(unit, ps)[end].end == end && HoldsLatestFiling(unit, ps, Quarters(unit, ps)[end])
  {
    if ps != [] {
      var m := |ps| - 1;
      FiledQuarters(unit, ps[..m], end);
      assert forall i :: 0 <= i < m ==> ps[..m][i] == ps[i];
      if ps[m].Quarter? && ps[m].end == end {
        NewFilingWins(unit, ps, end);
      } else if end in Quarters(unit, ps[..m]) {
        var i: nat :| IsLatestFiling(ps[..m], i) && SaysWhatIsFiled(unit, ps[..m][i], Quarters(unit, ps[..m])[end]);
        assert IsLatestFiling(ps, i);
      }
    }
  }

  lemma NewFilingWins(unit: string, ps: seq<Period>, end: string)
    requires ps != [] && ps[|ps| - 1].Quarter? && ps[|ps| - 1].end == end
    requires end in Quarters(unit, ps[..|ps| - 1]) <==> HasQuarter(ps[..|ps| - 1], end)
    requires end in Quarters(unit, ps[..|ps| - 1]) ==>
               && Quarters(unit, ps[..|ps| - 1])[end].end == end
               && HoldsLatestFiling(unit, ps[..|ps| - 1], Quarters(unit, ps[..|ps| - 1])[end])
    ensures end in Quarters(unit, ps) && Quarters(unit, ps)[end].end == end
    ensures HoldsLatestFiling(unit, ps, Quarters(unit, ps)[end])
  {
    TextLeqIsOrder();
    var m := |ps| - 1;
    var before := Quarters(unit, ps[..m]);
    assert forall i :: 0 <= i < m ==> ps[..m][i] == ps[i];
    if end in before {
      var i: nat :| IsLatestFiling(ps[..m], i) && SaysWhatIsFiled(unit, ps[..m][i], before[end]);
      if TextLeq(before[end].filed, ps[m].filed) {
        assert IsLatestFiling(ps, m);
      } else {
        assert IsLatestFiling(ps, i);
      }
    } else {
      assert IsLatestFiling(ps, m);
    }
  }

  /** Row `j` is the last nine-month row with its start. */
  ghost predicate IsLastNineMonth(ps: seq<Period>, j: nat) {
    && j < |ps| && ps[j].NineMonth?
    && forall k :: j < k < |ps| && ps[k].NineMonth? ==> ps[k].start != ps[j].start
  }

  lemma {:induction false} NineMonthRows(ps: seq<Period>, start: string)
    ensures start in NineMonths(ps) <==> HasNineMonth(ps, start)
    ensures start in NineMonths(ps) ==>
              exists j: nat :: IsLastNineMonth(ps, j) && ps[j].start == start && NineMonths(ps)[start] == ps[j]
  {
    if ps != [] {
      var m := |ps| - 1;
      NineMonthRows(ps[..m], start);
      assert forall i :: 0 <= i < m ==> ps[..m][i] == ps[i];
      if ps[m].NineMonth? && ps[m].start == start {
        assert IsLastNineMonth(ps, m);
      } else if start in NineMonths(ps[..m]) {
        var j: nat :| IsLastNineMonth(ps[..m], j) && ps[..m][j].start == start && NineMonths(ps[..m])[start] == ps[..m][j];
        assert IsLastNineMonth(ps, j);
      }
    }
  }

  /** Row `k` is the first that can give a fourth quarter ending on `end`. */
  ghost predicate IsFirstDerivable(ps: seq<Period>, nine: map<string, Period>, end: string, k: nat) {
    k < |ps| && Derivable(ps[k], nine, end) && forall l :: 0 <= l < k ==> !Derivable(ps[l], nine, end)
  }

  lemma {:induction false} DerivedOnlyFillsGaps(unit: string, series: Series, ps: seq<Period>, nine: map<string, Period>, end: string)
    requires forall start :: start in nine ==> nine[start].NineMonth?
    ensures var all := WithDerived(unit, series, ps, nine);
            && (end in series ==> end in all && all[end] == series[end])
            && (end !in series && end in all ==>
                  exists k: nat :: IsFirstDerivable(ps, nine, end, k) && all[end] == DerivedFact(unit, ps[k], nine[ps[k].start]))
            && (end !in all ==> forall k :: 0 <= k < |ps| ==> !Derivable(ps[k], nine, end))
  {
    if ps != [] {
      var m := |ps| - 1;
      var before := WithDerived(unit, series, ps[..m], nine);
      DerivedOnlyFillsGaps(unit, series, ps[..m], nine, end);
      assert forall i :: 0 <= i < m ==> ps[..m][i] == ps[i];
      if end !in series && end in before {
        var k: nat :| IsFirstDerivable(ps[..m], nine, end, k) && before[end] == DerivedFact(unit, ps[..m][k], nine[ps[..m][k].start]);
        assert IsFirstDerivable(ps, nine, end, k);
      } else if end !in series && Derivable(ps[m], nine, end) {
        assert IsFirstDerivable(ps, nine, end, m);
      }
    }
  }

  ghost predicate HasNineMonth(ps: seq<Period>, start: string) {
    exists j :: 0 <= j < |ps| && ps[j].NineMonth? && ps[j].start == start
  }

  /**
   A derived quarter: annual less nine-month for one start. The annual row is the first of its end
   for which a nine-month row exists; the nine-month row is the last of its start.
   */
  ghost predicate IsDerivedFrom(unit: string, ps: seq<Period>, i: nat, j: nat, fact: Fact) {
    && i < |ps| && ps[i].Annual? && IsLastNineMonth(ps, j) && ps[i].start == ps[j].start
    && fact.val + ps[j].val == ps[i].val && fact.start == ps[j].end && fact.end == ps[i].end
    && fact.filed == ps[i].filed && fact.unit == unit && fact.derived
    && forall l :: 0 <= l < i && ps[l].Annual? && ps[l].end == fact.end ==> !HasNineMonth(ps, ps[l].start)
  }

  ghost predicate HoldsDerived(unit: string, ps: seq<Period>, fact: Fact) {
    exists i: nat, j: nat :: IsDerivedFrom(unit, ps, i, j, fact)
  }

  ghost predicate Leaves(ps: seq<Period>, i: nat, j: nat, end: string)
    requires i < |ps| && j < |ps|
  {
    ps[i].Annual? && ps[j].NineMonth? && ps[i].start == ps[j].start && ps[i].end == end
  }

  ghost predicate HasDerivable(ps: seq<Period>, end: string) {
    exists i, j :: 0 <= i < |ps| && 0 <= j < |ps| && Leaves(ps, i, j, end)
  }

  lemma DerivedEnds(unit: string, ps: seq<Period>, end: string)
    requires end !in Quarters(unit, ps)
    ensures end in WithDerived(unit, Quarters(unit, ps), ps, NineMonths(ps)) <==> HasDerivable(ps, end)
  {
    var nine := NineMonths(ps);
    DerivedOnlyFillsGaps(unit, Quarters(unit, ps), ps, nine, end);
    if end in WithDerived(unit, Quarters(unit, ps), ps, nine) {
      var k: nat :| IsFirstDerivable(ps, nine, end, k);
      NineMonthRows(ps, ps[k].start);
      var j: nat :| IsLastNineMonth(ps, j) && ps[j].start == ps[k].start;
      assert Leaves(ps, k, j, end);
    }
    if HasDerivable(ps, end) {
      var i, j :| 0 <= i < |ps| && 0 <= j < |ps| && Leaves(ps, i, j, end);
      NineMonthRows(ps, ps[i].start);
      assert Derivable(ps[i], nine, end);
    }
  }

  lemma DerivedContent(unit: string, ps: seq<Period>, end: string)
    requires end !in Quarters(unit, ps)
    ensures var all := WithDerived(unit, Quarters(unit, ps), ps, NineMonths(ps));
            end in all ==> all[end].end == end && HoldsDerived(unit, ps, all[end])
  {
    var nine := NineMonths(ps);
    var all := WithDerived(unit, Quarters(unit, ps), ps, nine);
    DerivedOnlyFillsGaps(unit, Quarters(unit, ps), ps, nine, end);
    if end in all {
      var k: nat :| IsFirstDerivable(ps, nine, end, k) && all[end] == DerivedFact(unit, ps[k], nine[ps[k].start]);
      NineMonthRows(ps, ps[k].start);
      var j: nat :| IsLastNineMonth(ps, j) && ps[j].start == ps[k].start && nine[ps[k].start] == ps[j];
      forall l | 0 <= l < k && ps[l].Annual? && ps[l].end == end ensures !HasNineMonth(ps, ps[l].start) {
        NineMonthRows(ps, ps[l].start);
        assert !Derivable(ps[l], nine, end);
      }
      assert IsDerivedFrom(unit, ps, k, j, all[end]);
    }
  }

  lemma PeriodContent(unit: string, ps: seq<Period>, end: string)
    ensures var all := WithDerived(unit, Quarters(unit, ps), ps, NineMonths(ps));
            && (end in all <==> HasQuarter(ps, end) || HasDerivable(ps, end))
            && (end in all ==>
                  && all[end].end == end
                  && (HasQuarter(ps, end) ==> HoldsLatestFiling(unit, ps, all[end]))
                  && (!HasQuarter(ps, end) ==> HoldsDerived(unit, ps, all[end])))
  {
    FiledQuarters(unit, ps, end);
    DerivedOnlyFillsGaps(unit, Quarters(unit, ps), ps, NineMonths(ps), end);
    if !HasQuarter(ps, end) {
      DerivedEnds(unit, ps, end);
      DerivedContent(unit, ps, end);
    }
  }

  // ---- the same, on the rows

  /** The row states a value for `least` to `most` days between two days. */
  ghost predicate Lasts(row: Row, least: int, most: int) {
    && row.start.Some? && row.end.Some? && row.val.Some?
    && IsCanonicalDay(row.start.value) && IsCanonicalDay(row.end.value)
    && least <= DayNumber(row.end.value) - DayNumber(row.start.value) <= most
  }

  lemma PeriodsByLength(row: Row)
    ensures Read(row).Quarter? <==> Lasts(row, 80, 100)
    ensures Read(row).NineMonth? <==> Lasts(row, 260, 285)
    ensures Read(row).Annual? <==> Lasts(row, 350, 380)
    ensures var p := Read(row);
            !p.Skipped? ==> row.start == Some(p.start) && row.end == Some(p.end) && row.val == Some(p.val) && row.filed == p.filed
  {
  }

  /** A quarter filed for `end`: 80 to 100 days. */
  ghost predicate IsQuarterRow(row: Row, end: string) { Lasts(row, 80, 100) && row.end == Some(end) }

  /** An annual row and a nine-month row of one start, which leave the quarter that ends on `end`. */
  ghost predicate LeavesQuarter(year: Row, ytd: Row, end: string) {
    Lasts(year, 350, 380) && Lasts(ytd, 260, 285) && year.start == ytd.start && year.end == Some(end)
  }

  /** The fact of the quarter row filed last; of rows filed on one day, the last read. */
  ghost predicate IsFromLatestFiling(unit: string, rows: seq<Row>, end: string, fact: Fact) {
    exists i :: 0 <= i < |rows| && IsQuarterRow(rows[i], end)
      && fact == Fact(rows[i].start.value, end, rows[i].val.value, rows[i].filed, unit, false)
      && forall j :: 0 <= j < |rows| && IsQuarterRow(rows[j], end) ==>
           TextLeq(rows[j].filed, rows[i].filed) && (j > i ==> rows[j].filed != rows[i].filed)
  }

  ghost predicate NoEarlierRowLeaves(rows: seq<Row>, i: nat, j: nat, end: string)
    requires i < |rows|
  {
    && (forall k :: j < k < |rows| ==> !LeavesQuarter(rows[i], rows[k], end))
    && (forall l, k :: 0 <= l < i && 0 <= k < |rows| ==> !LeavesQuarter(rows[l], rows[k], end))
  }

  /**
   What the annual row leaves after the nine-month row: it starts where that row ends, and its value
   and that row's add up to the annual value. The annual row is the first of its end that has a
   nine-month row, which is the last read of its start.
   */
  ghost predicate IsRemainder(unit: string, rows: seq<Row>, i: nat, j: nat, end: string, fact: Fact) {
    && i < |rows| && j < |rows| && LeavesQuarter(rows[i], rows[j], end) && NoEarlierRowLeaves(rows, i, j, end)
    && rows[j].end == Some(fact.start) && fact.end == end
    && fact.val + rows[j].val.value == rows[i].val.value
    && fact.filed == rows[i].filed && fact.unit == unit && fact.derived
  }

  lemma FiledOnRows(unit: string, rows: seq<Row>, end: string, fact: Fact)
    requires HoldsLatestFiling(unit, Map(Read, rows), fact) && fact.end == end
    ensures IsFromLatestFiling(unit, rows, end, fact)
  {
    var ps := Map(Read, rows);
    var i: nat :| IsLatestFiling(ps, i) && SaysWhatIsFiled(unit, ps[i], fact);
    PeriodsByLength(rows[i]);
    forall j | 0 <= j < |rows| && IsQuarterRow(rows[j], end)
      ensures TextLeq(rows[j].filed, rows[i].filed) && (j > i ==> rows[j].filed != rows[i].filed)
    {
      PeriodsByLength(rows[j]);
      assert ps[j].Quarter? && ps[j].end == ps[i].end;
    }
    assert IsQuarterRow(rows[i], end);
  }

  lemma LeavesOnRows(rows: seq<Row>, i: nat, j: nat, end: string)
    requires i < |rows| && j < |rows|
    ensures Leaves(Map(Read, rows), i, j, end) <==> LeavesQuarter(rows[i], rows[j], end)
  {
    PeriodsByLength(rows[i]);
    PeriodsByLength(rows[j]);
  }

  lemma NoEarlierPair(ps: seq<Period>, i: nat, j: nat, end: string, l: nat, k: nat)
    requires i < |ps| && l < |ps| && k < |ps| && IsLastNineMonth(ps, j) && Leaves(ps, i, j, end)
    requires forall m :: 0 <= m < i && ps[m].Annual? && ps[m].end == end ==> !HasNineMonth(ps, ps[m].start)
    requires (l == i && j < k) || l < i
    ensures !Leaves(ps, l, k, end)
  {
    if Leaves(ps, l, k, end) && l < i { assert HasNineMonth(ps, ps[l].start); }
  }

  lemma NoEarlierOnRows(unit: string, rows: seq<Row>, i: nat, j: nat, fact: Fact)
    requires IsDerivedFrom(unit, Map(Read, rows), i, j, fact)
    ensures NoEarlierRowLeaves(rows, i, j, fact.end)
  {
    forall l, k | 0 <= l < |rows| && 0 <= k < |rows| && ((l == i && j < k) || l < i)
      ensures !LeavesQuarter(rows[l], rows[k], fact.end)
    {
      NoEarlierPair(Map(Read, rows), i, j, fact.end, l, k);
      LeavesOnRows(rows, l, k, fact.end);
    }
  }

  lemma DerivedOnRows(unit: string, rows: seq<Row>, fact: Fact, i: nat, j: nat)
    ensures IsDerivedFrom(unit, Map(Read, rows), i, j, fact) ==> IsRemainder(unit, rows, i, j, fact.end, fact)
  {
    var ps := Map(Read, rows);
    if IsDerivedFrom(unit, ps, i, j, fact) {
      assert Leaves(ps, i, j, fact.end);
      LeavesOnRows(rows, i, j, fact.end);
      NoEarlierOnRows(unit, rows, i, j, fact);
      PeriodsByLength(rows[i]);
      PeriodsByLength(rows[j]);
    }
  }

  ghost predicate IsFiled(rows: seq<Row>, end: string) {
    exists i :: 0 <= i < |rows| && IsQuarterRow(rows[i], end)
  }

  ghost predicate IsLeft(rows: seq<Row>, end: string) {
    exists i, j :: 0 <= i < |rows| && 0 <= j < |rows| && LeavesQuarter(rows[i], rows[j], end)
  }

  lemma FiledEnds(rows: seq<Row>, end: string)
    ensures HasQuarter(Map(Read, rows), end) <==> IsFiled(rows, end)
  {
    var ps := Map(Read, rows);
    forall i | 0 <= i < |rows| ensures ps[i].Quarter? && ps[i].end == end <==> IsQuarterRow(rows[i], end) {
      PeriodsByLength(rows[i]);
    }
  }

  lemma LeftEnds(rows: seq<Row>, end: string)
    ensures HasDerivable(Map(Read, rows), end) <==> IsLeft(rows, end)
  {
    var ps := Map(Read, rows);
    if HasDerivable(ps, end) {
      var i, j :| 0 <= i < |ps| && 0 <= j < |ps| && Leaves(ps, i, j, end);
      LeavesOnRows(rows, i, j, end);
    }
    if IsLeft(rows, end) {
      var i, j :| 0 <= i < |rows| && 0 <= j < |rows| && LeavesQuarter(rows[i], rows[j], end);
      LeavesOnRows(rows, i, j, end);
    }
  }

  /**
   The whole content of a series: it has the ends of the quarter rows, holding the latest filing, and
   the ends that an annual and a nine-month row leave, holding the remainder.
   */
  lemma SeriesContent(unit: string, rows: seq<Row>, end: string)
    ensures end in SeriesOf(unit, rows) <==> IsFiled(rows, end) || IsLeft(rows, end)
    ensures IsFiled(rows, end) ==> IsFromLatestFiling(unit, rows, end, SeriesOf(unit, rows)[end])
    ensures !IsFiled(rows, end) && IsLeft(rows, end) ==>
              exists i, j :: IsRemainder(unit, rows, i, j, end, SeriesOf(unit, rows)[end])
  {
    PeriodContent(unit, Map(Read, rows), end);
    FiledEnds(rows, end);
    LeftEnds(rows, end);
    if IsFiled(rows, end) {
      FiledOnRows(unit, rows, end, SeriesOf(unit, rows)[end]);
    } else if IsLeft(rows, end) {
      var fact := SeriesOf(unit, rows)[end];
      var i: nat, j: nat :| IsDerivedFrom(unit, Map(Read, rows), i, j, fact);
      DerivedOnRows(unit, rows, fact, i, j);
    }
  }

  ghost predicate IsKeyedByDay(series: Series) {
    forall end :: end in series ==> IsCanonicalDay(end)
  }

  lemma DayKeysAreNotEmpty(series: Series)
    requires IsKeyedByDay(series)
    ensures "" !in series
  {
    assert forall end :: end in series ==> |end| == 10;
  }

  lemma EndsComeFromPeriods(unit: string, ps: seq<Period>, end: string)
    requires end in WithDerived(unit, Quarters(unit, ps), ps, NineMonths(ps))
    ensures exists i :: 0 <= i < |ps| && !ps[i].Skipped? && ps[i].end == end
  {
    PeriodContent(unit, ps, end);
  }

  lemma SeriesEndsAreCanonical(unit: string, rows: seq<Row>)
    ensures IsKeyedByDay(SeriesOf(unit, rows))
  {
    forall end | end in SeriesOf(unit, rows) ensures IsCanonicalDay(end) {
      var ps := Map(Read, rows);
      EndsComeFromPeriods(unit, ps, end);
      var i :| 0 <= i < |ps| && !ps[i].Skipped? && ps[i].end == end;
      assert ps[i] == Read(rows[i]);
    }
  }

  // ---- the most recent series

  ghost predicate IsLatestEnd(series: Series, end: string) {
    end in series && forall other :: other in series ==> TextLeq(other, end)
  }

  method LatestEnd(series: Series) returns (end: string)
    requires series != map[]
    ensures IsLatestEnd(series, end)
  {
    TextLeqIsOrder();
    var left := series.Keys;
    end :| end in series;
    left := left - {end};
    while left != {}
      invariant left <= series.Keys && end in series
      invariant forall other :: other in series && other !in left ==> TextLeq(other, end)
    {
      var next :| next in left;
      if TextLess(end, next) { end := next; }
      left := left - {next};
    }
  }

  predicate Qualifies(series: Series) { |series| >= 5 }

  datatype Best = NoSeries | Best(tag: string, series: Series)

  /** The first series, in reading order, whose latest end is the greatest text among those of at least five quarters. */
  method LatestByText(all: seq<(string, Series)>) returns (best: Best, ghost at: nat, ghost bestEnd: string)
    requires forall u :: 0 <= u < |all| ==> "" !in all[u].1
    ensures best.NoSeries? <==> forall u :: 0 <= u < |all| ==> !Qualifies(all[u].1)
    ensures best.Best? ==>
              && at < |all| && (best.tag, best.series) == all[at] && Qualifies(best.series) && IsLatestEnd(best.series, bestEnd)
              && forall u, end :: 0 <= u < |all| && Qualifies(all[u].1) && end in all[u].1 ==>
                   TextLeq(end, bestEnd) && (u < at ==> end != bestEnd)
  {
    TextLeqIsOrder();
    best, at := NoSeries, 0;
    var latest := "";
    for n := 0 to |all|
      invariant best.NoSeries? ==> latest == ""
      invariant best.NoSeries? <==> forall u :: 0 <= u < n ==> !Qualifies(all[u].1)
      invariant best.Best? ==>
                  && at < n && (best.tag, best.series) == all[at] && Qualifies(best.series) && IsLatestEnd(best.series, latest)
                  && forall u, end :: 0 <= u < n && Qualifies(all[u].1) && end in all[u].1 ==>
                       TextLeq(end, latest) && (u < at ==> end != latest)
    {
      var series := all[n].1;
      if |series| >= 5 {
        var end := LatestEnd(series);
        if TextLess(latest, end) { best, latest, at := Best(all[n].0, series), end, n; }
      }
    }
    bestEnd := latest;
  }

  /** Every end of `other` is on or before the last day of `series`. */
  ghost predicate IsNoLaterThan(other: Series, series: Series) {
    exists last :: IsLatestEnd(series, last) && IsCanonicalDay(last)
                   && forall end :: end in other ==> IsCanonicalDay(end) && DayNumber(end) <= DayNumber(last)
  }

  lemma NoLaterByText(other: Series, series: Series, last: string)
    requires IsLatestEnd(series, last) && IsKeyedByDay(series)
    requires IsKeyedByDay(other) && forall end :: end in other ==> TextLeq(end, last)
    ensures IsNoLaterThan(other, series)
  {
    forall end | end in other ensures DayNumber(end) <= DayNumber(last) {
      CanonicalTextSortsInDayOrder(end, last);
    }
  }

  function UnitSeries(u: UnitRows): Series { SeriesOf(u.unit, u.rows) }

  method MostRecentSeries(units: seq<UnitRows>) returns (best: Best, ghost at: nat)
    ensures best.NoSeries? <==> forall u :: 0 <= u < |units| ==> !Qualifies(UnitSeries(units[u]))
    ensures best.Best? ==>
              && at < |units| && best.tag == units[at].tag && best.series == UnitSeries(units[at]) && Qualifies(best.series)
              && (forall u :: 0 <= u < |units| && Qualifies(UnitSeries(units[u])) ==> IsNoLaterThan(UnitSeries(units[u]), best.series))
  {
    var all: seq<(string, Series)> := [];
    for n := 0 to |units|
      invariant |all| == n
      invariant forall u :: 0 <= u < n ==> all[u] == (units[u].tag, UnitSeries(units[u]))
      invariant forall u :: 0 <= u < n ==> IsKeyedByDay(all[u].1) && "" !in all[u].1
    {
      var series := BuildSeries(units[n].unit, units[n].rows);
      SeriesEndsAreCanonical(units[n].unit, units[n].rows);
      DayKeysAreNotEmpty(series);
      all := all + [(units[n].tag, series)];
    }
    ghost var bestEnd;
    best, at, bestEnd := LatestByText(all);
    if best.Best? {
      forall u | 0 <= u < |units| && Qualifies(UnitSeries(units[u]))
        ensures IsNoLaterThan(UnitSeries(units[u]), best.series)
      {
        assert all[u].1 == UnitSeries(units[u]);
        NoLaterByText(UnitSeries(units[u]), best.series, bestEnd);
      }
    }
  }
}
