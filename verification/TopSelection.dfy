/**
 The Top20 pick of the bottleneck ranking: scored companies are sorted by score (then by
 symbol) and taken greedily, at most `TOP_N` in all and at most `MAX_PER_LAYER` of a layer.

 The main result is that this greedy pick cannot be beaten: any other pick under the two
 caps, listed from its best score down, is no longer and is no better in any position.
 */
module TopSelection {
  import opened Ordering

  const TOP_N: nat := 20
  const MAX_PER_LAYER: nat := 5

  /** `score` is in tenths: the program rounds a company's score to one decimal. */
  datatype Company = Company(symbol: string, layer: string, score: nat)

  /** The sort key: the higher score first, then the smaller symbol. */
  predicate RanksBefore(a: Company, b: Company) {
    a.score > b.score || (a.score == b.score && TextLeq(a.symbol, b.symbol))
  }

  lemma RanksBeforeIsPreorder()
    ensures IsTotalPreorder(RanksBefore)
  {
    TextLeqIsOrder();
  }

  function InLayer(s: seq<Company>, layer: string): nat {
    if s == [] then 0 else InLayer(s[..|s| - 1], layer) + (if s[|s| - 1].layer == layer then 1 else 0)
  }

  lemma InLayerAppend(s: seq<Company>, c: Company)
    ensures forall layer :: InLayer(s + [c], layer) == InLayer(s, layer) + if c.layer == layer then 1 else 0
  {
    assert (s + [c])[..|s|] == s;
  }

  predicate Admits(taken: seq<Company>, c: Company) {
    |taken| < TOP_N && InLayer(taken, c.layer) < MAX_PER_LAYER
  }

  /** The caps every pick has to meet. */
  ghost predicate WithinCaps(pick: seq<Company>) {
    |pick| <= 20 && forall layer :: InLayer(pick, layer) <= 5
  }

  ghost predicate Descending(s: seq<Company>) {
    forall i, j :: 0 <= i < j < |s| ==> s[i].score >= s[j].score
  }

  /** `pick` is no longer than `top`, and its k-th score is at most the k-th score of `top`. */
  ghost predicate IsNoBetter(pick: seq<Company>, top: seq<Company>) {
    |pick| <= |top| && forall k :: 0 <= k < |pick| ==> pick[k].score <= top[k].score
  }

  /** A higher score, or the same score and no later symbol. */
  ghost predicate IsAhead(a: Company, b: Company) {
    a.score > b.score || (a.score == b.score && TextLeq(a.symbol, b.symbol))
  }

  /** What the loop has taken after reading `scored`. */
  function Taken(scored: seq<Company>): seq<Company> {
    if scored == [] then []
    else
      var before := Taken(scored[..|scored| - 1]);
      var c := scored[|scored| - 1];
      if Admits(before, c) then before + [c] else before
  }

  /** What the loop has put aside after reading `scored`. */
  function PassedOver(scored: seq<Company>): seq<Company> {
    if scored == [] then []
    else
      var before := PassedOver(scored[..|scored| - 1]);
      var c := scored[|scored| - 1];
      if Admits(Taken(scored[..|scored| - 1]), c) then before else before + [c]
  }

  lemma OneMoreCompany(scored: seq<Company>, n: nat)
    requires n < |scored|
    ensures Taken(scored[..n + 1]) ==
            Taken(scored[..n]) + if Admits(Taken(scored[..n]), scored[n]) then [scored[n]] else []
    ensures PassedOver(scored[..n + 1]) ==
            PassedOver(scored[..n]) + if Admits(Taken(scored[..n]), scored[n]) then [] else [scored[n]]
  {
    assert scored[..n + 1][..n] == scored[..n];
  }

  lemma {:induction false} TakenAndPassedOverPartition(scored: seq<Company>)
    ensures multiset(Taken(scored)) + multiset(PassedOver(scored)) == multiset(scored)
  {
    if scored != [] {
      TakenAndPassedOverPartition(scored[..|scored| - 1]);
      assert scored == scored[..|scored| - 1] + [scored[|scored| - 1]];
    }
  }

  lemma {:induction false} TakenIsWithinCaps(scored: seq<Company>)
    ensures WithinCaps(Taken(scored))
  {
    if scored != [] {
      var shorter, c := scored[..|scored| - 1], scored[|scored| - 1];
      TakenIsWithinCaps(shorter);
      InLayerAppend(Taken(shorter), c);
    }
  }

  method SelectTop(scored: seq<Company>) returns (top: seq<Company>, overflow: seq<Company>)
    ensures top == Taken(scored) && overflow == PassedOver(scored)
  {
    top, overflow := [], [];
    var perLayer: map<string, nat> := map[];
    for n := 0 to |scored|
      invariant top == Taken(scored[..n])
      invariant forall l :: (if l in perLayer then perLayer[l] else 0) == InLayer(top, l)
      invariant overflow == PassedOver(scored[..n])
    {
      var company := scored[n];
      var held := if company.layer in perLayer then perLayer[company.layer] else 0;
      OneMoreCompany(scored, n);
      assert held == InLayer(top, company.layer);
      if |top| < TOP_N && held < MAX_PER_LAYER {
        InLayerAppend(top, company);
        top := top + [company];
        perLayer := perLayer[company.layer := held + 1];
      } else {
        overflow := overflow + [company];
      }
    }
    assert scored[..|scored|] == scored;
  }

  /** The tail of `build`: sort, then select. A company's rank is its place in `top`, from 1. */
  method RankCompanies(companies: seq<Company>) returns (top: seq<Company>, overflow: seq<Company>)
    ensures top == Taken(SortBy(RanksBefore, companies))
    ensures multiset(top) + multiset(overflow) == multiset(companies)
    ensures WithinCaps(top) && Descending(top)
    ensures forall i, j :: 0 <= i < j < |top| ==> IsAhead(top[i], top[j])
    ensures forall x, y :: x in overflow && y in top && x.layer == y.layer ==> IsAhead(y, x)
    ensures forall pick: seq<Company> ::
              multiset(pick) <= multiset(companies) && WithinCaps(pick) && Descending(pick) ==> IsNoBetter(pick, top)
  {
    var scored := SortBy(RanksBefore, companies);
    SortedIsDescending(companies);
    top, overflow := SelectTop(scored);
    TakenAndPassedOverPartition(scored);
    TakenIsWithinCaps(scored);
    TakenIsSubsequence(scored);
    SortIsSortedPermutation(RanksBefore, companies);
    RanksBeforeIsPreorder();
    TakenInOrder(scored);
    NobodyOvertakesInALayer(scored);
    forall pick: seq<Company> | multiset(pick) <= multiset(companies) && WithinCaps(pick) && Descending(pick)
      ensures IsNoBetter(pick, top)
    {
      GreedyIsBest(scored, pick);
    }
  }

  // ---- what the greedy pick keeps

  lemma {:induction false} TakenIsSubsequence(scored: seq<Company>)
    ensures Descending(scored) ==> Descending(Taken(scored))
    ensures forall c :: c in Taken(scored) ==> c in scored
  {
    if scored != [] {
      var shorter, c := scored[..|scored| - 1], scored[|scored| - 1];
      TakenIsSubsequence(shorter);
      assert scored == shorter + [c];
      if Descending(scored) && Admits(Taken(shorter), c) {
        assert Descending(shorter);
        forall i | 0 <= i < |Taken(shorter)| ensures Taken(shorter)[i].score >= c.score {
          assert Taken(shorter)[i] in shorter;
          var j :| 0 <= j < |shorter| && shorter[j] == Taken(shorter)[i];
          assert scored[j].score >= scored[|shorter|].score;
        }
      }
    }
  }

  /** The pick keeps the order of the list, in which the symbol decides equal scores. */
  lemma {:induction false} TakenInOrder(scored: seq<Company>)
    requires IsSorted(RanksBefore, scored)
    ensures forall i, j :: 0 <= i < j < |Taken(scored)| ==> IsAhead(Taken(scored)[i], Taken(scored)[j])
  {
    if scored != [] {
      var shorter, c := scored[..|scored| - 1], scored[|scored| - 1];
      TakenInOrder(shorter);
      TakenIsSubsequence(shorter);
      forall i | 0 <= i < |Taken(shorter)| ensures IsAhead(Taken(shorter)[i], c) {
        assert Taken(shorter)[i] in shorter;
        var j :| 0 <= j < |shorter| && shorter[j] == Taken(shorter)[i];
        assert RanksBefore(scored[j], scored[|shorter|]);
      }
    }
  }

  lemma {:induction false} PassedOverMeansFull(scored: seq<Company>, x: Company)
    requires x in PassedOver(scored)
    ensures x in scored && !Admits(Taken(scored), x)
  {
    var shorter, c := scored[..|scored| - 1], scored[|scored| - 1];
    if x in PassedOver(shorter) {
      PassedOverMeansFull(shorter, x);
      InLayerAppend(Taken(shorter), c);
    }
  }

  /** Nobody is passed over for a company of the same layer that ranks after it. */
  lemma {:induction false} NobodyOvertakesInALayer(scored: seq<Company>)
    requires IsSorted(RanksBefore, scored)
    ensures forall x, y :: x in PassedOver(scored) && y in Taken(scored) && x.layer == y.layer ==> IsAhead(y, x)
  {
    if scored != [] {
      var shorter, c := scored[..|scored| - 1], scored[|scored| - 1];
      NobodyOvertakesInALayer(shorter);
      TakenIsSubsequence(shorter);
      forall y | y in Taken(shorter) ensures IsAhead(y, c) {
        var j :| 0 <= j < |shorter| && shorter[j] == y;
        assert RanksBefore(scored[j], scored[|shorter|]);
      }
      forall x | x in PassedOver(shorter) ensures !Admits(Taken(shorter), x) { PassedOverMeansFull(shorter, x); }
    }
  }

  lemma {:induction false} TakenGrows(scored: seq<Company>, n: nat)
    requires n <= |scored|
    ensures Taken(scored[..n]) <= Taken(scored)
    decreases |scored|
  {
    if n < |scored| {
      var shorter := scored[..|scored| - 1];
      TakenGrows(shorter, n);
      assert shorter[..n] == scored[..n];
    } else {
      assert scored[..n] == scored;
    }
  }

  /** Until the total cap is reached, a layer is only short when the input has no more of it. */
  lemma {:induction false} LayerIsFilled(scored: seq<Company>, layer: string)
    requires |Taken(scored)| < 20
    ensures InLayer(Taken(scored), layer) == if InLayer(scored, layer) < 5 then InLayer(scored, layer) else 5
  {
    if scored != [] {
      var shorter, c := scored[..|scored| - 1], scored[|scored| - 1];
      var before := Taken(shorter);
      LayerIsFilled(shorter, layer);
      if Admits(before, c) { InLayerAppend(before, c); }
    }
  }

  // ---- counting by layer

  function Layers(s: seq<Company>): (r: seq<string>)
    ensures |r| == |s|
  {
    if s == [] then [] else Layers(s[..|s| - 1]) + [s[|s| - 1].layer]
  }

  lemma {:induction false} LayersCount(s: seq<Company>, layer: string)
    ensures multiset(Layers(s))[layer] == InLayer(s, layer)
  {
    if s != [] { LayersCount(s[..|s| - 1], layer); }
  }

  lemma {:induction false} InLayerRemove(s: seq<Company>, i: nat, layer: string)
    requires i < |s|
    ensures InLayer(s, layer) == InLayer(s[..i] + s[i + 1..], layer) + if s[i].layer == layer then 1 else 0
  {
    var n := |s| - 1;
    if i < n {
      InLayerRemove(s[..n], i, layer);
      var rest := s[..i] + s[i + 1..];
      assert rest[..n - 1] == s[..n][..i] + s[..n][i + 1..];
      assert rest[n - 1] == s[n];
    } else {
      assert s[..i] + s[i + 1..] == s[..n];
    }
  }

  lemma {:induction false} InLayerMonotone(a: seq<Company>, b: seq<Company>, layer: string)
    requires multiset(a) <= multiset(b)
    ensures InLayer(a, layer) <= InLayer(b, layer)
  {
    if a != [] {
      var c := a[|a| - 1];
      assert a == a[..|a| - 1] + [c];
      assert multiset(a) == multiset(a[..|a| - 1]) + multiset{c};
      assert c in multiset(b);
      var i :| 0 <= i < |b| && b[i] == c;
      var rest := b[..i] + b[i + 1..];
      assert b == b[..i] + [c] + b[i + 1..];
      assert multiset(b) == multiset(rest) + multiset{c};
      assert multiset(rest) == multiset(b) - multiset{c};
      assert multiset(a[..|a| - 1]) == multiset(a) - multiset{c};
      InLayerMonotone(a[..|a| - 1], rest, layer);
      InLayerRemove(b, i, layer);
    }
  }

  lemma SubmultisetIsSmaller<T>(a: multiset<T>, b: multiset<T>)
    requires a <= b
    ensures |a| <= |b|
  {
    assert b == a + (b - a);
  }

  // ---- the greedy pick is best

  /** No pick under the caps from the same companies is longer. */
  lemma GreedyIsLongest(scored: seq<Company>, pick: seq<Company>)
    requires multiset(pick) <= multiset(scored) && WithinCaps(pick)
    ensures |pick| <= |Taken(scored)|
  {
    var taken := Taken(scored);
    if |taken| < TOP_N {
      forall layer ensures multiset(Layers(pick))[layer] <= multiset(Layers(taken))[layer] {
        LayersCount(pick, layer);
        LayersCount(taken, layer);
        InLayerMonotone(pick, scored, layer);
        LayerIsFilled(scored, layer);
        assert InLayer(pick, layer) <= MAX_PER_LAYER;
      }
      SubmultisetIsSmaller(multiset(Layers(pick)), multiset(Layers(taken)));
      assert |multiset(Layers(pick))| == |pick| && |multiset(Layers(taken))| == |taken|;
    }
  }

  /** The number of companies scoring at least `floor` in a descending list. */
  function AtLeast(scored: seq<Company>, floor: nat): (n: nat)
    ensures n <= |scored|
    ensures n < |scored| ==> scored[n].score < floor
    ensures forall i :: 0 <= i < n ==> scored[i].score >= floor
  {
    if scored == [] || scored[0].score < floor then 0 else 1 + AtLeast(scored[1..], floor)
  }

  lemma {:induction false} PrefixWithinCaps(pick: seq<Company>, n: nat)
    requires WithinCaps(pick) && n <= |pick|
    ensures WithinCaps(pick[..n])
  {
    assert pick == pick[..n] + pick[n..];
    forall layer ensures InLayer(pick[..n], layer) <= MAX_PER_LAYER {
      assert multiset(pick[..n]) <= multiset(pick);
      InLayerMonotone(pick[..n], pick, layer);
    }
  }

  /** The companies at or above a score all sit in the front of a descending list. */
  lemma HighScoresAreInFront(scored: seq<Company>, part: seq<Company>, floor: nat)
    requires Descending(scored) && multiset(part) <= multiset(scored)
    requires forall c :: c in part ==> c.score >= floor
    ensures multiset(part) <= multiset(scored[..AtLeast(scored, floor)])
  {
    var n := AtLeast(scored, floor);
    assert scored == scored[..n] + scored[n..];
    forall c ensures multiset(part)[c] <= multiset(scored[..n])[c] {
      if c in multiset(part) {
        assert c in part;
        assert forall j :: n <= j < |scored| ==> scored[j].score < floor;
        assert c !in scored[n..];
        assert multiset(scored[n..])[c] == 0;
      }
    }
  }

  lemma KthIsNoBetter(scored: seq<Company>, pick: seq<Company>, k: nat)
    requires Descending(scored) && k < |pick|
    requires multiset(pick) <= multiset(scored) && WithinCaps(pick) && Descending(pick)
    ensures k < |Taken(scored)| && pick[k].score <= Taken(scored)[k].score
  {
    var floor, part := pick[k].score, pick[..k + 1];
    var n := AtLeast(scored, floor);
    assert pick == part + pick[k + 1..];
    HighScoresAreInFront(scored, part, floor);
    PrefixWithinCaps(pick, k + 1);
    GreedyIsLongest(scored[..n], part);
    TakenGrows(scored, n);
    TakenIsSubsequence(scored[..n]);
    assert Taken(scored[..n])[k] in Taken(scored[..n]);
  }

  /** The k-th best of any pick under the caps is at most the k-th best of the greedy pick. */
  lemma GreedyIsBest(scored: seq<Company>, pick: seq<Company>)
    requires Descending(scored)
    requires multiset(pick) <= multiset(scored) && WithinCaps(pick) && Descending(pick)
    ensures IsNoBetter(pick, Taken(scored))
  {
    GreedyIsLongest(scored, pick);
    forall k | 0 <= k < |pick| ensures pick[k].score <= Taken(scored)[k].score { KthIsNoBetter(scored, pick, k); }
  }

  function Total(s: seq<Company>): nat {
    if s == [] then 0 else s[0].score + Total(s[1..])
  }

  lemma {:induction false} TotalDominates(a: seq<Company>, b: seq<Company>)
    requires IsNoBetter(a, b)
    ensures Total(a) <= Total(b)
  {
    if a != [] {
      assert forall k :: 0 <= k < |a[1..]| ==> a[1..][k].score <= b[1..][k].score;
      TotalDominates(a[1..], b[1..]);
    }
  }

  lemma {:induction false} TotalAppend(a: seq<Company>, b: seq<Company>)
    ensures Total(a + b) == Total(a) + Total(b)
  {
    if a == [] {
      assert a + b == b;
    } else {
      TotalAppend(a[1..], b);
      assert (a + b)[1..] == a[1..] + b;
    }
  }

  lemma {:induction false} TotalOfPermutation(a: seq<Company>, b: seq<Company>)
    requires multiset(a) == multiset(b)
    ensures Total(a) == Total(b)
  {
    if a == [] {
      assert |b| == |multiset(b)|;
    } else {
      var l, r := SplitAtHead(a, b);
      TotalOfPermutation(a[1..], l + r);
      TotalAppend(l, r);
      TotalAppend(l + [a[0]], r);
      TotalAppend(l, [a[0]]);
    }
  }

  lemma SortedIsDescending(companies: seq<Company>)
    ensures multiset(SortBy(RanksBefore, companies)) == multiset(companies) && Descending(SortBy(RanksBefore, companies))
  {
    var sorted := SortBy(RanksBefore, companies);
    SortIsSortedPermutation(RanksBefore, companies);
    RanksBeforeIsPreorder();
    forall i, j | 0 <= i < j < |sorted| ensures sorted[i].score >= sorted[j].score {
      assert RanksBefore(sorted[i], sorted[j]);
    }
  }

  /** So no set of the companies under the caps, in whatever order, has a larger total score. */
  lemma GreedyTotalIsLargest(scored: seq<Company>, pick: seq<Company>)
    requires Descending(scored)
    requires multiset(pick) <= multiset(scored) && WithinCaps(pick)
    ensures Total(pick) <= Total(Taken(scored))
  {
    var sorted := SortBy(RanksBefore, pick);
    SortedIsDescending(pick);
    assert |sorted| == |multiset(sorted)| == |multiset(pick)| == |pick|;
    forall layer ensures InLayer(sorted, layer) <= MAX_PER_LAYER { InLayerMonotone(sorted, pick, layer); }
    GreedyIsBest(scored, sorted);
    TotalDominates(sorted, Taken(scored));
    TotalOfPermutation(pick, sorted);
  }
}
