/**
 Text order and stable sorting, as the Python modules use them: `str` comparison by code
 point, and `list.sort(key=...)`, which keeps the input order of rows with equal keys.
 */
module Ordering {

  /** A proper prefix comes first; otherwise the first differing code point decides. */
  predicate TextLeq(a: string, b: string) {
    a == [] || (b != [] && (a[0] < b[0] || (a[0] == b[0] && TextLeq(a[1..], b[1..]))))
  }

  predicate TextLess(a: string, b: string) {
    TextLeq(a, b) && a != b
  }

  lemma {:induction false} TextLeqIsTotal(a: string, b: string)
    ensures TextLeq(a, b) || TextLeq(b, a)
  {
    if a != [] && b != [] && a[0] == b[0] { TextLeqIsTotal(a[1..], b[1..]); }
  }

  lemma {:induction false} TextLeqIsAntisymmetric(a: string, b: string)
    requires TextLeq(a, b) && TextLeq(b, a)
    ensures a == b
  {
    if a != [] && b != [] {
      TextLeqIsAntisymmetric(a[1..], b[1..]);
      assert a == [a[0]] + a[1..] && b == [b[0]] + b[1..];
    }
  }

  lemma {:induction false} TextLeqIsTransitive(a: string, b: string, c: string)
    requires TextLeq(a, b) && TextLeq(b, c)
    ensures TextLeq(a, c)
  {
    if a != [] && a[0] == b[0] && b[0] == c[0] { TextLeqIsTransitive(a[1..], b[1..], c[1..]); }
  }

  lemma TextLeqIsOrder()
    ensures forall a, b :: TextLeq(a, b) || TextLeq(b, a)
    ensures forall a, b :: TextLeq(a, b) && TextLeq(b, a) ==> a == b
    ensures forall a, b, c :: TextLeq(a, b) && TextLeq(b, c) ==> TextLeq(a, c)
  {
    forall a, b ensures TextLeq(a, b) || TextLeq(b, a) { TextLeqIsTotal(a, b); }
    forall a, b | TextLeq(a, b) && TextLeq(b, a) ensures a == b { TextLeqIsAntisymmetric(a, b); }
    forall a, b, c | TextLeq(a, b) && TextLeq(b, c) ensures TextLeq(a, c) { TextLeqIsTransitive(a, b, c); }
  }

  /** What a sort key gives: any two rows compare, and comparisons chain. */
  ghost predicate IsTotalPreorder<T(!new)>(leq: (T, T) -> bool) {
    && (forall a, b :: leq(a, b) || leq(b, a))
    && (forall a, b, c :: leq(a, b) && leq(b, c) ==> leq(a, c))
  }

  ghost predicate IsSorted<T>(leq: (T, T) -> bool, s: seq<T>) {
    forall i, j :: 0 <= i < j < |s| ==> leq(s[i], s[j])
  }

  function Insert<T>(leq: (T, T) -> bool, x: T, s: seq<T>): seq<T> {
    if s == [] || leq(x, s[0]) then [x] + s else [s[0]] + Insert(leq, x, s[1..])
  }

  /** The stable sort: a row never passes an earlier row with an equal key. */
  function SortBy<T>(leq: (T, T) -> bool, s: seq<T>): seq<T> {
    if s == [] then [] else Insert(leq, s[0], SortBy(leq, s[1..]))
  }

  lemma {:induction false} InsertIsPermutation<T>(leq: (T, T) -> bool, x: T, s: seq<T>)
    ensures multiset(Insert(leq, x, s)) == multiset{x} + multiset(s)
  {
    if s != [] && !leq(x, s[0]) {
      InsertIsPermutation(leq, x, s[1..]);
      assert s == [s[0]] + s[1..];
    }
  }

  lemma {:induction false} InsertIsSorted<T(!new)>(leq: (T, T) -> bool, x: T, s: seq<T>)
    requires IsTotalPreorder(leq) && IsSorted(leq, s)
    ensures IsSorted(leq, Insert(leq, x, s))
  {
    if s != [] {
      if leq(x, s[0]) {
        assert forall j :: 0 <= j < |s| ==> leq(x, s[j]);
      } else {
        InsertIsSorted(leq, x, s[1..]);
        var tail := Insert(leq, x, s[1..]);
        InsertIsPermutation(leq, x, s[1..]);
        forall j | 0 <= j < |tail| ensures leq(s[0], tail[j]) {
          assert tail[j] in multiset(tail);
        }
      }
    }
  }

  lemma {:induction false} SortIsSortedPermutation<T(!new)>(leq: (T, T) -> bool, s: seq<T>)
    ensures multiset(SortBy(leq, s)) == multiset(s)
    ensures |SortBy(leq, s)| == |s|
    ensures IsTotalPreorder(leq) ==> IsSorted(leq, SortBy(leq, s))
  {
    if s != [] {
      SortIsSortedPermutation(leq, s[1..]);
      InsertIsPermutation(leq, s[0], SortBy(leq, s[1..]));
      if IsTotalPreorder(leq) { InsertIsSorted(leq, s[0], SortBy(leq, s[1..])); }
      assert s == [s[0]] + s[1..];
    }
    assert |multiset(SortBy(leq, s))| == |multiset(s)|;
  }

  lemma MultisetMember<T>(a: seq<T>, b: seq<T>, x: T)
    requires multiset(a) == multiset(b)
    ensures x in a <==> x in b
  {
    assert x in a <==> x in multiset(a);
    assert x in b <==> x in multiset(b);
  }

  /** Where no two different rows tie, the sorted list does not depend on the input order. */
  lemma {:induction false} SortedIsUnique<T(!new)>(leq: (T, T) -> bool, a: seq<T>, b: seq<T>)
    requires IsTotalPreorder(leq)
    requires IsSorted(leq, a) && IsSorted(leq, b) && multiset(a) == multiset(b)
    requires forall x, y :: x in a && y in a && leq(x, y) && leq(y, x) ==> x == y
    ensures a == b
  {
    assert |a| == |multiset(a)| == |multiset(b)| == |b|;
    if a != [] {
      assert a == [a[0]] + a[1..] && b == [b[0]] + b[1..];
      MultisetMember(a, b, a[0]);
      MultisetMember(a, b, b[0]);
      var i :| 0 <= i < |b| && b[i] == a[0];
      var j :| 0 <= j < |a| && a[j] == b[0];
      assert leq(b[0], a[0]) && leq(a[0], b[0]);
      assert multiset(a[1..]) == multiset(a) - multiset{a[0]};
      assert multiset(b[1..]) == multiset(b) - multiset{b[0]};
      SortedIsUnique(leq, a[1..], b[1..]);
    }
  }

  function Filter<T>(p: T -> bool, s: seq<T>): seq<T> {
    if s == [] then [] else (if p(s[0]) then [s[0]] else []) + Filter(p, s[1..])
  }

  lemma {:induction false} FilterAppend<T>(p: T -> bool, a: seq<T>, b: seq<T>)
    ensures Filter(p, a + b) == Filter(p, a) + Filter(p, b)
  {
    if a == [] {
      assert a + b == b;
    } else {
      FilterAppend(p, a[1..], b);
      assert (a + b)[1..] == a[1..] + b;
    }
  }

  lemma {:induction false} FilterMembers<T>(p: T -> bool, s: seq<T>)
    ensures forall x :: x in Filter(p, s) <==> x in s && p(x)
    ensures |Filter(p, s)| <= |s|
  {
    if s != [] {
      FilterMembers(p, s[1..]);
      assert forall x :: x in s <==> x == s[0] || x in s[1..];
    }
  }

  lemma FilterOne<T>(p: T -> bool, x: T)
    ensures Filter(p, [x]) == if p(x) then [x] else []
  {
    assert [x][1..] == [];
  }

  lemma {:induction false} FilterNone<T>(p: T -> bool, s: seq<T>)
    requires forall x :: x in s ==> !p(x)
    ensures Filter(p, s) == []
  {
    if s != [] { FilterNone(p, s[1..]); }
  }

  lemma {:induction false} FilterTwice<T>(p: T -> bool, q: T -> bool, s: seq<T>)
    requires forall x :: x in s && p(x) ==> q(x)
    ensures Filter(p, Filter(q, s)) == Filter(p, s)
  {
    if s != [] {
      FilterTwice(p, q, s[1..]);
      var inner := Filter(q, s[1..]);
      if q(s[0]) {
        assert ([s[0]] + inner)[1..] == inner;
      } else {
        assert Filter(q, s) == inner;
      }
    }
  }

  /** Rows that pass one of two tests that exclude each other. */
  lemma {:induction false} FilterSplit<T>(p: T -> bool, q: T -> bool, either: T -> bool, s: seq<T>)
    requires forall x :: x in s ==> (either(x) <==> p(x) || q(x)) && !(p(x) && q(x))
    ensures multiset(Filter(either, s)) == multiset(Filter(p, s)) + multiset(Filter(q, s))
  {
    if s != [] { FilterSplit(p, q, either, s[1..]); }
  }

  lemma {:induction false} FilterAll<T>(p: T -> bool, s: seq<T>)
    requires forall x :: x in s ==> p(x)
    ensures Filter(p, s) == s
  {
    if s != [] { FilterAll(p, s[1..]); }
  }

  lemma FilterSkips<T>(p: T -> bool, a: seq<T>, extra: seq<T>, b: seq<T>)
    requires forall x :: x in extra ==> !p(x)
    ensures Filter(p, a + extra + b) == Filter(p, a + b)
  {
    FilterNone(p, extra);
    FilterAppend(p, a + extra, b);
    FilterAppend(p, a, extra);
    FilterAppend(p, a, b);
  }

  lemma {:induction false} InsertIsStable<T>(leq: (T, T) -> bool, p: T -> bool, x: T, s: seq<T>)
    requires p(x) ==> forall y :: y in s && p(y) ==> leq(x, y)
    ensures Filter(p, Insert(leq, x, s)) == (if p(x) then [x] else []) + Filter(p, s)
  {
    if s == [] || leq(x, s[0]) {
      assert ([x] + s)[1..] == s;
    } else {
      InsertIsStable(leq, p, x, s[1..]);
      var tail := Insert(leq, x, s[1..]);
      assert ([s[0]] + tail)[1..] == tail;
    }
  }

  /** Rows that tie pairwise keep their input order. */
  lemma {:induction false} SortIsStable<T(!new)>(leq: (T, T) -> bool, p: T -> bool, s: seq<T>)
    requires forall x, y :: x in s && y in s && p(x) && p(y) ==> leq(x, y)
    ensures Filter(p, SortBy(leq, s)) == Filter(p, s)
  {
    if s != [] {
      SortIsStable(leq, p, s[1..]);
      var rest := SortBy(leq, s[1..]);
      SortIsSortedPermutation(leq, s[1..]);
      forall y | y in rest && p(y) && p(s[0]) ensures leq(s[0], y) {
        MultisetMember(rest, s[1..], y);
      }
      InsertIsStable(leq, p, s[0], rest);
    }
  }

  function Map<T, U>(f: T -> U, s: seq<T>): (r: seq<U>)
    ensures |r| == |s|
    ensures forall i :: 0 <= i < |s| ==> r[i] == f(s[i])
  {
    if s == [] then [] else [f(s[0])] + Map(f, s[1..])
  }

  lemma {:induction false} MapAppend<T, U>(f: T -> U, a: seq<T>, b: seq<T>)
    ensures Map(f, a + b) == Map(f, a) + Map(f, b)
  {
  }

  lemma {:induction false} MapOfInsert<T, U>(leq: (T, T) -> bool, leqU: (U, U) -> bool, f: T -> U, x: T, s: seq<T>)
    requires forall y :: y in s ==> leq(x, y) == leqU(f(x), f(y))
    ensures Map(f, Insert(leq, x, s)) == Insert(leqU, f(x), Map(f, s))
  {
    if s == [] || leq(x, s[0]) {
      assert ([x] + s)[1..] == s;
    } else {
      MapOfInsert(leq, leqU, f, x, s[1..]);
      assert Map(f, s)[1..] == Map(f, s[1..]);
      var tail := Insert(leq, x, s[1..]);
      assert ([s[0]] + tail)[1..] == tail;
    }
  }

  /** A view of the rows that the order cannot tell from the rows themselves may be taken before or after sorting. */
  lemma {:induction false} MapOfSort<T(!new), U>(leq: (T, T) -> bool, leqU: (U, U) -> bool, f: T -> U, s: seq<T>)
    requires forall x, y :: x in s && y in s ==> leq(x, y) == leqU(f(x), f(y))
    ensures Map(f, SortBy(leq, s)) == SortBy(leqU, Map(f, s))
  {
    if s != [] {
      MapOfSort(leq, leqU, f, s[1..]);
      SortIsSortedPermutation(leq, s[1..]);
      forall y | y in SortBy(leq, s[1..]) ensures leq(s[0], y) == leqU(f(s[0]), f(y)) {
        MultisetMember(SortBy(leq, s[1..]), s[1..], y);
      }
      MapOfInsert(leq, leqU, f, s[0], SortBy(leq, s[1..]));
      assert Map(f, s)[1..] == Map(f, s[1..]);
    }
  }

  lemma {:induction false} MapOfFilter<T, U>(p: T -> bool, q: U -> bool, f: T -> U, s: seq<T>)
    requires forall x :: x in s ==> p(x) == q(f(x))
    ensures Map(f, Filter(p, s)) == Filter(q, Map(f, s))
  {
    if s != [] {
      MapOfFilter(p, q, f, s[1..]);
      assert Map(f, s)[1..] == Map(f, s[1..]);
      MapAppend(f, if p(s[0]) then [s[0]] else [], Filter(p, s[1..]));
    }
  }

  lemma MapAround<T, U>(f: T -> U, l: seq<T>, x: T, r: seq<T>)
    ensures Map(f, l + [x] + r) == Map(f, l) + [f(x)] + Map(f, r)
  {
    MapAppend(f, l + [x], r);
    MapAppend(f, l, [x]);
    assert Map(f, [x]) == [f(x)];
  }

  lemma MiddleOut<U>(l: seq<U>, y: U, r: seq<U>)
    ensures multiset(l + [y] + r) == multiset(l + r) + multiset{y}
  {
    assert multiset(l + [y] + r) == multiset(l + [y]) + multiset(r);
    assert multiset(l + [y]) == multiset(l) + multiset{y};
    assert multiset(l + r) == multiset(l) + multiset(r);
  }

  lemma MapWithout<T, U>(f: T -> U, l: seq<T>, x: T, r: seq<T>)
    ensures multiset(Map(f, l + [x] + r)) == multiset(Map(f, l + r)) + multiset{f(x)}
  {
    MapAround(f, l, x, r);
    MapAppend(f, l, r);
    MiddleOut(Map(f, l), f(x), Map(f, r));
  }

  lemma MapHead<T, U>(f: T -> U, a: seq<T>)
    requires a != []
    ensures multiset(Map(f, a)) == multiset(Map(f, a[1..])) + multiset{f(a[0])}
  {
    MapWithout(f, [], a[0], a[1..]);
    assert [] + [a[0]] + a[1..] == a && [] + a[1..] == a[1..];
  }

  lemma SplitAtHead<T>(a: seq<T>, b: seq<T>) returns (l: seq<T>, r: seq<T>)
    requires a != [] && multiset(a) == multiset(b)
    ensures b == l + [a[0]] + r && multiset(a[1..]) == multiset(l + r)
  {
    var i, rest := RemoveHead(a, b);
    l, r := b[..i], b[i + 1..];
  }

  lemma {:induction false} MapOfPermutation<T, U>(f: T -> U, a: seq<T>, b: seq<T>)
    requires multiset(a) == multiset(b)
    ensures multiset(Map(f, a)) == multiset(Map(f, b))
  {
    if a == [] {
      assert |b| == |multiset(b)|;
    } else {
      var l, r := SplitAtHead(a, b);
      MapOfPermutation(f, a[1..], l + r);
      MapHead(f, a);
      MapWithout(f, l, a[0], r);
    }
  }

  lemma {:induction false} FilterOfPermutation<T>(p: T -> bool, a: seq<T>, b: seq<T>)
    requires multiset(a) == multiset(b)
    ensures multiset(Filter(p, a)) == multiset(Filter(p, b))
  {
    assert |a| == |multiset(a)| == |multiset(b)| == |b|;
    if a != [] {
      var i, rest := RemoveHead(a, b);
      FilterOfPermutation(p, a[1..], rest);
      FilterAppend(p, b[..i], b[i + 1..]);
      FilterAppend(p, b[..i], [b[i]] + b[i + 1..]);
      assert ([b[i]] + b[i + 1..])[1..] == b[i + 1..];
      assert b == b[..i] + ([b[i]] + b[i + 1..]);
    }
  }

  /** The head of `a` stands somewhere in its permutation `b`; without it the two still agree. */
  lemma RemoveHead<T>(a: seq<T>, b: seq<T>) returns (i: nat, rest: seq<T>)
    requires a != [] && multiset(a) == multiset(b)
    ensures i < |b| && b[i] == a[0]
    ensures rest == b[..i] + b[i + 1..] && multiset(a[1..]) == multiset(rest)
  {
    assert a == [a[0]] + a[1..];
    MultisetMember(a, b, a[0]);
    i :| 0 <= i < |b| && b[i] == a[0];
    rest := b[..i] + b[i + 1..];
    assert b == b[..i] + [b[i]] + b[i + 1..];
    assert multiset(rest) == multiset(b) - multiset{a[0]};
    assert multiset(a[1..]) == multiset(a) - multiset{a[0]};
  }

  /** How many rows of a list have the value `v` under `f`. */
  function Count<T, U(==)>(f: T -> U, s: seq<T>, v: U): nat {
    if s == [] then 0 else Count(f, s[..|s| - 1], v) + (if f(s[|s| - 1]) == v then 1 else 0)
  }

  lemma {:induction false} CountAppend<T, U>(f: T -> U, a: seq<T>, b: seq<T>, v: U)
    ensures Count(f, a + b, v) == Count(f, a, v) + Count(f, b, v)
  {
    if b == [] {
      assert a + b == a;
    } else {
      CountAppend(f, a, b[..|b| - 1], v);
      assert (a + b)[..|a + b| - 1] == a + b[..|b| - 1];
    }
  }

  lemma CountAppendIf<T, U>(f: T -> U, s: seq<T>, keep: bool, x: T, v: U)
    ensures Count(f, s + (if keep then [x] else []), v) == Count(f, s, v) + if keep && f(x) == v then 1 else 0
  {
    if keep {
      assert (s + [x])[..|s|] == s;
    } else {
      assert s + [] == s;
    }
  }

  lemma CountOne<T, U>(f: T -> U, x: T, v: U)
    ensures Count(f, [x], v) == if f(x) == v then 1 else 0
  {
    assert [x][..0] == [];
  }

  lemma {:induction false} CountOfPermutation<T, U>(f: T -> U, a: seq<T>, b: seq<T>, v: U)
    requires multiset(a) == multiset(b)
    ensures Count(f, a, v) == Count(f, b, v)
  {
    if a != [] {
      var i, rest := RemoveHead(a, b);
      CountOfPermutation(f, a[1..], rest, v);
      CountAppend(f, b[..i], b[i + 1..], v);
      CountAppend(f, b[..i] + [b[i]], b[i + 1..], v);
      CountAppend(f, b[..i], [b[i]], v);
      CountAppend(f, [a[0]], a[1..], v);
      assert b == b[..i] + [b[i]] + b[i + 1..] && a == [a[0]] + a[1..];
    } else {
      assert |b| == |multiset(b)|;
    }
  }

  lemma {:induction false} CountUpdate<T, U>(f: T -> U, s: seq<T>, i: nat, x: T, v: U)
    requires i < |s|
    ensures Count(f, s[i := x], v) == Count(f, s, v) - (if f(s[i]) == v then 1 else 0) + (if f(x) == v then 1 else 0)
  {
    var m := |s| - 1;
    if i < m {
      CountUpdate(f, s[..m], i, x, v);
      assert s[i := x][..m] == s[..m][i := x];
    } else {
      assert s[i := x][..m] == s[..m];
    }
  }

  lemma {:induction false} CountPositive<T, U>(f: T -> U, s: seq<T>, v: U)
    ensures Count(f, s, v) > 0 <==> exists i :: 0 <= i < |s| && f(s[i]) == v
  {
    if s != [] {
      var m := |s| - 1;
      CountPositive(f, s[..m], v);
      if i :| 0 <= i < |s| && f(s[i]) == v {
        assert i < m ==> s[..m][i] == s[i];
      }
    }
  }

  /** A count above one means two positions. */
  lemma {:induction false} CountTwice<T, U>(f: T -> U, s: seq<T>, v: U)
    ensures Count(f, s, v) > 1 <==> exists i, j :: 0 <= i < j < |s| && f(s[i]) == v && f(s[j]) == v
  {
    if s != [] {
      var m := |s| - 1;
      CountTwice(f, s[..m], v);
      CountPositive(f, s[..m], v);
      assert forall i :: 0 <= i < m ==> s[..m][i] == s[i];
    }
  }
}
