/**
 The two readers of the identity directory that must refuse contested identities: the Yahoo
 price universe, and the Chinese names of the listings a report shows.
 */
module IdentityConsumers {
  import opened Ordering
  import opened IdentityShards
  import opened Wrappers

  type Shards = map<string, seq<Record>>

  /** The rows of the symbol shards, in the order in which the document lists the shards. */
  function RowsIn(shards: Shards, order: seq<string>): seq<Record>
    requires forall b :: b in order ==> b in shards
  {
    if order == [] then [] else RowsIn(shards, order[..|order| - 1]) + shards[order[|order| - 1]]
  }

  /** `order` lists every shard of the document once. */
  ghost predicate IsOrderOf(order: seq<string>, shards: Shards) {
    && (forall b :: b in shards <==> b in order)
    && (forall i, j :: 0 <= i < j < |order| ==> order[i] != order[j])
  }

  function InSome(order: seq<string>, rules: TextRules): Record -> bool {
    (r: Record) => SymbolBucket(r.row.symbol, rules) in order
  }

  lemma {:induction false} RowsOfSomeShards(shards: Shards, order: seq<string>, records: seq<Record>, rules: TextRules)
    requires AreSymbolShards(shards, records, rules)
    requires forall b :: b in order ==> b in shards
    requires forall i, j :: 0 <= i < j < |order| ==> order[i] != order[j]
    ensures multiset(RowsIn(shards, order)) == multiset(Filter(InSome(order, rules), records))
  {
    if order == [] {
      FilterNone(InSome(order, rules), records);
    } else {
      var m := |order| - 1;
      RowsOfSomeShards(shards, order[..m], records, rules);
      assert forall b :: b in order <==> b in order[..m] || b == order[m];
      FilterSplit(InSome(order[..m], rules), InBucket(order[m], rules), InSome(order, rules), records);
    }
  }

  /** Whatever the shard order, a reader of the document sees each retained record exactly once. */
  lemma ReadersSeeTheRecords(doc: Document, records: seq<Record>, rules: TextRules, order: seq<string>)
    requires IsDocumentOf(doc, records, rules) && IsOrderOf(order, doc.symbolShards)
    ensures multiset(RowsIn(doc.symbolShards, order)) == multiset(records)
  {
    var sorted := Sorted(records);
    SortIsSortedPermutation(SortsBefore, records);
    RowsOfSomeShards(doc.symbolShards, order, sorted, rules);
    forall r | r in sorted ensures InSome(order, rules)(r) {
      SymbolShardsPartition(doc.symbolShards, sorted, rules, r);
    }
    FilterAll(InSome(order, rules), sorted);
  }

  // ---- the Yahoo price universe

  function Suffix(market: string, venue: string): Option<string> {
    if market == "JAPAN" && venue == "TSE" then Some("T")
    else if market == "KOREA" && venue == "KRX" then Some("KS")
    else if market == "KOREA" && venue == "KOSDAQ" then Some("KQ")
    else None
  }

  /** Prices are looked up for three lists of two markets; no other venue has a suffix. */
  lemma VenuesWithSuffix(market: string, venue: string, suffix: string)
    ensures Suffix(market, venue) == Some(suffix) <==>
            || (market == "JAPAN" && venue == "TSE" && suffix == "T")
            || (market == "KOREA" && venue == "KRX" && suffix == "KS")
            || (market == "KOREA" && venue == "KOSDAQ" && suffix == "KQ")
  {
  }

  datatype YahooName = YahooName(market: string, name: string)

  function YahooNameOf(market: string, key: Key): YahooName
    requires Suffix(market, key.0).Some?
  {
    YahooName(market, key.1 + "." + Suffix(market, key.0).value)
  }

  lemma YahooNamesAreDistinct(market: string, a: Key, b: Key)
    requires Suffix(market, a.0).Some? && Suffix(market, b.0).Some?
    requires YahooNameOf(market, a) == YahooNameOf(market, b)
    ensures a == b
  {
    var x, y := YahooNameOf(market, a).name, YahooNameOf(market, b).name;
    var p, q := Suffix(market, a.0).value, Suffix(market, b.0).value;
    assert x[|x| - 1] == p[|p| - 1] && y[|y| - 1] == q[|q| - 1];
    assert p == q;
    assert x[..|a.1|] == a.1 && y[..|b.1|] == b.1;
  }

  /** Every row of the key is a common stock of the one market, and there is such a row. */
  ghost predicate IsUncontested(rows: seq<Record>, key: Key, market: string) {
    && (exists r :: r in rows && KeyOf(r) == key)
    && (forall r :: r in rows && KeyOf(r) == key ==> r.row.market == market && r.row.cls == "COMMON_STOCK")
  }

  predicate AreCommonStock(rows: seq<Record>, market: string) {
    forall r :: r in rows ==> r.row.market == market && r.row.cls == "COMMON_STOCK"
  }

  ghost predicate Enters(rows: seq<Record>, key: Key, market: string) {
    Suffix(market, key.0).Some? && IsUncontested(rows, key, market)
  }

  ghost predicate AreVariants(variants: map<Key, seq<Record>>, rows: seq<Record>) {
    forall key: Key ::
      (if key in variants then variants[key] else []) == Filter(HasKey(key), rows)
      && (key in variants ==> variants[key] != [])
  }

  ghost predicate IsUniverse(out: map<YahooName, string>, rows: seq<Record>, left: set<Key>) {
    && (forall key: Key, market :: key !in left && Enters(rows, key, market) ==>
          YahooNameOf(market, key) in out && out[YahooNameOf(market, key)] == key.1)
    && (forall name :: name in out ==>
          exists key: Key :: key !in left && Enters(rows, key, name.market) && name == YahooNameOf(name.market, key))
  }

  method CollectVariants(shards: Shards, order: seq<string>) returns (variants: map<Key, seq<Record>>)
    requires forall b :: b in order ==> b in shards
    ensures AreVariants(variants, RowsIn(shards, order))
  {
    variants := map[];
    for n := 0 to |order|
      invariant AreVariants(variants, RowsIn(shards, order[..n]))
    {
      var shard := shards[order[n]];
      ghost var before := RowsIn(shards, order[..n]);
      assert before + shard[..0] == before;
      for i := 0 to |shard|
        invariant AreVariants(variants, before + shard[..i])
      {
        var r := shard[i];
        assert before + shard[..i + 1] == (before + shard[..i]) + [r];
        OneMoreVariant(variants, before + shard[..i], r);
        variants := variants[KeyOf(r) := (if KeyOf(r) in variants then variants[KeyOf(r)] else []) + [r]];
      }
      assert before + shard[..|shard|] == before + shard;
      assert order[..n + 1][..n] == order[..n];
    }
    assert order[..|order|] == order;
  }

  /** The entry of a key with its variants, if it gets one. */
  function Entered(out: map<YahooName, string>, key: Key, variants: seq<Record>): map<YahooName, string>
    requires variants != []
  {
    var market := variants[0].row.market;
    var suffix := Suffix(market, key.0);
    if suffix.Some? && AreCommonStock(variants, market) then out[YahooName(market, key.1 + "." + suffix.value) := key.1] else out
  }

  method YahooSymbols(shards: Shards, order: seq<string>) returns (out: map<YahooName, string>)
    requires forall b :: b in order ==> b in shards
    ensures IsUniverse(out, RowsIn(shards, order), {})
  {
    var variants := CollectVariants(shards, order);
    ghost var rows := RowsIn(shards, order);
    out := map[];
    var left := variants.Keys;
    NothingToEnter(variants, rows);
    while left != {}
      invariant left <= variants.Keys
      invariant IsUniverse(out, rows, left)
    {
      var key :| key in left;
      OneMoreKey(variants, out, rows, left, key);
      out := Entered(out, key, variants[key]);
      left := left - {key};
    }
  }

  lemma NothingToEnter(variants: map<Key, seq<Record>>, rows: seq<Record>)
    requires AreVariants(variants, rows)
    ensures IsUniverse(map[], rows, variants.Keys)
  {
    forall key: Key, market | key !in variants.Keys ensures !Enters(rows, key, market) { KeyHasVariant(variants, rows, key); }
  }

  lemma OneMoreVariant(variants: map<Key, seq<Record>>, rows: seq<Record>, r: Record)
    requires AreVariants(variants, rows)
    ensures AreVariants(variants[KeyOf(r) := (if KeyOf(r) in variants then variants[KeyOf(r)] else []) + [r]], rows + [r])
  {
    forall key: Key ensures Filter(HasKey(key), rows + [r]) == Filter(HasKey(key), rows) + if KeyOf(r) == key then [r] else [] {
      FilterAppend(HasKey(key), rows, [r]);
      assert [r][1..] == [];
    }
  }

  lemma KeyHasVariant(variants: map<Key, seq<Record>>, rows: seq<Record>, key: Key)
    requires AreVariants(variants, rows)
    ensures key in variants <==> exists r :: r in rows && KeyOf(r) == key
  {
    FilterMembers(HasKey(key), rows);
    if key in variants { assert variants[key][0] in Filter(HasKey(key), rows); }
    if r :| r in rows && KeyOf(r) == key { assert r in Filter(HasKey(key), rows); }
  }

  lemma VariantMembers(variants: map<Key, seq<Record>>, rows: seq<Record>, key: Key)
    requires AreVariants(variants, rows) && key in variants
    ensures forall r :: r in variants[key] <==> r in rows && KeyOf(r) == key
  {
    FilterMembers(HasKey(key), rows);
  }

  lemma VariantsDecide(variants: map<Key, seq<Record>>, rows: seq<Record>, key: Key)
    requires AreVariants(variants, rows) && key in variants
    ensures var market := variants[key][0].row.market;
            && (IsUncontested(rows, key, market) <==> AreCommonStock(variants[key], market))
            && (forall m :: IsUncontested(rows, key, m) ==> m == market)
  {
    VariantMembers(variants, rows, key);
    assert variants[key] != [];
    var first := variants[key][0];
    assert first in variants[key] && first in rows && KeyOf(first) == key;
  }

  lemma OneMoreKey(variants: map<Key, seq<Record>>, was: map<YahooName, string>, rows: seq<Record>, left: set<Key>, key: Key)
    requires AreVariants(variants, rows) && key in variants && key in left && IsUniverse(was, rows, left)
    ensures IsUniverse(Entered(was, key, variants[key]), rows, left - {key})
  {
    VariantsDecide(variants, rows, key);
    OneMoreEntry(was, Entered(was, key, variants[key]), rows, left, key, variants[key][0].row.market);
  }

  lemma OneMoreEntry(was: map<YahooName, string>, out: map<YahooName, string>, rows: seq<Record>, left: set<Key>, key: Key, market: string)
    requires key in left && IsUniverse(was, rows, left)
    requires forall m :: IsUncontested(rows, key, m) ==> m == market
    requires out == if Enters(rows, key, market) then was[YahooNameOf(market, key) := key.1] else was
    ensures IsUniverse(out, rows, left - {key})
  {
    forall k: Key, m | k !in left - {key} && Enters(rows, k, m)
      ensures YahooNameOf(m, k) in out && out[YahooNameOf(m, k)] == k.1
    {
      if k != key && Enters(rows, key, market) && YahooNameOf(m, k) == YahooNameOf(market, key) {
        YahooNamesAreDistinct(m, k, key);
      }
    }
    forall name | name in out
      ensures exists k: Key :: k !in left - {key} && Enters(rows, k, name.market) && name == YahooNameOf(name.market, k)
    {
      if name in was {
        var k: Key :| k !in left && Enters(rows, k, name.market) && name == YahooNameOf(name.market, k);
        assert k !in left - {key};
      } else {
        assert key !in left - {key};
      }
    }
  }

  lemma OrderDoesNotContest(a: seq<Record>, b: seq<Record>, key: Key, market: string)
    requires multiset(a) == multiset(b)
    ensures IsUncontested(a, key, market) <==> IsUncontested(b, key, market)
  {
    forall r ensures r in a <==> r in b { MultisetMember(a, b, r); }
  }

  /** A venue:symbol of a built directory is priced exactly when it has a suffix and all its retained variants are common stock of
      one market; the shard order plays no part. */
  lemma PricedIffUncontested(doc: Document, records: seq<Record>, rules: TextRules, order: seq<string>, out: map<YahooName, string>,
                             key: Key, market: string)
    requires IsDocumentOf(doc, records, rules) && IsOrderOf(order, doc.symbolShards)
    requires IsUniverse(out, RowsIn(doc.symbolShards, order), {})
    requires Suffix(market, key.0).Some?
    ensures YahooNameOf(market, key) in out <==> IsUncontested(records, key, market)
    ensures YahooNameOf(market, key) in out ==> out[YahooNameOf(market, key)] == key.1
  {
    var rows := RowsIn(doc.symbolShards, order);
    ReadersSeeTheRecords(doc, records, rules, order);
    OrderDoesNotContest(rows, records, key, market);
    var name := YahooNameOf(market, key);
    if name in out {
      var k: Key :| k !in {} && Enters(rows, k, name.market) && name == YahooNameOf(name.market, k);
      YahooNamesAreDistinct(market, k, key);
    }
  }

  // ---- Chinese names

  function ListingOf(r: Record): string { r.row.market + ":" + r.row.symbol }

  function VenueListing(r: Record): (string, string) { (r.row.venue, ListingOf(r)) }

  predicate IsRepeated(rows: seq<Record>, venue: string, listing: string) { Count(VenueListing, rows, (venue, listing)) > 1 }

  /** Some venue has more than one row of the listing. */
  ghost predicate IsContested(rows: seq<Record>, listing: string) { exists venue :: IsRepeated(rows, venue, listing) }

  ghost predicate IsFirstNamed(rows: seq<Record>, listing: string, i: nat) {
    && i < |rows| && ListingOf(rows[i]) == listing && rows[i].zh.Some?
    && forall j :: 0 <= j < i && ListingOf(rows[j]) == listing ==> rows[j].zh.None?
  }

  ghost predicate IsNamed(rows: seq<Record>, listing: string) {
    exists i :: 0 <= i < |rows| && ListingOf(rows[i]) == listing && rows[i].zh.Some?
  }

  /** The sources in their order of authority: configuration, the directory, the name cache; the last two never for a contested
      listing. */
  ghost predicate IsNameOf(name: Chinese, listing: string, official: map<string, Chinese>, rows: seq<Record>, cache: map<string, Chinese>) {
    if listing in official then name == official[listing]
    else if IsContested(rows, listing) then false
    else if IsNamed(rows, listing) then exists i: nat :: IsFirstNamed(rows, listing, i) && rows[i].zh == Some(name)
    else listing in cache && name == cache[listing]
  }

  ghost predicate IsTally(rows: seq<Record>, wanted: set<string>, official: map<string, Chinese>,
                          retained: map<(string, string), nat>, firstNamed: map<string, Chinese>) {
    && (forall at: (string, string) :: at.1 in wanted && at.1 !in official ==>
          Count(VenueListing, rows, at) == if at in retained then retained[at] else 0)
    && (forall at :: at in retained ==> at.1 in wanted && at.1 !in official)
    && (forall listing :: listing in firstNamed ==> listing in wanted && listing !in official)
    && (forall listing :: listing in firstNamed ==>
          exists i: nat :: IsFirstNamed(rows, listing, i) && rows[i].zh == Some(firstNamed[listing]))
    && (forall listing :: listing in wanted && listing !in official && IsNamed(rows, listing) ==> listing in firstNamed)
  }

  /** One row read; unwanted and configured listings are skipped. */
  lemma TallyOneMore(rows: seq<Record>, r: Record, wanted: set<string>, official: map<string, Chinese>,
                     retained: map<(string, string), nat>, firstNamed: map<string, Chinese>,
                     retained': map<(string, string), nat>, firstNamed': map<string, Chinese>)
    requires IsTally(rows, wanted, official, retained, firstNamed)
    requires var at := VenueListing(r);
             if at.1 in wanted && at.1 !in official then
               && retained' == retained[at := (if at in retained then retained[at] else 0) + 1]
               && firstNamed' == (if at.1 !in firstNamed && r.zh.Some? then firstNamed[at.1 := r.zh.value] else firstNamed)
             else retained' == retained && firstNamed' == firstNamed
    ensures IsTally(rows + [r], wanted, official, retained', firstNamed')
  {
    var more := rows + [r];
    assert more[..|rows|] == rows;
    assert forall i :: 0 <= i < |rows| ==> more[i] == rows[i];
    forall at: (string, string)
      ensures Count(VenueListing, more, at) == Count(VenueListing, rows, at) + if VenueListing(r) == at then 1 else 0
    {
    }
    forall listing ensures IsNamed(more, listing) <==> IsNamed(rows, listing) || (ListingOf(r) == listing && r.zh.Some?) {
      if ListingOf(r) == listing && r.zh.Some? { assert ListingOf(more[|rows|]) == listing; }
      if IsNamed(rows, listing) {
        var i :| 0 <= i < |rows| && ListingOf(rows[i]) == listing && rows[i].zh.Some?;
        assert ListingOf(more[i]) == listing;
      }
    }
    forall listing | listing in firstNamed'
      ensures exists i: nat :: IsFirstNamed(more, listing, i) && more[i].zh == Some(firstNamed'[listing])
    {
      if listing in firstNamed {
        var i: nat :| IsFirstNamed(rows, listing, i) && rows[i].zh == Some(firstNamed[listing]);
        assert IsFirstNamed(more, listing, i);
      } else {
        assert !IsNamed(rows, listing);
        assert IsFirstNamed(more, listing, |rows|);
      }
    }
  }

  /** The rows of one shard, after those read before. */
  method TallyShard(shard: seq<Record>, wanted: set<string>, official: map<string, Chinese>, ghost before: seq<Record>,
                    retainedBefore: map<(string, string), nat>, namedBefore: map<string, Chinese>)
    returns (retained: map<(string, string), nat>, firstNamed: map<string, Chinese>)
    requires IsTally(before, wanted, official, retainedBefore, namedBefore)
    ensures IsTally(before + shard, wanted, official, retained, firstNamed)
  {
    retained, firstNamed := retainedBefore, namedBefore;
    assert before + shard[..0] == before;
    for i := 0 to |shard|
      invariant IsTally(before + shard[..i], wanted, official, retained, firstNamed)
    {
      var r := shard[i];
      var at := VenueListing(r);
      assert before + shard[..i + 1] == (before + shard[..i]) + [r];
      ghost var wasRetained, wasNamed := retained, firstNamed;
      if at.1 in wanted && at.1 !in official {
        retained := retained[at := (if at in retained then retained[at] else 0) + 1];
        if at.1 !in firstNamed && r.zh.Some? { firstNamed := firstNamed[at.1 := r.zh.value]; }
      }
      TallyOneMore(before + shard[..i], r, wanted, official, wasRetained, wasNamed, retained, firstNamed);
    }
    assert before + shard[..|shard|] == before + shard;
  }

  method TallyRows(wanted: set<string>, official: map<string, Chinese>, shards: Shards, order: seq<string>)
    returns (retained: map<(string, string), nat>, firstNamed: map<string, Chinese>)
    requires forall b :: b in order ==> b in shards
    ensures IsTally(RowsIn(shards, order), wanted, official, retained, firstNamed)
  {
    retained, firstNamed := map[], map[];
    for n := 0 to |order|
      invariant IsTally(RowsIn(shards, order[..n]), wanted, official, retained, firstNamed)
    {
      retained, firstNamed := TallyShard(shards[order[n]], wanted, official, RowsIn(shards, order[..n]), retained, firstNamed);
      assert order[..n + 1][..n] == order[..n];
    }
    assert order[..|order|] == order;
  }

  lemma ConflictedIffContested(rows: seq<Record>, wanted: set<string>, official: map<string, Chinese>,
                               retained: map<(string, string), nat>, firstNamed: map<string, Chinese>, listing: string)
    requires IsTally(rows, wanted, official, retained, firstNamed)
    requires listing in wanted && listing !in official
    ensures IsContested(rows, listing) <==> IsConflicted(retained, listing)
  {
    if at :| at in retained && retained[at] > 1 && at.1 == listing { assert IsRepeated(rows, at.0, listing); }
    if IsContested(rows, listing) {
      var venue :| IsRepeated(rows, venue, listing);
      assert (venue, listing) in retained;
    }
  }

  lemma FirstNamedIsNamed(rows: seq<Record>, wanted: set<string>, official: map<string, Chinese>,
                          retained: map<(string, string), nat>, firstNamed: map<string, Chinese>, listing: string)
    requires IsTally(rows, wanted, official, retained, firstNamed)
    requires listing in wanted && listing !in official
    ensures listing in firstNamed <==> IsNamed(rows, listing)
    ensures listing in firstNamed ==> exists i: nat :: IsFirstNamed(rows, listing, i) && rows[i].zh == Some(firstNamed[listing])
  {
    if listing in firstNamed {
      var i: nat :| IsFirstNamed(rows, listing, i) && rows[i].zh == Some(firstNamed[listing]);
      assert IsNamed(rows, listing);
    }
  }

  predicate IsConflicted(retained: map<(string, string), nat>, listing: string) {
    exists at :: at in retained && retained[at] > 1 && at.1 == listing
  }

  /** The three sources merged; an earlier one is never replaced. */
  function Merged(wanted: set<string>, official: map<string, Chinese>, retained: map<(string, string), nat>,
                  firstNamed: map<string, Chinese>, cache: map<string, Chinese>): map<string, Chinese> {
    var configured := map listing | listing in wanted && listing in official :: official[listing];
    var found := configured + map listing | listing in firstNamed && !IsConflicted(retained, listing) :: firstNamed[listing];
    found + map listing | listing in wanted && listing !in found && !IsConflicted(retained, listing) && listing in cache :: cache[listing]
  }

  ghost predicate IsIn(found: map<string, Chinese>, listing: string, name: Chinese) { listing in found && found[listing] == name }

  lemma MergedAt(wanted: set<string>, official: map<string, Chinese>, retained: map<(string, string), nat>,
                 firstNamed: map<string, Chinese>, cache: map<string, Chinese>, listing: string, name: Chinese)
    requires listing in wanted && (listing in firstNamed ==> listing !in official)
    ensures IsIn(Merged(wanted, official, retained, firstNamed, cache), listing, name) <==>
            if listing in official then name == official[listing]
            else if IsConflicted(retained, listing) then false
            else if listing in firstNamed then name == firstNamed[listing]
            else listing in cache && name == cache[listing]
  {
  }

  lemma MergedIsNameOf(rows: seq<Record>, wanted: set<string>, official: map<string, Chinese>, retained: map<(string, string), nat>,
                       firstNamed: map<string, Chinese>, cache: map<string, Chinese>, listing: string, name: Chinese)
    requires IsTally(rows, wanted, official, retained, firstNamed) && listing in wanted
    ensures IsIn(Merged(wanted, official, retained, firstNamed, cache), listing, name) <==> IsNameOf(name, listing, official, rows, cache)
  {
    MergedAt(wanted, official, retained, firstNamed, cache, listing, name);
    if listing !in official {
      ConflictedIffContested(rows, wanted, official, retained, firstNamed, listing);
      FirstNamedIsNamed(rows, wanted, official, retained, firstNamed, listing);
      if listing in firstNamed {
        var i: nat :| IsFirstNamed(rows, listing, i) && rows[i].zh == Some(firstNamed[listing]);
        FirstNamedIsUnique(rows, listing, i);
      }
    }
  }

  lemma FirstNamedIsUnique(rows: seq<Record>, listing: string, i: nat)
    requires IsFirstNamed(rows, listing, i)
    ensures forall j: nat :: IsFirstNamed(rows, listing, j) ==> j == i
  {
  }

  method NamesFor(symbols: seq<string>, listingKey: string -> string, official: map<string, Chinese>, shards: Shards,
                  order: seq<string>, cache: map<string, Chinese>)
    returns (names: map<string, Chinese>)
    requires forall b :: b in order ==> b in shards
    ensures forall symbol, name :: symbol in names && names[symbol] == name <==>
              symbol in symbols && IsNameOf(name, listingKey(symbol), official, RowsIn(shards, order), cache)
  {
    var wanted := set symbol | symbol in symbols :: listingKey(symbol);
    var retained, firstNamed := TallyRows(wanted, official, shards, order);
    var found := Merged(wanted, official, retained, firstNamed, cache);
    forall listing, name | listing in wanted
      ensures IsIn(found, listing, name) <==> IsNameOf(name, listing, official, RowsIn(shards, order), cache)
    {
      MergedIsNameOf(RowsIn(shards, order), wanted, official, retained, firstNamed, cache, listing, name);
    }
    names := map symbol | symbol in symbols && listingKey(symbol) in found :: found[listingKey(symbol)];
  }

  /** A market name holds no colon, so the text of a listing tells market from symbol. */
  lemma ListingTextIsUnambiguous(a: Record, b: Record)
    requires ':' !in a.row.market && ':' !in b.row.market && ListingOf(a) == ListingOf(b)
    ensures a.row.market == b.row.market && a.row.symbol == b.row.symbol
  {
    var text := ListingOf(a);
    var m, n := |a.row.market|, |b.row.market|;
    assert text[m] == ':' && text[n] == ':';
    assert text[..m] == a.row.market && text[..n] == b.row.market;
    assert forall i :: 0 <= i < n ==> text[i] == b.row.market[i];
    assert forall i :: 0 <= i < m ==> text[i] == a.row.market[i];
    assert text[m + 1..] == a.row.symbol && text[n + 1..] == b.row.symbol;
  }

  ghost predicate IsContradictory(records: seq<Record>, listing: string) {
    exists a, b :: a in records && b in records && KeyOf(a) == KeyOf(b)
                   && ListingOf(a) == listing == ListingOf(b) && IdentityOf(a) != IdentityOf(b)
  }

  lemma RepeatedIffTwoRows(records: seq<Record>, rows: seq<Record>, venue: string, listing: string)
    requires multiset(rows) == multiset(records)
    ensures IsRepeated(rows, venue, listing) <==>
            exists i, j :: 0 <= i < j < |records| && VenueListing(records[i]) == (venue, listing) && VenueListing(records[j]) == (venue, listing)
  {
    CountOfPermutation(VenueListing, rows, records, (venue, listing));
    CountTwice(VenueListing, records, (venue, listing));
  }

  /** For a built directory a listing is contested exactly when some venue:symbol of it has contradictory retained variants. */
  lemma ContestedIffContradictory(parsed: seq<Parsed>, zh: map<string, Chinese>, doc: Document, rules: TextRules, order: seq<string>,
                                  listing: string)
    requires IsDocumentOf(doc, Retained(parsed, zh), rules) && IsOrderOf(order, doc.symbolShards)
    requires forall r :: r in Retained(parsed, zh) ==> ':' !in r.row.market
    ensures IsContested(RowsIn(doc.symbolShards, order), listing) <==> IsContradictory(Retained(parsed, zh), listing)
  {
    var records, rows := Retained(parsed, zh), RowsIn(doc.symbolShards, order);
    ReadersSeeTheRecords(doc, records, rules, order);
    EachIdentityOnce(parsed, zh);
    RepeatedMeansContradictory(records, rows, listing);
  }

  lemma RepeatedMeansContradictory(records: seq<Record>, rows: seq<Record>, listing: string)
    requires multiset(rows) == multiset(records) && NoTwoSame(records)
    requires forall r :: r in records ==> ':' !in r.row.market
    ensures IsContested(rows, listing) <==> IsContradictory(records, listing)
  {
    if IsContested(rows, listing) {
      var venue :| IsRepeated(rows, venue, listing);
      RepeatedIffTwoRows(records, rows, venue, listing);
      var i, j :| 0 <= i < j < |records| && VenueListing(records[i]) == (venue, listing) && VenueListing(records[j]) == (venue, listing);
      ListingTextIsUnambiguous(records[i], records[j]);
      assert !Same(records[i], records[j]);
    }
    if IsContradictory(records, listing) { ContradictoryMeansRepeated(records, rows, listing); }
  }

  lemma ContradictoryMeansRepeated(records: seq<Record>, rows: seq<Record>, listing: string)
    requires multiset(rows) == multiset(records) && IsContradictory(records, listing)
    ensures IsContested(rows, listing)
  {
    var a, b :| a in records && b in records && KeyOf(a) == KeyOf(b)
                && ListingOf(a) == listing == ListingOf(b) && IdentityOf(a) != IdentityOf(b);
    var i :| 0 <= i < |records| && records[i] == a;
    var j :| 0 <= j < |records| && records[j] == b;
    RepeatedIffTwoRows(records, rows, a.row.venue, listing);
    TwoRows(records, i, j, (a.row.venue, listing));
  }

  lemma TwoRows(records: seq<Record>, i: nat, j: nat, at: (string, string))
    requires i < |records| && j < |records| && i != j
    requires VenueListing(records[i]) == at == VenueListing(records[j])
    ensures exists k, l :: 0 <= k < l < |records| && VenueListing(records[k]) == at && VenueListing(records[l]) == at
  {
    var k, l := if i < j then i else j, if i < j then j else i;
    assert VenueListing(records[k]) == at && VenueListing(records[l]) == at;
  }
}
