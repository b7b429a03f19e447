/**
 The sharded identity directory: parsed listing rows are deduplicated by identity, sorted,
 and filed three ways (by symbol, by hashed name, by hashed leading word). A reader that goes
 from a name through its bucket to the symbol shards finds exactly what a scan of all retained
 records would.
 */
module IdentityShards {
  import opened Ordering
  import Utf16
  import opened Wrappers

  const NAME_BUCKETS: nat := 16
  const TOKEN_BUCKETS: nat := 8

  datatype Row = Row(symbol: string, venue: string, market: string, country: string, name: string, native: Option<string>,
                     cls: string, currency: string)

  datatype Chinese = Chinese(name: string, source: string)

  /** A retained row, the index of its feed, and its Chinese name. */
  datatype Record = Record(row: Row, feed: nat, zh: Option<Chinese>)

  type Key = (string, string)  // venue, symbol

  /** Unicode case folding, name normalisation and tokenising, which the directory shares with its reader. */
  datatype TextRules = TextRules(upper: string -> string, normalize: string -> string, leading: string -> string)

  function KeyOf(r: Record): Key { (r.row.venue, r.row.symbol) }

  // ---- buckets

  function CodeUnits(text: string): seq<Utf16.Unit> {
    if text == [] then [] else Utf16.EncodeOne(text[0] as int) + CodeUnits(text[1..])
  }

  function FnvStep(value: bv32, unit: Utf16.Unit): bv32 { (value ^ (unit as bv32)) * 0x01000193 }

  function Fnv(units: seq<Utf16.Unit>): bv32 {
    if units == [] then 0x811C9DC5 else FnvStep(Fnv(units[..|units| - 1]), units[|units| - 1])
  }

  /** FNV-1a over UTF-16 code units; 32-bit multiplication wraps. */
  method Fnv1aUtf16(text: string) returns (value: bv32)
    ensures value == Fnv(CodeUnits(text))
  {
    var units := CodeUnits(text);
    value := 0x811C9DC5;
    for n := 0 to |units|
      invariant value == Fnv(units[..n])
    {
      assert units[..n + 1][..n] == units[..n];
      value := FnvStep(value, units[n]);
    }
    assert units[..|units|] == units;
  }

  /** Published values of the hash, and the buckets they give. */
  lemma KnownHashes()
    ensures Fnv(CodeUnits("")) == 0x811C9DC5
    ensures Fnv(CodeUnits("a")) == 0xE40C292C && NameBucket("a") == 12 && WordBucket("a") == 4
    ensures Fnv(CodeUnits("b")) == 0xE70C2DE5 && NameBucket("b") == 5 && WordBucket("b") == 5
  {
    assert CodeUnits("a") == [0x61] && CodeUnits("b") == [0x62];
    assert Fnv([0x61]) == FnvStep(Fnv([]), 0x61) && Fnv([0x62]) == FnvStep(Fnv([]), 0x62);
  }

  function NameBucket(name: string): nat { Fnv(CodeUnits(name)) as nat % NAME_BUCKETS }

  function FirstWord(name: string): string {
    if name == [] || name[0] == ' ' then [] else [name[0]] + FirstWord(name[1..])
  }

  /** The word that starts the text: up to the first blank. */
  ghost predicate Begins(text: string, word: string) {
    ' ' !in word && word <= text && (text == word || text[|word|] == ' ')
  }

  lemma {:induction false} FirstWordBegins(text: string, word: string)
    ensures FirstWord(text) == word <==> Begins(text, word)
  {
    if text != [] && text[0] != ' ' {
      FirstWordBegins(text[1..], FirstWord(text[1..]));
      if Begins(text, word) {
        assert word != [] && word[0] == text[0] && ' ' !in word[1..];
        FirstWordBegins(text[1..], word[1..]);
        assert word == [word[0]] + word[1..];
      }
    }
  }

  function WordBucket(word: string): nat { Fnv(CodeUnits(word)) as nat % TOKEN_BUCKETS }

  function TokenBucket(name: string): nat { WordBucket(FirstWord(name)) }

  function SymbolBucket(symbol: string, rules: TextRules): string {
    var first := rules.upper(if symbol == [] then [] else [symbol[0]]);
    if |first| == 1 && ('A' <= first[0] <= 'Z' || '0' <= first[0] <= '9') then first else "_"
  }

  /** Nothing has no name. */
  ghost predicate KeepEmpty(rules: TextRules) {
    rules.upper("") == "" && rules.normalize("") == "" && rules.leading("") == ""
  }

  ghost predicate IsAlphanumeric(c: char) { 'A' <= c <= 'Z' || '0' <= c <= '9' }

  /** A symbol is filed under its first character in upper case when that is a plain letter or digit, else under the underscore. */
  lemma SymbolBucketIsTheFirstCharacter(symbol: string, rules: TextRules, c: char)
    requires KeepEmpty(rules)
    ensures IsAlphanumeric(c) ==> (SymbolBucket(symbol, rules) == [c] <==> symbol != "" && rules.upper([symbol[0]]) == [c])
    ensures (forall d :: IsAlphanumeric(d) ==> SymbolBucket(symbol, rules) != [d]) ==> SymbolBucket(symbol, rules) == "_"
  {
    var bucket := SymbolBucket(symbol, rules);
    if bucket != "_" { assert IsAlphanumeric(bucket[0]) && bucket == [bucket[0]]; }
  }

  // ---- deduplication

  datatype Parsed = Parsed(row: Row, feed: nat)

  function ChineseName(row: Row, names: map<string, Chinese>): Option<Chinese> {
    if row.market == "TAIWAN" then
      var full := if row.native.Some? && row.native.value != "" then row.native.value else row.name;
      Some(Chinese(if |full| <= 40 then full else full[..40], row.venue))
    else if row.market + ":" + row.symbol in names then Some(names[row.market + ":" + row.symbol])
    else None
  }

  ghost predicate IsCutAtForty(full: string, cut: string) {
    cut <= full && |cut| <= 40 && (cut == full || |cut| == 40)
  }

  /** In Taiwan the native name, or else the name, from the venue itself; elsewhere the sourced name, if there is one. */
  lemma ChineseNameOfARow(row: Row, names: map<string, Chinese>)
    ensures var zh := ChineseName(row, names);
            if row.market == "TAIWAN" then
              && zh.Some? && zh.value.source == row.venue
              && (row.native.Some? && |row.native.value| > 0 ==> IsCutAtForty(row.native.value, zh.value.name))
              && (row.native.None? || |row.native.value| == 0 ==> IsCutAtForty(row.name, zh.value.name))
            else
              forall found :: zh == Some(found) <==> (row.market + ":" + row.symbol, found) in names.Items
  {
  }

  /** What the directory compares: everything but the key and the feed. */
  datatype Identity = Identity(market: string, country: string, name: string, native: Option<string>, cls: string,
                               currency: string, zh: Option<Chinese>)

  function IdentityOf(r: Record): Identity {
    Identity(r.row.market, r.row.country, r.row.name, r.row.native, r.row.cls, r.row.currency, r.zh)
  }

  predicate Same(a: Record, b: Record) { KeyOf(a) == KeyOf(b) && IdentityOf(a) == IdentityOf(b) }

  function RecordOf(p: Parsed, names: map<string, Chinese>): Record { Record(p.row, p.feed, ChineseName(p.row, names)) }

  /** Two records are the same when they differ in nothing but the feed they came from. */
  lemma SameButForTheFeed(a: Record, b: Record)
    ensures Same(a, b) <==> a == b.(feed := a.feed)
  {
  }

  predicate IsRetained(kept: seq<Record>, r: Record) { exists i :: 0 <= i < |kept| && Same(kept[i], r) }

  function Retained(parsed: seq<Parsed>, names: map<string, Chinese>): seq<Record> {
    if parsed == [] then []
    else
      var before, r := Retained(parsed[..|parsed| - 1], names), RecordOf(parsed[|parsed| - 1], names);
      if IsRetained(before, r) then before else before + [r]
  }

  method Deduplicate(parsed: seq<Parsed>, names: map<string, Chinese>) returns (records: seq<Record>)
    ensures records == Retained(parsed, names)
  {
    records := [];
    var seen: map<Key, set<Identity>> := map[];
    for n := 0 to |parsed|
      invariant records == Retained(parsed[..n], names)
      invariant forall r: Record :: IsRetained(records, r) <==> KeyOf(r) in seen && IdentityOf(r) in seen[KeyOf(r)]
    {
      var r := RecordOf(parsed[n], names);
      assert parsed[..n + 1][..n] == parsed[..n];
      var kept := if KeyOf(r) in seen then seen[KeyOf(r)] else {};
      if IdentityOf(r) !in kept {
        RetainOneMore(records, r);
        seen := seen[KeyOf(r) := kept + {IdentityOf(r)}];
        records := records + [r];
      }
    }
    assert parsed[..|parsed|] == parsed;
  }

  lemma RetainOneMore(kept: seq<Record>, r: Record)
    ensures forall s: Record :: IsRetained(kept + [r], s) <==> IsRetained(kept, s) || Same(r, s)
  {
    forall s: Record ensures IsRetained(kept + [r], s) <==> IsRetained(kept, s) || Same(r, s) {
      if IsRetained(kept, s) {
        var i :| 0 <= i < |kept| && Same(kept[i], s);
        assert Same((kept + [r])[i], s);
      }
      if Same(r, s) { assert Same((kept + [r])[|kept|], s); }
    }
  }

  // ---- what deduplication keeps

  ghost predicate IsFirstOfIdentity(parsed: seq<Parsed>, names: map<string, Chinese>, n: nat) {
    n < |parsed| && forall m :: 0 <= m < n ==> !Same(RecordOf(parsed[m], names), RecordOf(parsed[n], names))
  }

  ghost predicate NoTwoSame(kept: seq<Record>) {
    forall i, j :: 0 <= i < j < |kept| ==> !Same(kept[i], kept[j])
  }

  /** Each distinct identity is retained once. */
  lemma {:induction false} EachIdentityOnce(parsed: seq<Parsed>, names: map<string, Chinese>)
    ensures NoTwoSame(Retained(parsed, names))
  {
    if parsed != [] {
      EachIdentityOnce(parsed[..|parsed| - 1], names);
      var before, last := Retained(parsed[..|parsed| - 1], names), RecordOf(parsed[|parsed| - 1], names);
      assert !IsRetained(before, last) ==> NoTwoSame(before + [last]);
    }
  }

  /** No identity is lost. */
  lemma {:induction false} NoIdentityIsLost(parsed: seq<Parsed>, names: map<string, Chinese>, n: nat)
    requires n < |parsed|
    ensures IsRetained(Retained(parsed, names), RecordOf(parsed[n], names))
  {
    var m := |parsed| - 1;
    if n < m {
      NoIdentityIsLost(parsed[..m], names, n);
      assert parsed[..m][n] == parsed[n];
    }
    RetainOneMore(Retained(parsed[..m], names), RecordOf(parsed[m], names));
  }

  /** What is retained of an identity is its first parsed row. */
  lemma {:induction false} FirstOfIdentityIsRetained(parsed: seq<Parsed>, names: map<string, Chinese>, n: nat)
    requires IsFirstOfIdentity(parsed, names, n)
    ensures RecordOf(parsed[n], names) in Retained(parsed, names)
  {
    var m := |parsed| - 1;
    assert forall k :: 0 <= k < m ==> parsed[..m][k] == parsed[k];
    if n < m {
      assert IsFirstOfIdentity(parsed[..m], names, n);
      FirstOfIdentityIsRetained(parsed[..m], names, n);
    } else if IsRetained(Retained(parsed[..m], names), RecordOf(parsed[m], names)) {
      var i :| 0 <= i < |Retained(parsed[..m], names)| && Same(Retained(parsed[..m], names)[i], RecordOf(parsed[m], names));
      var k := RetainedIsFirstOfIdentity(parsed[..m], names, Retained(parsed[..m], names)[i]);
    }
  }

  lemma {:induction false} RetainedIsFirstOfIdentity(parsed: seq<Parsed>, names: map<string, Chinese>, r: Record) returns (n: nat)
    requires r in Retained(parsed, names)
    ensures IsFirstOfIdentity(parsed, names, n) && r == RecordOf(parsed[n], names)
  {
    var m := |parsed| - 1;
    assert forall k :: 0 <= k < m ==> parsed[..m][k] == parsed[k];
    if r in Retained(parsed[..m], names) {
      n := RetainedIsFirstOfIdentity(parsed[..m], names, r);
    } else {
      n := m;
      forall k | 0 <= k < m ensures !Same(RecordOf(parsed[k], names), RecordOf(parsed[m], names)) {
        NoIdentityIsLost(parsed[..m], names, k);
      }
    }
  }

  function HasKey(key: Key): Record -> bool { (r: Record) => KeyOf(r) == key }

  ghost predicate IsFirstOfKey(parsed: seq<Parsed>, names: map<string, Chinese>, n: nat) {
    n < |parsed| && forall m :: 0 <= m < n ==> KeyOf(RecordOf(parsed[m], names)) != KeyOf(RecordOf(parsed[n], names))
  }

  /** The variants of a key start with its first-encountered row. */
  lemma {:induction false} FirstVariantIsFirst(parsed: seq<Parsed>, names: map<string, Chinese>, n: nat)
    requires IsFirstOfKey(parsed, names, n)
    ensures var r := RecordOf(parsed[n], names);
            var variants := Filter(HasKey(KeyOf(r)), Retained(parsed, names));
            variants != [] && variants[0] == r
  {
    var m := |parsed| - 1;
    var before, last := Retained(parsed[..m], names), RecordOf(parsed[m], names);
    var key := KeyOf(RecordOf(parsed[n], names));
    assert forall k :: 0 <= k < m ==> parsed[..m][k] == parsed[k];
    FilterAppend(HasKey(key), before, [last]);
    if n < m {
      assert IsFirstOfKey(parsed[..m], names, n);
      FirstVariantIsFirst(parsed[..m], names, n);
    } else {
      forall r | r in before ensures KeyOf(r) != key {
        var k := RetainedIsFirstOfIdentity(parsed[..m], names, r);
      }
      FilterNone(HasKey(key), before);
      assert forall i :: 0 <= i < |before| ==> before[i] in before;
    }
  }

  // ---- sorting

  predicate SortsBefore(a: Record, b: Record) {
    || TextLess(a.row.symbol, b.row.symbol)
    || (a.row.symbol == b.row.symbol && TextLeq(a.row.venue, b.row.venue))
  }

  function Sorted(records: seq<Record>): seq<Record> { SortBy(SortsBefore, records) }

  /** By symbol, then by venue. */
  lemma SortedBySymbolThenVenue(records: seq<Record>, i: nat, j: nat)
    requires i < j < |Sorted(records)|
    ensures var a, b := Sorted(records)[i].row, Sorted(records)[j].row;
            TextLeq(a.symbol, b.symbol) && (a.symbol == b.symbol ==> TextLeq(a.venue, b.venue))
  {
    TextLeqIsOrder();
    SortIsSortedPermutation(SortsBefore, records);
  }

  /** Sorting keeps the records, and the variants of a key in their order. */
  lemma SortingKeepsVariants(records: seq<Record>, key: Key)
    ensures multiset(Sorted(records)) == multiset(records)
    ensures Filter(HasKey(key), Sorted(records)) == Filter(HasKey(key), records)
  {
    TextLeqIsOrder();
    SortIsSortedPermutation(SortsBefore, records);
    SortIsStable(SortsBefore, HasKey(key), records);
  }

  // ---- symbol shards

  function InBucket(bucket: string, rules: TextRules): Record -> bool {
    (r: Record) => SymbolBucket(r.row.symbol, rules) == bucket
  }

  /** A shard per bucket that occurs, holding the bucket's records in the given order. */
  ghost predicate AreSymbolShards(shards: map<string, seq<Record>>, records: seq<Record>, rules: TextRules) {
    forall bucket: string ::
      (if bucket in shards then shards[bucket] else []) == Filter(InBucket(bucket, rules), records)
      && (bucket in shards ==> shards[bucket] != [])
  }

  method BuildSymbolShards(sorted: seq<Record>, rules: TextRules) returns (shards: map<string, seq<Record>>)
    ensures AreSymbolShards(shards, sorted, rules)
  {
    shards := map[];
    for n := 0 to |sorted|
      invariant AreSymbolShards(shards, sorted[..n], rules)
    {
      var r := sorted[n];
      var own := SymbolBucket(r.row.symbol, rules);
      assert sorted[..n + 1] == sorted[..n] + [r];
      FileOneMore(shards, sorted[..n], r, rules);
      shards := shards[own := (if own in shards then shards[own] else []) + [r]];
    }
    assert sorted[..|sorted|] == sorted;
  }

  lemma FileOneMore(shards: map<string, seq<Record>>, records: seq<Record>, r: Record, rules: TextRules)
    requires AreSymbolShards(shards, records, rules)
    ensures var own := SymbolBucket(r.row.symbol, rules);
            AreSymbolShards(shards[own := (if own in shards then shards[own] else []) + [r]], records + [r], rules)
  {
    forall bucket: string
      ensures Filter(InBucket(bucket, rules), records + [r])
              == Filter(InBucket(bucket, rules), records) + if InBucket(bucket, rules)(r) then [r] else []
    {
      FilterAppend(InBucket(bucket, rules), records, [r]);
      FilterOne(InBucket(bucket, rules), r);
    }
  }

  /** The shards partition the records: a record is filed in the shard of its own bucket and in no other, as often as it occurs. */
  lemma SymbolShardsPartition(shards: map<string, seq<Record>>, records: seq<Record>, rules: TextRules, r: Record)
    requires AreSymbolShards(shards, records, rules)
    ensures forall bucket :: bucket in shards && r in shards[bucket] ==> bucket == SymbolBucket(r.row.symbol, rules) && r in records
    ensures r in records ==>
              var bucket := SymbolBucket(r.row.symbol, rules);
              bucket in shards && multiset(shards[bucket])[r] == multiset(records)[r]
  {
    forall bucket | bucket in shards ensures forall s :: s in shards[bucket] ==> s in records && SymbolBucket(s.row.symbol, rules) == bucket {
      FilterMembers(InBucket(bucket, rules), records);
    }
    if r in records {
      var bucket := SymbolBucket(r.row.symbol, rules);
      FilterMembers(InBucket(bucket, rules), records);
      FilterMultiplicity(InBucket(bucket, rules), records, r);
    }
  }

  lemma {:induction false} FilterMultiplicity(p: Record -> bool, s: seq<Record>, x: Record)
    requires p(x)
    ensures multiset(Filter(p, s))[x] == multiset(s)[x]
  {
    if s != [] {
      FilterMultiplicity(p, s[1..], x);
      assert s == [s[0]] + s[1..];
    }
  }

  // ---- name and token shards

  /** A name, and where to look: the symbol bucket and the key. */
  datatype NameRow = NameRow(name: string, bucket: string, symbol: string, venue: string)

  function OrEmpty(text: Option<string>): string { if text.Some? then text.value else "" }

  /** The names a record is filed under. */
  function IndexNames(rules: TextRules): Record -> set<string> {
    (r: Record) => {rules.normalize(r.row.name), rules.normalize(OrEmpty(r.row.native)),
                    rules.normalize(if r.zh.Some? then r.zh.value.name else "")} - {""}
  }

  /** The tokenized names a record is filed under; `leading` gives none where the first word is not Latin script. */
  function LeadingNames(rules: TextRules): Record -> set<string> {
    (r: Record) => {rules.leading(r.row.name), rules.leading(OrEmpty(r.row.native))} - {""}
  }

  function NameRowOf(name: string, r: Record, rules: TextRules): NameRow {
    NameRow(name, SymbolBucket(r.row.symbol, rules), r.row.symbol, r.row.venue)
  }

  ghost predicate IsFiled(shards: map<nat, seq<NameRow>>, bucket: nat, row: NameRow) {
    bucket in shards && row in shards[bucket]
  }

  /** Some record of the list bears the name of the row, and the row points to that record's key. */
  ghost predicate IsBorne(records: seq<Record>, namesOf: Record -> set<string>, rules: TextRules, row: NameRow) {
    exists i :: 0 <= i < |records| && row.name in namesOf(records[i]) && row == NameRowOf(row.name, records[i], rules)
  }

  /** Exactly the borne rows are filed, each in the bucket of its name. */
  ghost predicate AreNameShards(shards: map<nat, seq<NameRow>>, records: seq<Record>, namesOf: Record -> set<string>,
                                bucketOf: string -> nat, rules: TextRules) {
    forall bucket: nat, row: NameRow ::
      IsFiled(shards, bucket, row) <==> bucket == bucketOf(row.name) && IsBorne(records, namesOf, rules, row)
  }

  ghost predicate NoRowTwice(shards: map<nat, seq<NameRow>>) {
    forall bucket, i, j :: bucket in shards && 0 <= i < j < |shards[bucket]| ==> shards[bucket][i] != shards[bucket][j]
  }

  /** The loop both indexes share. The names of one record are visited in no particular order. */
  method BuildNameShards(sorted: seq<Record>, namesOf: Record -> set<string>, bucketOf: string -> nat, rules: TextRules)
    returns (shards: map<nat, seq<NameRow>>)
    ensures AreNameShards(shards, sorted, namesOf, bucketOf, rules)
    ensures NoRowTwice(shards)
  {
    shards := map[];
    var seen: set<NameRow> := {};
    for n := 0 to |sorted|
      invariant AreNameShards(shards, sorted[..n], namesOf, bucketOf, rules)
      invariant NoRowTwice(shards)
      invariant forall row :: row in seen <==> IsFiled(shards, bucketOf(row.name), row)
    {
      var r := sorted[n];
      var left := namesOf(r);
      ghost var filed := shards;
      while left != {}
        invariant left <= namesOf(r)
        invariant NoRowTwice(shards)
        invariant forall row :: row in seen <==> IsFiled(shards, bucketOf(row.name), row)
        invariant forall bucket: nat, row :: IsFiled(shards, bucket, row) <==>
                    || IsFiled(filed, bucket, row)
                    || (bucket == bucketOf(row.name) && row.name in namesOf(r) && row.name !in left && row == NameRowOf(row.name, r, rules))
      {
        var name :| name in left;
        var row := NameRowOf(name, r, rules);
        if row !in seen {
          seen := seen + {row};
          var bucket := bucketOf(name);
          shards := shards[bucket := (if bucket in shards then shards[bucket] else []) + [row]];
        }
        left := left - {name};
      }
      forall row ensures IsBorne(sorted[..n + 1], namesOf, rules, row) <==>
                         IsBorne(sorted[..n], namesOf, rules, row) || (row.name in namesOf(r) && row == NameRowOf(row.name, r, rules))
      {
        BorneByOneMore(sorted, n, namesOf, rules, row);
      }
    }
    assert sorted[..|sorted|] == sorted;
  }

  lemma BorneByOneMore(records: seq<Record>, n: nat, namesOf: Record -> set<string>, rules: TextRules, row: NameRow)
    requires n < |records|
    ensures IsBorne(records[..n + 1], namesOf, rules, row) <==>
            IsBorne(records[..n], namesOf, rules, row)
            || (row.name in namesOf(records[n]) && row == NameRowOf(row.name, records[n], rules))
  {
    assert forall i :: 0 <= i < n ==> records[..n][i] == records[i];
    assert forall i :: 0 <= i <= n ==> records[..n + 1][i] == records[i];
    if IsBorne(records[..n], namesOf, rules, row) {
      var i :| 0 <= i < n && row.name in namesOf(records[..n][i]) && row == NameRowOf(row.name, records[..n][i], rules);
      assert row.name in namesOf(records[..n + 1][i]);
    }
    if row.name in namesOf(records[n]) { assert row.name in namesOf(records[..n + 1][n]); }
  }

  // ---- the document

  datatype Document = Document(symbolShards: map<string, seq<Record>>, nameShards: map<nat, seq<NameRow>>,
                               tokenShards: map<nat, seq<NameRow>>)

  ghost predicate IsDocumentOf(doc: Document, records: seq<Record>, rules: TextRules) {
    && AreSymbolShards(doc.symbolShards, Sorted(records), rules)
    && AreNameShards(doc.nameShards, Sorted(records), IndexNames(rules), NameBucket, rules)
    && AreNameShards(doc.tokenShards, Sorted(records), LeadingNames(rules), TokenBucket, rules)
  }

  method BuildDocument(parsed: seq<Parsed>, names: map<string, Chinese>, rules: TextRules) returns (doc: Document)
    ensures IsDocumentOf(doc, Retained(parsed, names), rules)
  {
    var records := Deduplicate(parsed, names);
    var sorted := Sorted(records);
    var bySymbol := BuildSymbolShards(sorted, rules);
    var byName := BuildNameShards(sorted, IndexNames(rules), NameBucket, rules);
    var byToken := BuildNameShards(sorted, LeadingNames(rules), TokenBucket, rules);
    doc := Document(bySymbol, byName, byToken);
  }

  /** A symbol shard holds a key's variants in their first-encounter order. */
  lemma ShardKeepsVariantOrder(doc: Document, records: seq<Record>, rules: TextRules, key: Key)
    requires IsDocumentOf(doc, records, rules)
    ensures var bucket := SymbolBucket(key.1, rules);
            Filter(HasKey(key), if bucket in doc.symbolShards then doc.symbolShards[bucket] else []) == Filter(HasKey(key), records)
  {
    SortingKeepsVariants(records, key);
    FilterTwice(HasKey(key), InBucket(SymbolBucket(key.1, rules), rules), Sorted(records));
  }

  // ---- looking up

  /** What a reader finds at one name row: the records of its key in the symbol shard the row names. */
  ghost predicate FindsAt(symbolShards: map<string, seq<Record>>, row: NameRow, r: Record) {
    row.bucket in symbolShards && r in symbolShards[row.bucket] && KeyOf(r) == (row.venue, row.symbol)
  }

  /** Sharded lookup: one bucket of name rows, those whose name was asked for, then the symbol shards they point into. */
  ghost predicate Finds(symbolShards: map<string, seq<Record>>, shards: map<nat, seq<NameRow>>, bucket: nat, asked: string -> bool,
                        r: Record) {
    exists row :: IsFiled(shards, bucket, row) && asked(row.name) && FindsAt(symbolShards, row, r)
  }

  /** The scan: some variant of the record's key bears a name that was asked for. */
  ghost predicate ScanFinds(records: seq<Record>, namesOf: Record -> set<string>, asked: string -> bool, r: Record) {
    r in records && exists v, name :: v in records && KeyOf(v) == KeyOf(r) && name in namesOf(v) && asked(name)
  }

  lemma PointedRecords(symbolShards: map<string, seq<Record>>, records: seq<Record>, rules: TextRules, v: Record, name: string, r: Record)
    requires AreSymbolShards(symbolShards, records, rules) && v in records
    ensures FindsAt(symbolShards, NameRowOf(name, v, rules), r) <==> r in records && KeyOf(r) == KeyOf(v)
  {
    SymbolShardsPartition(symbolShards, records, rules, r);
    if r in records { assert multiset(records)[r] > 0; }
  }

  lemma LookupAgreesWithScan(symbolShards: map<string, seq<Record>>, shards: map<nat, seq<NameRow>>, records: seq<Record>,
                             namesOf: Record -> set<string>, bucketOf: string -> nat, rules: TextRules,
                             bucket: nat, asked: string -> bool, r: Record)
    requires AreSymbolShards(symbolShards, records, rules)
    requires AreNameShards(shards, records, namesOf, bucketOf, rules)
    requires forall name :: asked(name) ==> bucketOf(name) == bucket
    ensures Finds(symbolShards, shards, bucket, asked, r) <==> ScanFinds(records, namesOf, asked, r)
  {
    if Finds(symbolShards, shards, bucket, asked, r) {
      var row :| IsFiled(shards, bucket, row) && asked(row.name) && FindsAt(symbolShards, row, r);
      assert IsBorne(records, namesOf, rules, row);
      var i :| 0 <= i < |records| && row.name in namesOf(records[i]) && row == NameRowOf(row.name, records[i], rules);
      PointedRecords(symbolShards, records, rules, records[i], row.name, r);
    }
    if ScanFinds(records, namesOf, asked, r) {
      var v, name :| v in records && KeyOf(v) == KeyOf(r) && name in namesOf(v) && asked(name);
      var row := NameRowOf(name, v, rules);
      var i :| 0 <= i < |records| && records[i] == v;
      assert name in namesOf(records[i]);
      assert IsBorne(records, namesOf, rules, row);
      PointedRecords(symbolShards, records, rules, v, name, r);
      assert IsFiled(shards, bucket, row);
    }
  }

  lemma ScanIgnoresOrder(a: seq<Record>, b: seq<Record>, namesOf: Record -> set<string>, asked: string -> bool, r: Record)
    requires multiset(a) == multiset(b)
    ensures ScanFinds(a, namesOf, asked, r) <==> ScanFinds(b, namesOf, asked, r)
  {
    forall x ensures x in a <==> x in b { MultisetMember(a, b, x); }
  }

  function Named(name: string): string -> bool { (n: string) => n == name }

  function StartsWith(word: string): string -> bool { (n: string) => FirstWord(n) == word }

  /** By name: exactly the retained records of every key with some variant that bears the name. */
  lemma LookupByNameAgreesWithScan(doc: Document, records: seq<Record>, rules: TextRules, name: string, r: Record)
    requires IsDocumentOf(doc, records, rules)
    ensures Finds(doc.symbolShards, doc.nameShards, NameBucket(name), Named(name), r)
            <==> ScanFinds(records, IndexNames(rules), Named(name), r)
  {
    SortIsSortedPermutation(SortsBefore, records);
    ScanIgnoresOrder(Sorted(records), records, IndexNames(rules), Named(name), r);
    LookupAgreesWithScan(doc.symbolShards, doc.nameShards, Sorted(records), IndexNames(rules), NameBucket, rules,
                         NameBucket(name), Named(name), r);
  }

  /** By leading word: exactly the retained records of every key with some variant whose tokenized name starts with the word. */
  lemma LookupByWordAgreesWithScan(doc: Document, records: seq<Record>, rules: TextRules, word: string, r: Record)
    requires IsDocumentOf(doc, records, rules)
    ensures Finds(doc.symbolShards, doc.tokenShards, WordBucket(word), StartsWith(word), r)
            <==> ScanFinds(records, LeadingNames(rules), StartsWith(word), r)
  {
    SortIsSortedPermutation(SortsBefore, records);
    ScanIgnoresOrder(Sorted(records), records, LeadingNames(rules), StartsWith(word), r);
    LookupAgreesWithScan(doc.symbolShards, doc.tokenShards, Sorted(records), LeadingNames(rules), TokenBucket, rules,
                         WordBucket(word), StartsWith(word), r);
  }

  /** The record's name, native name or Chinese name reads `name` once normalised. */
  ghost predicate Bears(r: Record, name: string, rules: TextRules) {
    || rules.normalize(r.row.name) == name
    || (r.row.native.Some? && rules.normalize(r.row.native.value) == name)
    || (r.zh.Some? && rules.normalize(r.zh.value.name) == name)
  }

  /** The record's name or native name, in words, starts with `word`. */
  ghost predicate StartsInWords(r: Record, word: string, rules: TextRules) {
    || (rules.leading(r.row.name) != "" && Begins(rules.leading(r.row.name), word))
    || (r.row.native.Some? && rules.leading(r.row.native.value) != "" && Begins(rules.leading(r.row.native.value), word))
  }

  ghost predicate SameListing(a: Record, b: Record) {
    a.row.venue == b.row.venue && a.row.symbol == b.row.symbol
  }

  /** A record is found under its name, its native name and its Chinese name, and under those of the variants of its listing alone. */
  lemma FoundUnderEachName(doc: Document, records: seq<Record>, rules: TextRules, name: string, r: Record)
    requires IsDocumentOf(doc, records, rules) && KeepEmpty(rules)
    ensures Finds(doc.symbolShards, doc.nameShards, NameBucket(name), Named(name), r)
            <==> name != "" && r in records && exists v :: v in records && SameListing(v, r) && Bears(v, name, rules)
  {
    LookupByNameAgreesWithScan(doc, records, rules, name, r);
    forall v | v in records ensures name in IndexNames(rules)(v) <==> name != "" && Bears(v, name, rules) {}
    if v :| name != "" && r in records && v in records && SameListing(v, r) && Bears(v, name, rules) {
      assert KeyOf(v) == KeyOf(r) && name in IndexNames(rules)(v) && Named(name)(name);
    }
    if ScanFinds(records, IndexNames(rules), Named(name), r) {
      var v, n :| v in records && KeyOf(v) == KeyOf(r) && n in IndexNames(rules)(v) && Named(name)(n);
      assert SameListing(v, r) && Bears(v, name, rules);
    }
  }

  lemma LeadingNamesStart(v: Record, word: string, rules: TextRules)
    requires KeepEmpty(rules)
    ensures StartsInWords(v, word, rules) <==> exists name :: name in LeadingNames(rules)(v) && StartsWith(word)(name)
  {
    forall name ensures StartsWith(word)(name) <==> Begins(name, word) { FirstWordBegins(name, word); }
    if StartsInWords(v, word, rules) {
      var name :| name in LeadingNames(rules)(v) && Begins(name, word);
      assert StartsWith(word)(name);
    }
  }

  /** By leading word: under those of its name and native name. */
  lemma FoundUnderEachLeadingWord(doc: Document, records: seq<Record>, rules: TextRules, word: string, r: Record)
    requires IsDocumentOf(doc, records, rules) && KeepEmpty(rules)
    ensures Finds(doc.symbolShards, doc.tokenShards, WordBucket(word), StartsWith(word), r)
            <==> r in records && exists v :: v in records && SameListing(v, r) && StartsInWords(v, word, rules)
  {
    LookupByWordAgreesWithScan(doc, records, rules, word, r);
    if v :| r in records && v in records && SameListing(v, r) && StartsInWords(v, word, rules) {
      LeadingNamesStart(v, word, rules);
      assert KeyOf(v) == KeyOf(r);
    }
    if ScanFinds(records, LeadingNames(rules), StartsWith(word), r) {
      var v, n :| v in records && KeyOf(v) == KeyOf(r) && n in LeadingNames(rules)(v) && StartsWith(word)(n);
      LeadingNamesStart(v, word, rules);
      assert SameListing(v, r);
    }
  }
}
