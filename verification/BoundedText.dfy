/**
 The bounded industry detail of the five-field report: a label and an English excerpt in a
 fixed number of UTF-16 code units, clipped between code points and, where possible, words.
 */
module BoundedText {
  import opened PythonText
  import opened Utf16
  import opened Wrappers

  type Text = seq<CodePoint>

  const COLON: CodePoint := 0xFF1A
  const ELLIPSIS: CodePoint := 0x2026
  const SPACE: CodePoint := 0x20

  // ---- " ".join(excerpt.split())

  function WordLength(s: Text): (n: nat)
    ensures n <= |s|
    ensures forall i :: 0 <= i < n ==> !IsSpace(s[i])
    ensures n < |s| ==> IsSpace(s[n])
  {
    if s == [] || IsSpace(s[0]) then 0 else 1 + WordLength(s[1..])
  }

  function Split(s: Text): seq<Text>
    decreases |s|
  {
    if s == [] then []
    else if IsSpace(s[0]) then Split(s[1..])
    else [s[..WordLength(s)]] + Split(s[WordLength(s)..])
  }

  function Join(words: seq<Text>): Text {
    if words == [] then [] else if |words| == 1 then words[0] else words[0] + [SPACE] + Join(words[1..])
  }

  function Normalized(excerpt: Text): Text { Join(Split(excerpt)) }

  predicate IsWord(w: Text) {
    w != [] && forall i :: 0 <= i < |w| ==> !IsSpace(w[i])
  }

  predicate AreWords(words: seq<Text>) {
    words == [] || (IsWord(words[0]) && AreWords(words[1..]))
  }

  lemma {:induction false} SplitGivesWords(s: Text)
    ensures AreWords(Split(s))
    decreases |s|
  {
    if s != [] {
      if IsSpace(s[0]) { SplitGivesWords(s[1..]); } else { SplitGivesWords(s[WordLength(s)..]); }
    }
  }

  lemma FirstWord(w: Text, tail: Text)
    requires IsWord(w) && (tail == [] || IsSpace(tail[0]))
    ensures Split(w + tail) == [w] + Split(tail)
  {
    var s := w + tail;
    WordEnds(w, tail);
    assert s[..|w|] == w && s[|w|..] == tail;
  }

  lemma {:induction false} WordEnds(w: Text, tail: Text)
    requires (forall i :: 0 <= i < |w| ==> !IsSpace(w[i])) && (tail == [] || IsSpace(tail[0]))
    ensures WordLength(w + tail) == |w|
  {
    if w == [] {
      assert w + tail == tail;
    } else {
      WordEnds(w[1..], tail);
      assert (w + tail)[1..] == w[1..] + tail;
    }
  }

  lemma {:induction false} SplitUndoesJoin(words: seq<Text>)
    requires AreWords(words)
    ensures Split(Join(words)) == words
  {
    if words != [] {
      var w, rest := words[0], words[1..];
      assert words == [w] + rest;
      if rest == [] {
        FirstWord(w, []);
        assert w + [] == w;
      } else {
        SplitUndoesJoin(rest);
        var tail := [SPACE] + Join(rest);
        assert tail[1..] == Join(rest);
        FirstWord(w, tail);
        assert Join(words) == w + tail;
      }
    }
  }

  /** Normalising changes the white space between the words only. */
  lemma NormalizedKeepsTheWords(excerpt: Text)
    ensures Split(Normalized(excerpt)) == Split(excerpt)
    ensures Normalized(Normalized(excerpt)) == Normalized(excerpt)
  {
    SplitGivesWords(excerpt);
    SplitUndoesJoin(Split(excerpt));
  }

  // ---- clipping

  predicate HasSeparator(text: Text) { 0x7C in text || 0xFF5C in text }

  /** The index of the last space, or -1. */
  function LastSpace(s: Text): (n: int)
    ensures -1 <= n < |s|
    ensures n >= 0 ==> s[n] == SPACE
    ensures forall i :: n < i < |s| ==> s[i] != SPACE
  {
    if s == [] then -1 else if s[|s| - 1] == SPACE then |s| - 1 else LastSpace(s[..|s| - 1])
  }

  predicate IsTrailing(c: CodePoint) { c == SPACE || c == 0x2C || c == 0x3B || c == 0x3A || c == 0x2D }

  /** `rstrip(" ,;:-")` */
  function Stripped(s: Text): (r: Text)
    ensures r <= s
    ensures r != [] ==> !IsTrailing(r[|r| - 1])
  {
    if s != [] && IsTrailing(s[|s| - 1]) then Stripped(s[..|s| - 1]) else s
  }

  /** The shown text up to its last space if that is far enough in. A negative index counts from the end, as in a Python slice. */
  function CutAtWord(shown: Text, minimum: int): (r: Text)
    ensures r <= shown
  {
    var cut := LastSpace(shown);
    if cut < minimum then shown
    else if cut >= 0 then shown[..cut]
    else if shown == [] then [] else shown[..|shown| - 1]
  }

  /** What stripping removes is blanks, commas, semicolons, colons and hyphens, and it removes all of them. */
  lemma {:induction false} StrippedOfPunctuation(s: Text)
    ensures Stripped(s) <= s
    ensures forall i :: |Stripped(s)| <= i < |s| ==> s[i] in {0x20, 0x2C, 0x3B, 0x3A, 0x2D}
    ensures Stripped(s) != [] ==> Stripped(s)[|Stripped(s)| - 1] !in {0x20, 0x2C, 0x3B, 0x3A, 0x2D}
  {
    if s != [] && IsTrailing(s[|s| - 1]) { StrippedOfPunctuation(s[..|s| - 1]); }
  }

  /** The text ends before its last blank where that is `minimum` characters in or more; otherwise it stays whole. */
  lemma CutBeforeTheLastBlank(shown: Text, minimum: int, n: nat)
    requires minimum >= 0
    ensures n < |shown| && shown[n] == 0x20 && (forall i :: n < i < |shown| ==> shown[i] != 0x20) ==>
              CutAtWord(shown, minimum) == if n >= minimum then shown[..n] else shown
    ensures 0x20 !in shown ==> CutAtWord(shown, minimum) == shown
  {
  }

  /** Under a negative minimum a text without a blank loses its last character. */
  lemma NegativeMinimumCuts(shown: Text, minimum: int)
    requires minimum < 0 && 0x20 !in shown && shown != []
    ensures CutAtWord(shown, minimum) == shown[..|shown| - 1]
  {
  }

  /** Position `k` is as far as `text` can be shown in `budget` units. */
  predicate IsLongestFit(text: Text, budget: int, k: nat) {
    && k <= |text| && (|Encode(text[..k])| <= budget || k == 0)
    && (k < |text| ==> |Encode(text[..k + 1])| > budget)
  }

  method Show(text: Text, budget: int) returns (k: nat)
    ensures IsLongestFit(text, budget, k)
  {
    var used := 0;
    k := 0;
    assert text[..0] == [];
    while k < |text|
      invariant k <= |text| && used == |Encode(text[..k])|
      invariant used <= budget || k == 0
    {
      var width := if text[k] > 0xFFFF then 2 else 1;
      assert text[..k + 1][..k] == text[..k];
      assert |Encode(text[..k + 1])| == used + width;
      if used + width > budget { break; }
      used := used + width;
      k := k + 1;
    }
  }

  lemma {:induction false} UnitsGrow(text: Text, m: nat, n: nat)
    requires m <= n <= |text|
    ensures |Encode(text[..m])| <= |Encode(text[..n])|
    ensures m < n ==> |Encode(text[..m])| < |Encode(text[..n])|
  {
    if m < n {
      UnitsGrow(text, m, n - 1);
      assert text[..n][..n - 1] == text[..n - 1];
    }
  }

  /** The longest fitting prefix is unique, so the scan can only stop there. */
  lemma LongestFitIsUnique(text: Text, budget: int, k: nat, l: nat)
    requires IsLongestFit(text, budget, k) && IsLongestFit(text, budget, l)
    ensures k == l
  {
    if k < l {
      UnitsGrow(text, k + 1, l);
    } else if l < k {
      UnitsGrow(text, l + 1, k);
    }
  }

  // ---- the composed detail

  function Prefix(industry: Text): Text { industry + [COLON] }

  /** What refuses a label and a normalised excerpt: a lone surrogate, no room after the label and its colon, less than thirty
      characters, or one of the two column separators. */
  ghost predicate IsRefused(industry: Text, text: Text, limit: int, minimum: int) {
    var room := limit - |Encode(industry)| - 1;
    || !IsWellFormed(industry) || !IsWellFormed(text)
    || room < minimum || room < 1 || |text| < 30 || 0x7C in text || 0xFF5C in text
  }

  /** The body is the whole normalised excerpt, or a prefix of the part that fits and an ellipsis. */
  ghost predicate IsBody(body: Text, text: Text, room: int, minimum: int) {
    if |Encode(text)| <= room then body == text
    else exists k: nat :: IsLongestFit(text, room - 1, k) && body == Stripped(CutAtWord(text[..k], minimum)) + [0x2026]
  }

  /** The label, a colon and a body. */
  ghost predicate IsDetail(detail: Text, industry: Text, text: Text, limit: int, minimum: int) {
    && industry + [0xFF1A] <= detail
    && IsBody(detail[|industry| + 1..], text, limit - |Encode(industry)| - 1, minimum)
  }

  method BodyOf(text: Text, room: int, minimum: int) returns (body: Text)
    requires IsWellFormed(text) && |text| >= 30
    ensures IsBody(body, text, room, minimum) && IsWellFormed(body)
    ensures |Encode(body)| <= room <==> room >= 1
  {
    if |Encode(text)| > room {
      var k := Show(text, room - 1);
      body := Stripped(CutAtWord(text[..k], minimum)) + [ELLIPSIS];
      ClippedFits(text, room, minimum, k);
    } else {
      LongTextHasUnits(text);
      body := text;
    }
  }

  method Compose(industry: Text, text: Text, limit: int, minimum: int) returns (r: Option<Text>)
    ensures r.None? <==> IsRefused(industry, text, limit, minimum)
    ensures r.Some? ==> IsDetail(r.value, industry, text, limit, minimum)
    ensures r.Some? ==> |Encode(r.value)| <= limit && IsWellFormed(r.value)
  {
    var prefix := Prefix(industry);
    WellFormedPrefix(industry);
    LabelAndBody(industry, [COLON]);
    assert Encode([COLON]) == [COLON] by { assert [COLON][..0] == []; }
    if !IsWellFormed(prefix) { return None; }
    var room := limit - |Encode(prefix)|;
    if room < minimum || |text| < 30 || HasSeparator(text) || !IsWellFormed(text) { return None; }
    var body := BodyOf(text, room, minimum);
    LabelAndBody(prefix, body);
    var composed := prefix + body;
    if |Encode(composed)| > limit { return None; }
    r := Some(composed);
  }

  lemma LabelAndBody(prefix: Text, body: Text)
    ensures |Encode(prefix + body)| == |Encode(prefix)| + |Encode(body)|
    ensures prefix <= prefix + body && (prefix + body)[|prefix|..] == body
    ensures IsWellFormed(prefix) && IsWellFormed(body) ==> IsWellFormed(prefix + body)
  {
    EncodeAppend(prefix, body);
  }

  lemma WellFormedPrefix(industry: Text)
    ensures IsWellFormed(Prefix(industry)) <==> IsWellFormed(industry)
  {
    assert forall i :: 0 <= i < |industry| ==> Prefix(industry)[i] == industry[i];
  }

  /** A label or excerpt that is not text is `None`. */
  method ComposeIndustryDetail(industry: Option<Text>, excerpt: Option<Text>, limit: int, minimum: int) returns (r: Option<Text>)
    ensures r.None? <==>
            industry.None? || excerpt.None? || IsRefused(industry.value, Normalized(excerpt.value), limit, minimum)
    ensures r.Some? ==> IsDetail(r.value, industry.value, Normalized(excerpt.value), limit, minimum)
    ensures r.Some? ==> |Encode(r.value)| <= limit && IsWellFormed(r.value)
  {
    if industry.None? || excerpt.None? { return None; }
    var text := Normalized(excerpt.value);
    r := Compose(industry.value, text, limit, minimum);
  }

  lemma {:induction false} LongTextHasUnits(text: Text)
    ensures |Encode(text)| >= |text|
  {
    if text != [] { LongTextHasUnits(text[..|text| - 1]); }
  }

  lemma EllipsisIsOneUnit(kept: Text)
    ensures |Encode(kept + [ELLIPSIS])| == |Encode(kept)| + 1
  {
    EncodeAppend(kept, [ELLIPSIS]);
    assert [ELLIPSIS][..0] == [];
  }

  lemma PrefixEncodes(a: Text, b: Text, c: Text)
    requires a <= b && b <= c
    ensures a <= c && Encode(a) <= Encode(c)
  {
    assert c == a + c[|a|..];
    EncodeAppend(a, c[|a|..]);
  }

  lemma FittingUnits(text: Text, budget: int, k: nat)
    requires IsLongestFit(text, budget, k)
    ensures |Encode(text[..k])| <= if budget < 0 then 0 else budget
  {
    assert text[..0] == [];
    LongTextHasUnits(text[..k]);
  }

  lemma PrefixIsWellFormed(kept: Text, text: Text)
    requires kept <= text && IsWellFormed(text)
    ensures IsWellFormed(kept + [ELLIPSIS])
  {
    assert forall i :: 0 <= i < |kept| ==> kept[i] == text[i];
  }

  /** The final length check: a clipped body fits exactly when there is room for the ellipsis. */
  lemma ClippedFits(text: Text, room: int, minimum: int, k: nat)
    requires IsLongestFit(text, room - 1, k)
    ensures |Encode(Stripped(CutAtWord(text[..k], minimum)) + [ELLIPSIS])| <= room <==> room >= 1
    ensures IsWellFormed(text) ==> IsWellFormed(Stripped(CutAtWord(text[..k], minimum)) + [ELLIPSIS])
  {
    var kept := Stripped(CutAtWord(text[..k], minimum));
    assert kept <= text[..k];
    PrefixEncodes(kept, text[..k], text[..k]);
    FittingUnits(text, room - 1, k);
    EllipsisIsOneUnit(kept);
    if IsWellFormed(text) { PrefixIsWellFormed(kept, text); }
  }

  /**
   What a reader of an accepted detail can rely on: it starts with the label, what follows (less an ellipsis) is a prefix of the
   normalised excerpt, and its units are the first units of the excerpt's, so that no code point is split.
   */
  lemma DetailIsAnExtract(body: Text, text: Text, room: int, minimum: int)
    requires IsBody(body, text, room, minimum)
    ensures var shown := if |Encode(text)| <= room then body else body[..|body| - 1];
            && shown <= text && Encode(shown) <= Encode(text)
            && (|Encode(text)| > room ==> body == shown + [ELLIPSIS])
  {
    if |Encode(text)| > room {
      var k: nat :| IsLongestFit(text, room - 1, k) && body == Stripped(CutAtWord(text[..k], minimum)) + [ELLIPSIS];
      var shown := body[..|body| - 1];
      assert shown == Stripped(CutAtWord(text[..k], minimum));
      PrefixEncodes(shown, text[..k], text);
    }
  }
}
