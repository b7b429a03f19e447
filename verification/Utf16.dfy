/** UTF-16 code units (section 2 of RFC 2781), from code points and as raw unit sequences. */
module Utf16 {
  import opened PythonText

  type Unit = u: int | 0 <= u <= 0xFFFF

  predicate IsSurrogate(c: int) { 0xD800 <= c <= 0xDFFF }

  predicate IsHigh(u: int) { 0xD800 <= u <= 0xDBFF }

  predicate IsLow(u: int) { 0xDC00 <= u <= 0xDFFF }

  // ---- from code points

  predicate IsWellFormed(text: seq<CodePoint>) {
    forall i :: 0 <= i < |text| ==> !IsSurrogate(text[i])
  }

  function EncodeOne(c: CodePoint): seq<Unit> {
    if c <= 0xFFFF then [c] else [0xD800 + (c - 0x10000) / 0x400, 0xDC00 + (c - 0x10000) % 0x400]
  }

  function Encode(text: seq<CodePoint>): seq<Unit> {
    if text == [] then [] else Encode(text[..|text| - 1]) + EncodeOne(text[|text| - 1])
  }

  lemma Regroup(x: seq<Unit>, y: seq<Unit>, z: seq<Unit>)
    ensures (x + y) + z == x + (y + z)
  {
  }

  lemma {:induction false} EncodeAppend(a: seq<CodePoint>, b: seq<CodePoint>)
    ensures Encode(a + b) == Encode(a) + Encode(b)
  {
    if b == [] {
      assert a + b == a;
    } else {
      var front, last := b[..|b| - 1], b[|b| - 1];
      EncodeAppend(a, front);
      assert (a + b)[..|a + b| - 1] == a + front && (a + b)[|a + b| - 1] == last;
      Regroup(Encode(a), Encode(front), EncodeOne(last));
    }
  }

  // ---- raw unit sequences, which may hold lone surrogates

  const REPLACEMENT: Unit := 0xFFFD

  /** Every surrogate stands in a high-low pair. */
  predicate IsPaired(units: seq<Unit>) {
    if units == [] then true
    else if IsHigh(units[0]) then |units| > 1 && IsLow(units[1]) && IsPaired(units[2..])
    else !IsLow(units[0]) && IsPaired(units[1..])
  }

  /** What a .NET encoder or decoder passes on: each lone surrogate becomes U+FFFD. */
  function Repaired(units: seq<Unit>): (r: seq<Unit>)
    ensures |r| == |units|
  {
    if units == [] then []
    else if IsHigh(units[0]) && |units| > 1 && IsLow(units[1]) then units[..2] + Repaired(units[2..])
    else if IsSurrogate(units[0]) then [REPLACEMENT] + Repaired(units[1..])
    else [units[0]] + Repaired(units[1..])
  }

  lemma {:induction false} RepairedIsPaired(units: seq<Unit>)
    ensures IsPaired(Repaired(units))
  {
    if units != [] {
      if IsHigh(units[0]) && |units| > 1 && IsLow(units[1]) {
        RepairedIsPaired(units[2..]);
        assert Repaired(units)[2..] == Repaired(units[2..]);
      } else {
        RepairedIsPaired(units[1..]);
        assert Repaired(units)[1..] == Repaired(units[1..]);
      }
    }
  }

  /** Repairing changes nothing exactly when there is nothing to repair. */
  lemma {:induction false} RepairedIsSameIffPaired(units: seq<Unit>)
    ensures Repaired(units) == units <==> IsPaired(units)
  {
    if units != [] {
      if IsHigh(units[0]) && |units| > 1 && IsLow(units[1]) {
        RepairedIsSameIffPaired(units[2..]);
        assert units == units[..2] + units[2..];
        assert Repaired(units)[2..] == Repaired(units[2..]);
      } else {
        RepairedIsSameIffPaired(units[1..]);
        assert units == [units[0]] + units[1..];
        assert Repaired(units)[1..] == Repaired(units[1..]);
      }
    }
  }

  // ---- the encoding of one code point

  /** The code point that a high and a low surrogate stand for. */
  ghost function PairValue(high: int, low: int): int { 0x10000 + 0x400 * (high - 0xD800) + (low - 0xDC00) }

  /** A code point of the basic plane is its own unit; any other one is a high and a low surrogate, from which it is read back. */
  lemma UnitsOfACodePoint(c: CodePoint)
    ensures var units := EncodeOne(c);
            if c < 0x10000 then units == [c]
            else |units| == 2 && 0xD800 <= units[0] < 0xDC00 && 0xDC00 <= units[1] < 0xE000 && c == PairValue(units[0], units[1])
  {
  }

  /** No code point of the text is a surrogate. */
  lemma WellFormedIff(text: seq<CodePoint>)
    ensures IsWellFormed(text) <==> forall c :: c in text ==> c < 0xD800 || c > 0xDFFF
  {
    if forall c :: c in text ==> c < 0xD800 || c > 0xDFFF {
      forall i | 0 <= i < |text| ensures !IsSurrogate(text[i]) { assert text[i] in text; }
    }
  }
}
