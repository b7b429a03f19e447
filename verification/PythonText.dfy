/** The parts of Python's text handling that several modules rely on. */
module PythonText {

  /** A Unicode code point. A Python `str` may also hold lone surrogates, which Dafny's `char` cannot. */
  type CodePoint = c: int | 0 <= c <= 0x10FFFF

  /** `str.isspace`: what `split()` and `strip()` treat as white space. */
  predicate IsSpace(c: CodePoint) {
    || 0x09 <= c <= 0x0D || 0x1C <= c <= 0x20 || c == 0x85 || c == 0xA0 || c == 0x1680
    || 0x2000 <= c <= 0x200A || c == 0x2028 || c == 0x2029 || c == 0x202F || c == 0x205F || c == 0x3000
  }

  /** `not text.strip()` */
  predicate IsBlank(text: string) {
    forall i :: 0 <= i < |text| ==> IsSpace(text[i] as int)
  }
}
