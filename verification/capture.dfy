/** `parsertl::capture`: the [first, second) positions of a captured span of the input
    text. Positions are offsets into the text; a pointer difference is a `size_t`. */
module Capture {
  import opened Wrappers

  const SizeRange: nat := 0x1_0000_0000_0000_0000

  datatype Capture = Capture(first: nat, second: nat)

  /** The default-constructed capture: both ends the default (null) position. */
  const DefaultCapture: Capture := Capture(0, 0)

  /** `empty`. */
  predicate IsEmpty(c: Capture) {
    c.first == c.second
  }

  /** `length`: `second - first` as a `size_t`, wrapping when the span is reversed. */
  function Length(c: Capture): (n: nat)
    ensures n < SizeRange
    ensures c.first <= c.second < c.first + SizeRange ==> n == c.second - c.first
  {
    (c.second - c.first) % SizeRange
  }

  /** `str`: the characters of `text` in [first, second); building a string from a reversed
      or out-of-text range is undefined. */
  function Str(c: Capture, text: string): (s: Behaviour<string>)
    ensures s.Defined? <==> c.first <= c.second <= |text|
    ensures s.Defined? ==> |s.value| == c.second - c.first &&
                           forall i :: 0 <= i < |s.value| ==> s.value[i] == text[c.first + i]
  {
    if c.first <= c.second <= |text| then Defined(text[c.first..c.second]) else Undefined
  }

  /** `substr(s, e)`: the span with `s` characters dropped from the front and `e` from the
      back. */
  function Substr(c: Capture, text: string, soffset: nat, eoffset: nat): (s: Behaviour<string>)
    ensures s.Defined? <==> eoffset <= c.second && c.first + soffset <= c.second - eoffset <= |text|
  {
    if eoffset <= c.second then Str(Capture(c.first + soffset, c.second - eoffset), text) else Undefined
  }

  /** A capture's text is exactly `length` characters long, and it is empty exactly when its
      text is. */
  lemma StrHasLength(c: Capture, text: string)
    requires Str(c, text).Defined?
    requires |text| < SizeRange  // no text spans the whole address space
    ensures |Str(c, text).value| == Length(c)
    ensures IsEmpty(c) <==> Str(c, text).value == []
  {
  }

  /** `substr(s, e)` is `str` with `s` characters taken off the front and `e` off the back. */
  lemma SubstrTrimsStr(c: Capture, text: string, soffset: nat, eoffset: nat)
    requires Str(c, text).Defined?
    requires |text| < SizeRange
    requires soffset + eoffset <= Length(c)
    ensures Substr(c, text, soffset, eoffset).Defined?
    ensures Substr(c, text, soffset, eoffset).value ==
            Str(c, text).value[soffset..|Str(c, text).value| - eoffset]
  {
  }
}
