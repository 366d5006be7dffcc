/** lexertl's `replace`: every lexeme the lexer recognises (any id but end of input) is
    replaced by a format string, and the text between lexemes is copied through. The
    lexer is the abstract token stream of `TokenStream`; token offsets index the text. */
module Replace {
  import opened TokenStream
  import Grammar

  /** The lexer walks the text left to right: each token lies within the text and starts
      no earlier than the previous one ended, and end of input is at the end. */
  predicate Tiles(lx: Lexer, text: string) {
    lx.pos == 0 && lx.eoi == |text| &&
    (forall k :: 0 <= k < |lx.tokens| ==> lx.tokens[k].first <= lx.tokens[k].second <= |text|) &&
    (forall k :: 0 < k < |lx.tokens| ==> lx.tokens[k - 1].second <= lx.tokens[k].first)
  }

  /** The output from token `k` on, the previous lexeme having ended at `last`: the gap up
      to the token, then (unless it is end of input) the format and the rest. */
  function ReplaceFrom(text: string, lx: Lexer, fmt: string, last: nat, k: nat): string
    requires Tiles(lx, text) && last <= |text|
    requires k < |lx.tokens| ==> last <= lx.tokens[k].first
    decreases |lx.tokens| - k
  {
    var t := TokenAt(lx, k);
    if t.id == 0 then text[last..t.first]
    else text[last..t.first] + fmt + ReplaceFrom(text, lx, fmt, t.second, k + 1)
  }

  /** The iterator overload writing into `out`: `fmt` is read up to its NUL, and each
      lookup with a non-zero id emits the gap before it and the format. */
  method ReplaceInto(text: string, lx: Lexer, fmt: string) returns (out: string)
    requires Tiles(lx, text)
    ensures out == ReplaceFrom(text, lx, Grammar.CStr(fmt), 0, 0)
  {
    out := Splice(text, lx, Grammar.CStr(fmt));
  }

  /** The loop of `ReplaceInto` once the format has been cut at its NUL. */
  method Splice(text: string, lx: Lexer, f: string) returns (out: string)
    requires Tiles(lx, text)
    ensures out == ReplaceFrom(text, lx, f, 0, 0)
  {
    var last: nat := 0;
    var k := 0;
    out := [];
    var t := TokenAt(lx, k);
    while t.id != 0
      invariant last <= |text| && (k < |lx.tokens| ==> last <= lx.tokens[k].first)
      invariant t == TokenAt(lx, k)
      invariant out + ReplaceFrom(text, lx, f, last, k) == ReplaceFrom(text, lx, f, 0, 0)
      decreases |lx.tokens| - k
    {
      var gap := text[last..t.first];
      ghost var rest := ReplaceFrom(text, lx, f, t.second, k + 1);
      ReplaceStep(text, lx, f, last, k);
      assert out + (gap + f + rest) == (out + gap + f) + rest;
      out := out + gap + f;
      last := t.second;
      k := k + 1;
      t := TokenAt(lx, k);
    }
    out := out + text[last..t.first];
  }

  /** One turn of the loop: a recognised lexeme emits its gap and the format, and the next
      lookup starts after it. */
  lemma ReplaceStep(text: string, lx: Lexer, fmt: string, last: nat, k: nat)
    requires Tiles(lx, text) && last <= |text|
    requires k < |lx.tokens| ==> last <= lx.tokens[k].first
    requires TokenAt(lx, k).id != 0
    ensures var t := TokenAt(lx, k);
      k < |lx.tokens| && last <= t.first <= t.second <= |text| &&
      (k + 1 < |lx.tokens| ==> t.second <= lx.tokens[k + 1].first) &&
      ReplaceFrom(text, lx, fmt, last, k) ==
        text[last..t.first] + fmt + ReplaceFrom(text, lx, fmt, t.second, k + 1)
  {
  }

  /** The `std::basic_string` overloads over a whole string: the same text, with `fmt`
      taken as a C string. */
  function ReplaceString(s: string, lx: Lexer, fmt: string): (r: string)
    requires Tiles(lx, s)
  {
    ReplaceFrom(s, lx, Grammar.CStr(fmt), 0, 0)
  }

  /** The overloads whose subject is a C string: the subject ends at its NUL. */
  function ReplaceCStr(s: string, lx: Lexer, fmt: string): (r: string)
    requires Tiles(lx, Grammar.CStr(s))
  {
    ReplaceFrom(Grammar.CStr(s), lx, Grammar.CStr(fmt), 0, 0)
  }

  /** Every overload produces the text the iterator overload writes. */
  method OverloadsAgree(s: string, lx: Lexer, fmt: string) returns (viaIterator: string)
    requires Tiles(lx, s)
    ensures viaIterator == ReplaceString(s, lx, fmt)
    ensures '\0' !in s ==> viaIterator == ReplaceCStr(s, lx, fmt)
  {
    viaIterator := ReplaceInto(s, lx, fmt);
  }

  /** The number of lexemes replaced from token `k` on. */
  function Replaced(lx: Lexer, k: nat): nat
    decreases |lx.tokens| - k
  {
    if TokenAt(lx, k).id == 0 then 0 else 1 + Replaced(lx, k + 1)
  }

  /** The characters those lexemes cover. */
  function Covered(lx: Lexer, k: nat): int
    decreases |lx.tokens| - k
  {
    var t := TokenAt(lx, k);
    if t.id == 0 then 0 else (t.second - t.first) + Covered(lx, k + 1)
  }

  /** Where the copying stops: the start of the end-of-input lookup. */
  function StopAt(lx: Lexer, k: nat): nat
    decreases |lx.tokens| - k
  {
    var t := TokenAt(lx, k);
    if t.id == 0 then t.first else StopAt(lx, k + 1)
  }

  /** Every replaced lexeme loses its text and gains the format: the output is the text up
      to the end-of-input lookup, less what the lexemes covered, plus one format each. */
  lemma {:induction false} ReplaceLength(text: string, lx: Lexer, fmt: string, last: nat, k: nat)
    requires Tiles(lx, text) && last <= |text|
    requires k < |lx.tokens| ==> last <= lx.tokens[k].first
    ensures StopAt(lx, k) >= last
    ensures |ReplaceFrom(text, lx, fmt, last, k)| ==
            (StopAt(lx, k) - last) - Covered(lx, k) + Replaced(lx, k) * |fmt|
    decreases |lx.tokens| - k
  {
    var t := TokenAt(lx, k);
    if t.id != 0 {
      ReplaceLength(text, lx, fmt, t.second, k + 1);
    }
  }

  /** When the first lookup is already end of input, the text up to it comes out
      unchanged. */
  lemma ReplaceNothing(text: string, lx: Lexer, fmt: string)
    requires Tiles(lx, text) && TokenAt(lx, 0).id == 0
    ensures ReplaceFrom(text, lx, fmt, 0, 0) == text[..TokenAt(lx, 0).first]
  {
  }

  /** With no lexemes recognised at all the text comes out whole. */
  lemma ReplaceWithoutLexemes(text: string, lx: Lexer, fmt: string)
    requires Tiles(lx, text) && lx.tokens == []
    ensures ReplaceFrom(text, lx, fmt, 0, 0) == text
  {
  }
}
