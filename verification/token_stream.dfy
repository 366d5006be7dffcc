/** The lexer, seen by the parser runtime as a cursor over a sequence of tokens.
    Each token carries an id (0 is end of input, `Npos` an unrecognised lexeme) and the
    [first, second) character offsets of its text. Reading past the last token yields
    the end-of-input token positioned at `eoi`, as the lexer does once it is exhausted. */
module TokenStream {

  datatype Token = Token(id: nat, first: nat, second: nat)

  datatype Lexer = Lexer(tokens: seq<Token>, pos: nat, eoi: nat)

  /** The token `k` places after the start of the stream. */
  function TokenAt(lx: Lexer, k: nat): (t: Token)
    ensures k >= |lx.tokens| ==> t == Token(0, lx.eoi, lx.eoi)
    ensures k < |lx.tokens| ==> t == lx.tokens[k]
  {
    if k < |lx.tokens| then lx.tokens[k] else Token(0, lx.eoi, lx.eoi)
  }

  /** `*iter`: the current lexeme. */
  function Current(lx: Lexer): Token {
    TokenAt(lx, lx.pos)
  }

  /** `++iter`: move to the next lexeme. */
  function Next(lx: Lexer): (r: Lexer)
    ensures r.tokens == lx.tokens && r.eoi == lx.eoi && r.pos == lx.pos + 1
  {
    lx.(pos := lx.pos + 1)
  }

  /** The cursor moved from `a` to `b` over the same stream, never stepping over an
      end-of-input token. */
  predicate AdvancedWithinInput(a: Lexer, b: Lexer) {
    a.tokens == b.tokens && a.eoi == b.eoi && a.pos <= b.pos &&
    forall k :: a.pos <= k < b.pos ==> TokenAt(a, k).id != 0
  }

  lemma AdvancedWithinInputTransitive(a: Lexer, b: Lexer, c: Lexer)
    requires AdvancedWithinInput(a, b) && AdvancedWithinInput(b, c)
    ensures AdvancedWithinInput(a, c)
  {
    forall k | a.pos <= k < c.pos
      ensures TokenAt(a, k).id != 0
    {
      if k >= b.pos {
        assert TokenAt(b, k) == TokenAt(a, k);
      }
    }
  }
}
