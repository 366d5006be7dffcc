/** `Parle\Lexer` and `Parle\RLexer` (parle.cpp): a lexer builder plus the input being
    scanned and lexertl's match results over it. lexertl's `lookup` is a parameter, a step
    on match results. */
module ParleLexer {
  import opened Wrappers
  import opened Decimal
  import opened Parle
  import opened LexerIterator
  import Grammar

  /** The object: its builder, the consumed input and the match results (both null until
      `consume`). */
  datatype LexerObj<R, M> = LexerObj(b: Builder<R, M>, input: Option<string>, results: Option<Results>)

  /** The results, when there are any, describe a lexeme of the input. */
  predicate Wf<R, M>(o: LexerObj<R, M>) {
    o.results.Some? ==> o.input.Some? && Within(o.results.value, |o.input.value|)
  }

  predicate Within(r: Results, length: nat) {
    r.first <= r.second <= r.eoi && r.eoi == length
  }

  /** A lookup that keeps its results within the input. */
  ghost predicate KeepsWithin(step: Results -> Results) {
    forall r: Results, n: nat {:trigger Within(step(r), n)} :: Within(r, n) ==> Within(step(r), n)
  }

  /** The object construction: nothing built, nothing consumed. */
  function NewLexer<R, M>(rules: R, sm: M): (o: LexerObj<R, M>)
    ensures !o.b.complete && o.b.kind == LexerKind && o.input.None? && o.results.None? && Wf(o)
  {
    LexerObj(New(LexerKind, rules, sm), None, None)
  }

  /** `push` (and `pushState`): edit the rules unless built. */
  function Push<R, M>(o: LexerObj<R, M>, edit: R -> Result<R>): (c: Call<LexerObj<R, M>>)
    ensures c.obj.b == Edit(o.b, edit).obj && c.exception == Edit(o.b, edit).exception
    ensures c.obj.input == o.input && c.obj.results == o.results
  {
    var e := Edit(o.b, edit);
    Call(o.(b := e.obj), e.exception)
  }

  /** `build`. */
  function BuildLexer<R, M>(o: LexerObj<R, M>, generate: R -> (M, Option<string>)): (c: Call<LexerObj<R, M>>)
    ensures c.obj.b == Build(o.b, generate).obj && c.exception == Build(o.b, generate).exception
    ensures c.obj.input == o.input && c.obj.results == o.results
  {
    var e := Build(o.b, generate);
    Call(o.(b := e.obj), e.exception)
  }

  /** `consume($s)`: only once built; the input is copied as a C string (up to its first
      NUL) and the results start over at its beginning. */
  function Consume<R, M>(o: LexerObj<R, M>, s: string): (c: Call<LexerObj<R, M>>)
    ensures !o.b.complete ==> c == Call(o, Some(NotReady(LexerKind)))
    ensures o.b.complete ==>
              c.exception.None? && c.obj.b == o.b &&
              c.obj.input == Some(Grammar.CStr(s)) &&
              c.obj.results == Some(NewResults(0, |Grammar.CStr(s)|)) && Wf(c.obj)
  {
    if !o.b.complete then Call(o, Some(NotReady(LexerKind)))
    else
      var input := Grammar.CStr(s);
      Call(o.(input := Some(input), results := Some(NewResults(0, |input|))), None)
  }

  /** The `Parle\Token` object `getToken` returns. */
  datatype Token = Token(id: nat, value: string, offset: nat)

  /** `getToken()`: the current lexeme's id, text and offset. */
  function GetToken<R, M>(o: LexerObj<R, M>): (t: Result<Token>)
    requires Wf(o)
    ensures t.Failure? <==> o.results.None?
    ensures t.Failure? ==> t.error == NoResults
    ensures t.Success? ==>
              t.value.id == o.results.value.id && t.value.offset == o.results.value.first &&
              |t.value.value| == o.results.value.second - o.results.value.first &&
              t.value.value == o.input.value[o.results.value.first..o.results.value.second]
  {
    match o.results
    case None => Failure(NoResults)
    case Some(r) => Success(Token(r.id, o.input.value[r.first..r.second], r.first))
  }

  /** `bol([$b])` as written: the branch is chosen by `1 == ZEND_NUM_ARGS()`, the wrong way
      round. Given an argument it returns the flag and ignores the argument; without one it
      stores the uninitialised local `bol`, an indeterminate value, and returns NULL. The
      object and the returned value (NULL as `None`) come back together. */
  function BolAsWritten<R, M>(o: LexerObj<R, M>, arg: Option<bool>): (c: Behaviour<Result<(LexerObj<R, M>, Option<bool>)>>)
    ensures c.Undefined? <==> o.results.Some? && arg.None?
    ensures o.results.None? ==> c == Defined(Failure(NoResults))
    ensures o.results.Some? && arg.Some? ==> c == Defined(Success((o, Some(o.results.value.bol))))
  {
    match o.results
    case None => Defined(Failure(NoResults))
    case Some(r) =>
      match arg
      case None => Undefined
      case Some(_) => Defined(Success((o, Some(r.bol))))
  }

  /** `bol([$b])` as its signature and the flag's other users mean it: `bol()` reads the
      beginning-of-line flag, `bol($b)` sets it and returns NULL. */
  function Bol<R, M>(o: LexerObj<R, M>, arg: Option<bool>): (c: Result<(LexerObj<R, M>, Option<bool>)>)
    ensures c.Failure? <==> o.results.None?
    ensures c.Failure? ==> c.error == NoResults
    ensures c.Success? && arg.None? ==> c.value == (o, Some(o.results.value.bol))
    ensures c.Success? && arg.Some? ==>
              c.value.1.None? && c.value.0.results.Some? && c.value.0.results.value.bol == arg.value &&
              c.value.0.results.value.(bol := o.results.value.bol) == o.results.value &&
              c.value.0.b == o.b && c.value.0.input == o.input
  {
    match o.results
    case None => Failure(NoResults)
    case Some(r) =>
      match arg
      case None => Success((o, Some(r.bol)))
      case Some(bol) => Success((o.(results := Some(r.(bol := bol))), None))
  }

  /** The branches as written are swapped: setting the flag to the opposite of what it is
      leaves it unchanged and answers with the old flag, where the corrected `bol` changes
      it; and reading the flag without an argument is undefined, where the corrected `bol`
      answers it. Reading then setting with the corrected form reads back what was set. */
  lemma BolAsWrittenSwapped<R, M>(o: LexerObj<R, M>)
    requires o.results.Some?
    ensures var flip := !o.results.value.bol;
      && BolAsWritten(o, Some(flip)) == Defined(Success((o, Some(!flip))))
      && Bol(o, Some(flip)).value.0.results.value.bol == flip
      && BolAsWritten(o, None).Undefined?
      && Bol(o, None) == Success((o, Some(o.results.value.bol)))
      && Bol(Bol(o, Some(flip)).value.0, None).value.1 == Some(flip)
  {
  }

  /** A PHP integer printed with `ZEND_LONG_FMT`. */
  function ShowInt(n: int): (s: string)
    ensures n >= 0 ==> s == ShowNat(n)
    ensures n < 0 ==> s == "-" + ShowNat(-n)
  {
    if n >= 0 then ShowNat(n) else "-" + ShowNat(-n)
  }

  function InvalidOffset(pos: int): string {
    "Invalid offset " + ShowInt(pos)
  }

  /** `restart($pos)`: move the lexeme start to `pos`, which must lie within the input
      (its end included). */
  function Restart<R, M>(o: LexerObj<R, M>, pos: int): (c: Call<LexerObj<R, M>>)
    requires Wf(o)
    ensures Wf(c.obj) && c.obj.b == o.b && c.obj.input == o.input
    ensures o.results.None? ==> c == Call(o, Some(NoResults))
    ensures o.results.Some? && (pos < 0 || pos > |o.input.value|) ==> c == Call(o, Some(InvalidOffset(pos)))
    ensures o.results.Some? && 0 <= pos <= |o.input.value| ==>
              c.exception.None? && c.obj.results.Some? && c.obj.results.value.first == pos && c.obj.results.value.second == pos &&
              c.obj.results.value.(first := o.results.value.first, second := o.results.value.second) == o.results.value
  {
    match o.results
    case None => Call(o, Some(NoResults))
    case Some(r) =>
      if pos < 0 || pos > |o.input.value| then Call(o, Some(InvalidOffset(pos)))
      else Call(o.(results := Some(r.(first := pos, second := pos))), None)
  }

  /** After a successful `restart($pos)` the current token is an empty lexeme at `pos`. */
  lemma RestartThenToken<R, M>(o: LexerObj<R, M>, pos: int)
    requires Wf(o) && o.results.Some? && 0 <= pos <= |o.input.value|
    ensures var c := Restart(o, pos);
      c.exception.None? && GetToken(c.obj) == Success(Token(o.results.value.id, "", pos))
  {
  }

  /** `advance()` as written: the readiness guard, but no check that `consume` has supplied
      results, so a built lexer that has consumed nothing dereferences a null pointer. */
  function AdvanceAsWritten<R, M>(o: LexerObj<R, M>, step: Results -> Results): (c: Behaviour<Call<LexerObj<R, M>>>)
    ensures !o.b.complete ==> c == Defined(Call(o, Some(NotReady(LexerKind))))
    ensures o.b.complete ==> (c.Undefined? <==> o.results.None?)
    ensures c.Defined? && o.b.complete ==> c.value == Call(o.(results := Some(step(o.results.value))), None)
  {
    if !o.b.complete then Defined(Call(o, Some(NotReady(LexerKind))))
    else match o.results
      case None => Undefined
      case Some(r) => Defined(Call(o.(results := Some(step(r))), None))
  }

  /** Built, then advanced without consuming: undefined behaviour. */
  lemma AdvanceAsWrittenCrashes<R, M>(rules: R, sm: M, generate: R -> (M, Option<string>), step: Results -> Results)
    ensures AdvanceAsWritten(BuildLexer(NewLexer(rules, sm), generate).obj, step).Undefined?
  {
  }

  /** `advance()` with the null check every other results-reading method makes. */
  function Advance<R, M>(o: LexerObj<R, M>, step: Results -> Results): (c: Call<LexerObj<R, M>>)
    ensures !o.b.complete ==> c == Call(o, Some(NotReady(LexerKind)))
    ensures o.b.complete && o.results.None? ==> c == Call(o, Some(NoResults))
    ensures o.b.complete && o.results.Some? ==> c == AdvanceAsWritten(o, step).value
  {
    if !o.b.complete then Call(o, Some(NotReady(LexerKind)))
    else match o.results
      case None => Call(o, Some(NoResults))
      case Some(r) => Call(o.(results := Some(step(r))), None)
  }

  /** The corrected `advance` never crashes, agrees with the original wherever that one is
      defined, and keeps the object well formed when the lookup keeps its results within
      the input. */
  lemma AdvanceAgrees<R, M>(o: LexerObj<R, M>, step: Results -> Results)
    ensures AdvanceAsWritten(o, step).Defined? ==> Advance(o, step) == AdvanceAsWritten(o, step).value
    ensures Wf(o) && KeepsWithin(step) ==> Wf(Advance(o, step).obj)
  {
    if Wf(o) && KeepsWithin(step) && o.b.complete && o.results.Some? {
      assert Within(step(o.results.value), |o.input.value|);
    }
  }
}
