/** `Parle\Parser` (parle.cpp): a parser builder plus, after `consume`, a parsing session —
    the input, the lexer over it, the match results and the token vector — that `advance`
    drives one LR step at a time. The lexer is the token stream of `TokenStream`. */
module ParleParser {
  import opened Wrappers
  import opened Decimal
  import opened ParserStateMachine
  import opened TokenStream
  import opened MatchResults
  import opened Lookup
  import opened Parse
  import opened Parle
  import ParserSerialise
  import Grammar

  /** What `consume` sets up; the C++ object keeps its four parts in separate pointers,
      all null before the first `consume` and all set by it. */
  datatype Session = Session(input: string, lx: Lexer, r: MatchResults, productions: seq<Token>)

  datatype ParserObj<R> = ParserObj(b: Builder<R, Machine>, session: Option<Session>)

  /** The object construction: nothing built, nothing consumed, an empty machine. */
  function NewParser<R>(rules: R): (p: ParserObj<R>)
    ensures !p.b.complete && p.b.kind == ParserKind && p.b.sm == EmptyMachine && p.session.None?
  {
    ParserObj(New(ParserKind, rules, EmptyMachine), None)
  }

  /** `token`, `left`, `right`, `precedence`, `nonassoc` and `push`: edit the rules unless
      built. */
  function EditRules<R>(p: ParserObj<R>, edit: R -> Result<R>): (c: Call<ParserObj<R>>)
    ensures c.obj.b == Edit(p.b, edit).obj && c.exception == Edit(p.b, edit).exception
    ensures c.obj.session == p.session
  {
    var e := Edit(p.b, edit);
    Call(p.(b := e.obj), e.exception)
  }

  /** `build`. */
  function BuildParser<R>(p: ParserObj<R>, generate: R -> (Machine, Option<string>)): (c: Call<ParserObj<R>>)
    ensures c.obj.b == Build(p.b, generate).obj && c.exception == Build(p.b, generate).exception
    ensures c.obj.session == p.session
  {
    var e := Build(p.b, generate);
    Call(p.(b := e.obj), e.exception)
  }

  /** The two guards of `validate` and `consume`: this parser, then the lexer it is given,
      must be built. */
  function NeedBothReady<R>(p: ParserObj<R>, lexerReady: bool): (o: Option<string>)
    ensures o.None? <==> p.b.complete && lexerReady
    ensures !p.b.complete ==> o == Some(NotReady(ParserKind))
    ensures p.b.complete && !lexerReady ==> o == Some(NotReady(LexerKind))
  {
    if !p.b.complete then Some(NotReady(ParserKind))
    else if !lexerReady then Some(NotReady(LexerKind))
    else None
  }

  /** `consume($s, $lexer)`: start a session over the input (a C string, cut at its first
      NUL) as the lexer tokenises it: the results reset to state 0 with the first lexeme as
      lookahead, and an empty token vector. */
  function Consume<R>(p: ParserObj<R>, lexerReady: bool, s: string, tokens: seq<Token>): (c: Call<ParserObj<R>>)
    ensures NeedBothReady(p, lexerReady).Some? ==> c == Call(p, NeedBothReady(p, lexerReady))
    ensures NeedBothReady(p, lexerReady).None? ==>
              c.exception.None? && c.obj.b == p.b && c.obj.session.Some? &&
              var t := c.obj.session.value;
              t.input == Grammar.CStr(s) && t.lx.tokens == tokens && t.lx.pos == 0 &&
              t.lx.eoi == |t.input| && t.productions == [] &&
              t.r == Reset(TokenAt(t.lx, 0).id, p.b.sm)
  {
    match NeedBothReady(p, lexerReady)
    case Some(e) => Call(p, Some(e))
    case None =>
      var input := Grammar.CStr(s);
      var lx := Lexer(tokens, 0, |input|);
      Call(p.(session := Some(Session(input, lx, Reset(Current(lx).id, p.b.sm), []))), None)
  }

  /** The guard of the methods that read the session: built, then consumed. */
  function NeedSession<R>(p: ParserObj<R>): (o: Option<string>)
    ensures o.None? <==> p.b.complete && p.session.Some?
    ensures !p.b.complete ==> o == Some(NotReady(ParserKind))
    ensures p.b.complete && p.session.None? ==> o == Some(NoResults)
  {
    if !p.b.complete then Some(NotReady(ParserKind))
    else if p.session.None? then Some(NoResults)
    else None
  }

  /** `advance()`: one `lookup` step of the token-vector runtime. */
  function Advance<R>(p: ParserObj<R>): (c: Behaviour<Call<ParserObj<R>>>)
    ensures NeedSession(p).Some? ==> c == Defined(Call(p, NeedSession(p)))
    ensures NeedSession(p).None? ==>
              var t := p.session.value;
              var step := TokenStep(p.b.sm, TokenConfig(t.lx, t.r, t.productions));
              (c.Defined? <==> step.Defined?) &&
              (c.Defined? ==> c.value.exception.None? && c.value.obj.b == p.b &&
                              c.value.obj.session == Some(Session(t.input, step.value.lx, step.value.r, step.value.productions)))
  {
    match NeedSession(p)
    case Some(e) => Defined(Call(p, Some(e)))
    case None =>
      var t := p.session.value;
      match TokenStep(p.b.sm, TokenConfig(t.lx, t.r, t.productions))
      case Undefined => Undefined
      case Defined(c) => Defined(Call(p.(session := Some(Session(t.input, c.lx, c.r, c.productions))), None))
  }

  /** `reduceId()`. */
  function ReduceIdOf<R>(p: ParserObj<R>): (o: Result<nat>)
    ensures NeedSession(p).Some? ==> o == Failure(NeedSession(p).value)
    ensures NeedSession(p).None? ==> o == ReduceId(p.session.value.r)
  {
    match NeedSession(p)
    case Some(e) => Failure(e)
    case None => ReduceId(p.session.value.r)
  }

  /** `action()`: the current action's enumeration value. */
  function ActionOf<R>(p: ParserObj<R>): (o: Result<nat>)
    ensures NeedSession(p).Some? ==> o == Failure(NeedSession(p).value)
    ensures NeedSession(p).None? ==>
              o.Success? && o.value < 5 &&
              ParserSerialise.DecodeAction(o.value) == Some(p.session.value.r.entry.action)
  {
    match NeedSession(p)
    case Some(e) => Failure(e)
    case None =>
      var a := p.session.value.r.entry.action;
      ParserSerialise.DecodeActionCode(a);
      Success(ParserSerialise.ActionCode(a))
  }

  const InvalidIndex: string := "Invalid index"

  /** The text of a token of the session's input; reading outside the input is undefined. */
  function TextOf(input: string, t: Token): (o: Behaviour<string>)
    ensures o.Defined? <==> t.first <= t.second <= |input|
    ensures o.Defined? ==> o.value == input[t.first..t.second]
  {
    if t.first <= t.second <= |input| then Defined(input[t.first..t.second]) else Undefined
  }

  /** `sigil($idx)` as written: the index is checked against the whole token vector, not
      against the length of the rule being reduced, so an index past the rule's rhs but
      inside the vector reads beyond the vector's end. */
  function SigilAsWritten<R>(p: ParserObj<R>, idx: int): (o: Behaviour<Result<string>>)
    ensures NeedSession(p).Some? ==> o == Defined(Failure(NeedSession(p).value))
    ensures NeedSession(p).None? && (idx < 0 || idx >= |p.session.value.productions|) ==>
              o == Defined(Failure(InvalidIndex))
  {
    match NeedSession(p)
    case Some(e) => Defined(Failure(e))
    case None =>
      var t := p.session.value;
      if idx < 0 || |t.productions| <= idx then Defined(Failure(InvalidIndex))
      else SigilText(p.b.sm, t, idx)
  }

  /** `dollar(idx)` and the text of the token it names. */
  function SigilText(sm: Machine, t: Session, idx: nat): (o: Behaviour<Result<string>>)
    ensures t.r.entry.action != Reduce ==> o == Defined(Failure("Not in a reduce state!"))
  {
    match Dollar(t.r, sm, idx, t.productions)
    case Undefined => Undefined
    case Defined(Failure(e)) => Defined(Failure(e))
    case Defined(Success(tok)) =>
      match TextOf(t.input, tok)
      case Undefined => Undefined
      case Defined(s) => Defined(Success(s))
  }

  /** A reduce by a one-symbol rule with three tokens on the vector: `sigil(2)` passes the
      check and reads past the end of the vector. */
  lemma SigilAsWrittenReadsPastEnd()
    ensures var sm := Machine(1, 1, [Rule(1, [0])], [], []);
      var t := Session("abc", Lexer([], 3, 3), MatchResults([0, 0, 0, 0], 0, Entry(Reduce, 0)),
                       [Token(0, 0, 1), Token(0, 1, 2), Token(0, 2, 3)]);
      SigilAsWritten(ParserObj(Builder(ParserKind, 0, sm, true), Some(t)), 2).Undefined?
  {
  }

  /** The rhs length of the rule being reduced, when there is one. */
  function ReducingSize(sm: Machine, r: MatchResults): Option<nat> {
    if r.entry.action == Reduce && r.entry.param < |sm.rules| then Some(|sm.rules[r.entry.param].rhs|)
    else None
  }

  /** `sigil($idx)` with the check the index needs: below the reduced rule's rhs length. */
  function Sigil<R>(p: ParserObj<R>, idx: int): (o: Behaviour<Result<string>>)
    ensures NeedSession(p).Some? ==> o == Defined(Failure(NeedSession(p).value))
    ensures NeedSession(p).None? && ReducingSize(p.b.sm, p.session.value.r).Some? ==>
              (o == Defined(Failure(InvalidIndex)) <==>
                 idx < 0 || idx >= |p.session.value.productions| ||
                 idx >= ReducingSize(p.b.sm, p.session.value.r).value)
  {
    match NeedSession(p)
    case Some(e) => Defined(Failure(e))
    case None =>
      var t := p.session.value;
      var size := ReducingSize(p.b.sm, t.r);
      if idx < 0 || |t.productions| <= idx || (size.Some? && idx >= size.value) then Defined(Failure(InvalidIndex))
      else SigilText(p.b.sm, t, idx)
  }

  /** The session's tokens all lie within its input. */
  predicate TokensWithin(t: Session) {
    forall k :: 0 <= k < |t.productions| ==> t.productions[k].first <= t.productions[k].second <= |t.input|
  }

  /** With the index checked against the rule, `sigil` is always defined on a session whose
      token vector holds the rule's rhs and whose tokens lie within the input, and it
      returns the text of the `idx`-th rhs token. It agrees with the original whenever the
      index is within the rule. */
  lemma SigilChecked<R>(p: ParserObj<R>, idx: int)
    requires NeedSession(p).None? && TokensWithin(p.session.value)
    requires ReducingSize(p.b.sm, p.session.value.r).Some? ==>
               ReducingSize(p.b.sm, p.session.value.r).value <= |p.session.value.productions|
    requires p.session.value.r.entry.action == Reduce ==> p.session.value.r.entry.param < |p.b.sm.rules|
    ensures Sigil(p, idx).Defined?
    ensures var t := p.session.value;
      Sigil(p, idx).value.Success? ==>
        t.r.entry.action == Reduce &&
        var k := |t.productions| - ReducingSize(p.b.sm, t.r).value + idx;
        0 <= k < |t.productions| &&
        Sigil(p, idx).value.value == t.input[t.productions[k].first..t.productions[k].second]
    ensures 0 <= idx && (ReducingSize(p.b.sm, p.session.value.r).Some? ==>
                           idx < ReducingSize(p.b.sm, p.session.value.r).value) ==>
              Sigil(p, idx) == SigilAsWritten(p, idx)
  {
  }

  /** `trace()`: the current action as text; nothing for an error. Naming a rule reads the
      rule list and the symbol names unchecked. */
  function Trace<R>(p: ParserObj<R>, symbols: seq<string>): (o: Behaviour<Result<Option<string>>>)
    ensures NeedSession(p).Some? ==> o == Defined(Failure(NeedSession(p).value))
    ensures NeedSession(p).None? ==>
              var e := p.session.value.r.entry;
              (e.action == Shift ==> o == Defined(Success(Some("shift " + ShowNat(e.param))))) &&
              (e.action == GoTo ==> o == Defined(Success(Some("goto " + ShowNat(e.param))))) &&
              (e.action == Accept ==> o == Defined(Success(Some("accept")))) &&
              (e.action == Error ==> o == Defined(Success(None))) &&
              (e.action == Reduce ==> (o.Defined? <==> e.param < |p.b.sm.rules| && Named(p.b.sm.rules[e.param], symbols)))
  {
    match NeedSession(p)
    case Some(err) => Defined(Failure(err))
    case None =>
      var e := p.session.value.r.entry;
      match e.action
      case Shift => Defined(Success(Some("shift " + ShowNat(e.param))))
      case GoTo => Defined(Success(Some("goto " + ShowNat(e.param))))
      case Accept => Defined(Success(Some("accept")))
      case Error => Defined(Success(None))
      case Reduce =>
        if e.param < |p.b.sm.rules| && Named(p.b.sm.rules[e.param], symbols) then
          var rule := p.b.sm.rules[e.param];
          Defined(Success(Some("reduce by " + symbols[rule.lhs] + " ->" + RhsText(rule.rhs, symbols))))
        else Undefined
  }

  /** Every symbol of the rule has a name. */
  predicate Named(rule: Rule, symbols: seq<string>) {
    rule.lhs < |symbols| && forall i :: 0 <= i < |rule.rhs| ==> rule.rhs[i] < |symbols|
  }

  /** ` %empty` for an empty rhs, else each symbol's name after a space. */
  function RhsText(rhs: seq<nat>, symbols: seq<string>): (s: string)
    requires forall i :: 0 <= i < |rhs| ==> rhs[i] < |symbols|
    ensures rhs == [] ==> s == " %empty"
    ensures rhs != [] ==> s == Spaced(rhs, symbols)
  {
    if rhs == [] then " %empty" else Spaced(rhs, symbols)
  }

  function Spaced(rhs: seq<nat>, symbols: seq<string>): (s: string)
    requires forall i :: 0 <= i < |rhs| ==> rhs[i] < |symbols|
    ensures |s| >= |rhs|
    decreases |rhs|
  {
    if rhs == [] then [] else " " + symbols[rhs[0]] + Spaced(rhs[1..], symbols)
  }

  /** The trace tells the actions apart, and a shift's or goto's target state can be read
      back from it. */
  lemma TraceIdentifiesStep<R>(p: ParserObj<R>, q: ParserObj<R>, symbols: seq<string>)
    requires NeedSession(p).None? && NeedSession(q).None?
    requires p.session.value.r.entry.action in {Shift, GoTo, Accept}
    requires q.session.value.r.entry.action in {Shift, GoTo, Accept}
    requires Trace(p, symbols) == Trace(q, symbols)
    ensures p.session.value.r.entry.action == q.session.value.r.entry.action
    ensures p.session.value.r.entry.action != Accept ==> p.session.value.r.entry.param == q.session.value.r.entry.param
  {
    var e := p.session.value.r.entry;
    var f := q.session.value.r.entry;
    var s := Trace(p, symbols).value.value.value;
    assert s == Trace(q, symbols).value.value.value;
    assert s[0] == Initial(e.action) && s[0] == Initial(f.action);
    if e.action == Shift {
      assert s[6..] == ShowNat(e.param) == ShowNat(f.param);
      ShowNatInjective(e.param, f.param);
    } else if e.action == GoTo {
      assert s[5..] == ShowNat(e.param) == ShowNat(f.param);
      ShowNatInjective(e.param, f.param);
    }
  }

  /** The first letter of the trace of a shift, goto or accept. */
  function Initial(a: Action): char {
    match a
    case Shift => 's'
    case GoTo => 'g'
    case _ => 'a'
  }

  /** What `errorInfo()` returns: nothing outside an error; else the error code, and for an
      unknown token the offending lexeme. */
  datatype ErrorInfo = NoError | ErrorOf(id: nat, token: Option<(string, nat)>)

  /** `errorInfo()`: needs results, but not a built parser. */
  function ErrorInfoOf<R>(p: ParserObj<R>): (o: Behaviour<Result<ErrorInfo>>)
    ensures p.session.None? ==> o == Defined(Failure(NoResults))
    ensures p.session.Some? && p.session.value.r.entry.action != Error ==> o == Defined(Success(NoError))
    ensures p.session.Some? && p.session.value.r.entry.action == Error && o.Defined? ==>
              o.value.Success? && o.value.value.ErrorOf? && o.value.value.id == p.session.value.r.entry.param &&
              (o.value.value.token.Some? <==> p.session.value.r.entry.param == UnknownToken)
  {
    match p.session
    case None => Defined(Failure(NoResults))
    case Some(t) =>
      if t.r.entry.action != Error then Defined(Success(NoError))
      else if t.r.entry.param != UnknownToken then Defined(Success(ErrorOf(t.r.entry.param, None)))
      else
        var lexeme := Current(t.lx);
        match TextOf(t.input, lexeme)
        case Undefined => Undefined
        case Defined(text) => Defined(Success(ErrorOf(t.r.entry.param, Some((text, lexeme.first)))))
  }

  /** `validate($s, $lexer)`: parse a fresh token stream over the input with a throwaway
      session; the object is not changed. Unlike `consume`, the lexer runs over the whole
      string (`ZSTR_LEN`), NUL characters included. */
  function Validate<R>(p: ParserObj<R>, lexerReady: bool, s: string, tokens: seq<Token>, fuel: nat): (o: Outcome<bool>)
    ensures NeedBothReady(p, lexerReady).Some? ==> o == Threw(NeedBothReady(p, lexerReady).value)
    ensures NeedBothReady(p, lexerReady).None? && o.Returned? && o.value ==>
              var lx := Lexer(tokens, 0, |s|);
              Parse.Parse(p.b.sm, Config(lx, Reset(Current(lx).id, p.b.sm)), fuel).Returned? &&
              Parse.Parse(p.b.sm, Config(lx, Reset(Current(lx).id, p.b.sm)), fuel).value.1.r.entry.action == Accept
  {
    match NeedBothReady(p, lexerReady)
    case Some(e) => Threw(e)
    case None =>
      var lx := Lexer(tokens, 0, |s|);
      var c := Config(lx, Reset(Current(lx).id, p.b.sm));
      ParseStopsAtErrorOrAccept(p.b.sm, c, fuel);
      match Parse.Parse(p.b.sm, c, fuel)
      case Returned((ok, _)) => Returned(ok)
      case Threw(e) => Threw(e)
      case Crashed => Crashed
      case OutOfFuel => OutOfFuel
  }

  /** Before `build`, every method that needs the machine refuses with "not ready", whatever
      else the object holds. */
  lemma UnbuiltRefuses<R>(p: ParserObj<R>, lexerReady: bool, s: string, tokens: seq<Token>, idx: int, symbols: seq<string>)
    requires !p.b.complete
    ensures Consume(p, lexerReady, s, tokens) == Call(p, Some(NotReady(ParserKind)))
    ensures Advance(p) == Defined(Call(p, Some(NotReady(ParserKind))))
    ensures ReduceIdOf(p) == Failure(NotReady(ParserKind)) && ActionOf(p) == Failure(NotReady(ParserKind))
    ensures Sigil(p, idx) == Defined(Failure(NotReady(ParserKind)))
    ensures Trace(p, symbols) == Defined(Failure(NotReady(ParserKind)))
  {
  }
}
