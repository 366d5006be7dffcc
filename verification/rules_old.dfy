/** `basic_rules` of the oldest generation: a registry without EBNF, flags or captures, whose
    rule texts are read lexeme by lexeme (no bison tables), whose ids are `size_t`
    positions, and whose `validate()` reuses the start rule's own first production when it
    has a single symbol. */
module RulesOld {
  import opened Wrappers
  import opened ParserStateMachine
  import opened ProductionChains
  import opened Grammar

  /** The lexemes of the oldest rule lexer: a quoted token, a symbol name, the name after
      `%prec`, and `|`. `%empty`, code blocks, comments and whitespace are skipped by the
      lexer and never reach the registry; anything else is unknown. */
  datatype RuleLexeme =
    | LiteralLexeme(text: string)
    | SymbolLexeme(name: string)
    | PrecLexeme(name: string)
    | OrLexeme
    | UnknownLexeme

  datatype Rules = Rules(
    nextPrecedence: nat,
    terminals: seq<string>,       // by id
    tokensInfo: seq<TokenInfo>,
    nonTerminals: seq<string>,    // by id
    ntLocations: seq<Location>,
    start: string,
    grammar: seq<Production>)

  /** What every operation keeps: `$` is terminal 0, names are registered once, every
      terminal has its information and every non-terminal its location, and the alternatives of each non-terminal are chained
      exactly. */
  predicate Wf(r: Rules) {
    && |r.terminals| > 0 && r.terminals[0] == "$"
    && Distinct(r.terminals) && Distinct(r.nonTerminals)
    && |r.tokensInfo| == |r.terminals| && |r.ntLocations| == |r.nonTerminals|
    && ChainsOk(Links(r.grammar), r.ntLocations)
  }

  /** The constructor: `$` is terminal 0 with default information. */
  function New(): (r: Rules)
    ensures Wf(r)
    ensures r.terminals == ["$"] && r.nonTerminals == [] && r.grammar == [] && r.start == ""
  {
    Rules(1, ["$"], EnsureInfo([], 0), [], [], "", [])
  }

  /** The name with id `id`, or the empty string: ids are positions. */
  function NameOf(names: seq<string>, id: nat): (n: string)
    ensures id < |names| ==> n == names[id]
    ensures id >= |names| ==> n == ""
  {
    if id < |names| then names[id] else ""
  }

  /** `validate(name)`: a do-while over the characters, so the empty name is invalid. */
  predicate ValidName(name: string) {
    |CStr(name)| > 0 && forall i :: 0 <= i < |CStr(name)| ==> NameChar(CStr(name)[i])
  }

  function InvalidName(name: string): string {
    "Invalid name '" + CStr(name) + "'."
  }

  /** `insert_terminal`, with `info(id)` as every caller does it. */
  function InsertTerminal(r: Rules, s: string): (o: (Rules, nat))
    ensures o.1 < |o.0.terminals| && o.0.terminals[o.1] == s && o.1 < |o.0.tokensInfo|
    ensures o.0.terminals == Insert(r.terminals, s).0 && o.1 == Insert(r.terminals, s).1
    ensures o.0.tokensInfo == EnsureInfo(r.tokensInfo, o.1)
    ensures o.0 == r.(terminals := o.0.terminals, tokensInfo := o.0.tokensInfo)
    ensures Wf(r) ==> Wf(o.0)
  {
    var (ts, id) := Insert(r.terminals, s);
    (r.(terminals := ts, tokensInfo := EnsureInfo(r.tokensInfo, id)), id)
  }

  // ---- token directives ----

  /** The name a token directive reads: its lexer knows quoted tokens and symbol names. */
  function DeclaredName(l: RuleLexeme): Option<string> {
    match l
    case LiteralLexeme(t) => Some(t)
    case SymbolLexeme(n) => Some(n)
    case _ => None
  }

  /** The private `token(names, precedence, associativity, func)`. */
  function Declare(r: Rules, names: seq<RuleLexeme>, info: TokenInfo, func: string): (o: Outcome<Rules>)
    ensures o.Returned? || o.Threw?
    ensures o.Threw? <==> exists i :: 0 <= i < |names| && DeclaredName(names[i]).None?
    ensures o.Threw? ==> o.error == "Unrecognised char in " + func + "()."
    ensures o.Returned? ==> r.terminals <= o.value.terminals
    ensures o.Returned? ==> forall i :: 0 <= i < |names| ==>
      DeclaredName(names[i]).value in o.value.terminals
    ensures o.Returned? && Wf(r) ==> Wf(o.value)
    decreases |names|
  {
    if |names| == 0 then Returned(r)
    else
      match DeclaredName(names[0])
      case None => Threw("Unrecognised char in " + func + "().")
      case Some(n) =>
        var (r1, id) := InsertTerminal(r, n);
        var r2 := r1.(tokensInfo := r1.tokensInfo[id := info]);
        var o := Declare(r2, names[1..], info, func);
        assert forall i :: 1 <= i < |names| ==> names[1..][i - 1] == names[i];
        o
  }

  function DeclareToken(r: Rules, names: seq<RuleLexeme>): Outcome<Rules> {
    Declare(r, names, TokenInfo(0, TokenAssoc), "token")
  }

  /** `left`, `right`, `nonassoc` and `precedence` share one new precedence level, which is
      used up even when the directive throws half way. */
  function DeclareLevel(r: Rules, names: seq<RuleLexeme>, assoc: Assoc, func: string): (o: Outcome<Rules>)
    ensures o.Returned? ==> o.value.nextPrecedence == r.nextPrecedence + 1
  {
    var r1 :- Declare(r, names, TokenInfo(r.nextPrecedence, assoc), func);
    Returned(r1.(nextPrecedence := r.nextPrecedence + 1))
  }

  function DeclareLeft(r: Rules, names: seq<RuleLexeme>): Outcome<Rules> {
    DeclareLevel(r, names, LeftAssoc, "left")
  }

  function DeclareRight(r: Rules, names: seq<RuleLexeme>): Outcome<Rules> {
    DeclareLevel(r, names, RightAssoc, "right")
  }

  function DeclareNonAssoc(r: Rules, names: seq<RuleLexeme>): Outcome<Rules> {
    DeclareLevel(r, names, NonAssoc, "nonassoc")
  }

  function DeclarePrecedence(r: Rules, names: seq<RuleLexeme>): Outcome<Rules> {
    DeclareLevel(r, names, PrecedenceAssoc, "precedence")
  }

  /** `token_id`. */
  function TokenId(r: Rules, name: string): (o: Result<nat>)
    ensures o.Success? <==> name in r.terminals
    ensures o.Success? ==> o.value < |r.terminals| && r.terminals[o.value] == name
    ensures o.Failure? ==> o.error == "Unknown token '" + CStr(name) + "'."
  {
    if name in r.terminals then Success(IndexOf(r.terminals, name))
    else Failure("Unknown token '" + CStr(name) + "'.")
  }

  // ---- start symbol ----

  function SetStart(r: Rules, name: string): (o: Outcome<Rules>)
    ensures o.Returned? <==> ValidName(name)
    ensures o.Returned? ==> o.value == r.(start := name)
    ensures o.Threw? ==> o.error == InvalidName(name)
  {
    if ValidName(name) then Returned(r.(start := name)) else Threw(InvalidName(name))
  }

  /** `start()`: npos when no start is set; reading an unregistered start dereferences the
      map's end. */
  function StartId(r: Rules): (o: Behaviour<nat>)
    ensures r.start == "" ==> o == Defined(Npos)
    ensures r.start != "" ==> (o.Defined? <==> r.start in r.nonTerminals)
    ensures o.Defined? && r.start != "" ==> NameOf(r.nonTerminals, o.value) == r.start
  {
    if r.start == "" then Defined(Npos)
    else if r.start in r.nonTerminals then Defined(IndexOf(r.nonTerminals, r.start))
    else Undefined
  }

  // ---- push_production ----

  /** The loop state of `push_production`: the registry and the production being built. */
  datatype Building = Building(rules: Rules, prod: Production)

  /** The registry invariant with the production being built counted as the next entry. */
  predicate BuildingOk(b: Building) {
    && |b.rules.terminals| > 0 && b.rules.terminals[0] == "$"
    && Distinct(b.rules.terminals) && Distinct(b.rules.nonTerminals)
    && |b.rules.tokensInfo| == |b.rules.terminals| && |b.rules.ntLocations| == |b.rules.nonTerminals|
    && ChainsOk(Links(b.rules.grammar + [b.prod]), b.rules.ntLocations)
  }

  /** The message for a lexeme the rule grammar has no place for: it quotes the rule text
      as written, whitespace, comments and the unmatched character included, up to any
      NUL. */
  function SyntaxErrorIn(lhs: string, text: string): string {
    "Syntax error in rule '" + CStr(lhs) + "': '" + CStr(text) + "'."
  }

  /** The rule of `push("x", "a ?")` is rejected with its text as written. */
  lemma SyntaxErrorKeepsText()
    ensures SyntaxErrorIn("x", "a ?") == "Syntax error in rule 'x': 'a ?'."
  {
    assert CStr("x") == "x";
    assert CStr("a ?") == "a ?";
  }

  /** One lexeme of `push_production`'s loop over the lexemes of the rule text `text`. */
  function Step(b: Building, l: RuleLexeme, lhs: string, text: string): (o: Outcome<Building>)
    ensures o.Returned? || o.Threw?
    ensures l == UnknownLexeme ==> o == Threw(SyntaxErrorIn(lhs, text))
    ensures o.Returned? && BuildingOk(b) ==> BuildingOk(o.value)
    ensures o.Returned? ==> o.value.prod.lhs == b.prod.lhs
    ensures o.Returned? ==> b.rules.nonTerminals <= o.value.rules.nonTerminals
    ensures o.Returned? ==> b.rules.terminals <= o.value.rules.terminals
    ensures o.Returned? ==> o.value.rules.start == b.rules.start
    // the grammar grows by one production exactly at `|`
    ensures o.Returned? && l == OrLexeme ==>
      o.value.rules.grammar == b.rules.grammar + [b.prod.(nextLhs := |b.rules.grammar| + 1)] &&
      o.value.prod == Fresh(b.prod.lhs, |b.rules.grammar| + 1)
    ensures o.Returned? && l != OrLexeme ==>
      o.value.rules.grammar == b.rules.grammar && LinkOf(o.value.prod) == LinkOf(b.prod)
    // a symbol is appended exactly for a quoted token or a symbol name
    ensures o.Returned? && (l.LiteralLexeme? || l.SymbolLexeme?) ==>
      |o.value.prod.rhs| == |b.prod.rhs| + 1 && o.value.prod.rhs[..|b.prod.rhs|] == b.prod.rhs
    ensures o.Returned? && l.PrecLexeme? ==> o.value.prod.rhs == b.prod.rhs
  {
    var r := b.rules;
    var p := b.prod;
    match l
    case LiteralLexeme(t) =>
      var (r1, id) := InsertTerminal(r, t);
      var p1 := p.(precedence := r1.tokensInfo[id].precedence, rhs := p.rhs + [Symbol(Terminal, id)]);
      var s := Building(r1, p1);
      assert BuildingOk(b) ==> BuildingOk(s) by {
        LinksIgnoreContents(r.grammar, p, p1);
      }
      Returned(s)
    case SymbolLexeme(n) =>
      if n !in r.terminals then
        var (nts, id) := Insert(r.nonTerminals, n);
        var p1 := p.(rhs := p.rhs + [Symbol(NonTerminal, id)]);
        var s := Building(r.(nonTerminals := nts, ntLocations := Grow(r.ntLocations, id)), p1);
        assert BuildingOk(b) ==> BuildingOk(s) by {
          if BuildingOk(b) {
            GrowKeepsChains(Links(r.grammar + [p]), r.ntLocations, id);
            LinksIgnoreContents(r.grammar, p, p1);
          }
        }
        Returned(s)
      else
        var id := IndexOf(r.terminals, n);
        var infos := EnsureInfo(r.tokensInfo, id);
        var p1 := p.(precedence := infos[id].precedence, rhs := p.rhs + [Symbol(Terminal, id)]);
        var s := Building(r.(tokensInfo := infos), p1);
        assert BuildingOk(b) ==> BuildingOk(s) by {
          LinksIgnoreContents(r.grammar, p, p1);
        }
        Returned(s)
    case PrecLexeme(n) =>
      var (ts, id) := Insert(r.terminals, n);
      if id >= |r.tokensInfo| then Threw("Unknown token " + CStr(n) + ".")
      else
        var p1 := p.(precedence := r.tokensInfo[id].precedence);
        var s := Building(r.(terminals := ts), p1);
        assert BuildingOk(b) ==> BuildingOk(s) by {
          LinksIgnoreContents(r.grammar, p, p1);
        }
        Returned(s)
    case OrLexeme =>
      if |r.grammar| + 3 >= Npos then Threw("vector::_M_realloc_insert")
      else
        var (g, locs, p1) := CloseAlternative(r.grammar, r.ntLocations, p);
        var s := Building(r.(grammar := g, ntLocations := locs), p1);
        assert BuildingOk(b) ==> BuildingOk(s) by {
          if BuildingOk(b) {
            CloseAlternativeIsOpen(r.grammar, r.ntLocations, p);
          }
        }
        Returned(s)
    case UnknownLexeme => Threw(SyntaxErrorIn(lhs, text))
  }

  /** The loop over the lexemes `rhs` of the rule text `text`, from position `i` on. */
  function Run(b: Building, lhs: string, text: string, rhs: seq<RuleLexeme>, i: nat): (o: Outcome<Building>)
    requires i <= |rhs|
    ensures o.Returned? || o.Threw?
    ensures o.Returned? && BuildingOk(b) ==> BuildingOk(o.value)
    ensures o.Returned? ==> o.value.prod.lhs == b.prod.lhs && o.value.rules.start == b.rules.start
    ensures o.Returned? ==> b.rules.nonTerminals <= o.value.rules.nonTerminals
    ensures o.Returned? ==> b.rules.terminals <= o.value.rules.terminals
    ensures o.Returned? ==> b.rules.grammar <= o.value.rules.grammar
    ensures o.Returned? ==> forall k :: |b.rules.grammar| <= k < |o.value.rules.grammar| ==>
      o.value.rules.grammar[k].lhs == b.prod.lhs
    ensures i < |rhs| && rhs[i] == UnknownLexeme ==> o == Threw(SyntaxErrorIn(lhs, text))
    decreases |rhs| - i
  {
    if i == |rhs| then Returned(b)
    else
      var b1 :- Step(b, rhs[i], lhs, text);
      Run(b1, lhs, text, rhs, i + 1)
  }

  /** The head of `push_production(lhs, rhs)`: register `lhs` and start its first new
      production at the end of the grammar. Reserving room for two more productions throws
      when the grammar is full, and a last production beyond the grammar is read out of
      bounds. */
  function Opened(r: Rules, lhs: string): (o: Outcome<Building>)
    ensures o.Returned? || o.Threw? || o.Crashed?
    ensures o.Returned? ==> lhs in o.value.rules.nonTerminals && r.nonTerminals <= o.value.rules.nonTerminals
    ensures o.Returned? ==> o.value.prod.lhs == IndexOf(o.value.rules.nonTerminals, lhs)
    ensures o.Returned? ==> o.value.rules.terminals == r.terminals && o.value.rules.start == r.start
    ensures o.Returned? ==> |o.value.rules.grammar| == |r.grammar| && forall k :: 0 <= k < |r.grammar| ==>
      o.value.rules.grammar[k].lhs == r.grammar[k].lhs && o.value.rules.grammar[k].rhs == r.grammar[k].rhs
    ensures o.Returned? && Wf(r) ==> BuildingOk(o.value)
  {
    var (nts, id) := Insert(r.nonTerminals, lhs);
    var locs := Grow(r.ntLocations, id);
    if |r.grammar| + 2 >= Npos then Threw("vector::_M_realloc_insert")
    else if locs[id].last != Npos && locs[id].last >= |r.grammar| then Crashed
    else
      var (g, locs1, p) := OpenProduction(r.grammar, locs, id);
      var b0 := Building(r.(nonTerminals := nts, ntLocations := locs1, grammar := g), p);
      assert Wf(r) ==> BuildingOk(b0) by {
        if Wf(r) {
          GrowKeepsChains(Links(r.grammar), r.ntLocations, id);
          OpenProductionKeepsChains(r.grammar, locs, id);
        }
      }
      assert id == IndexOf(nts, lhs) by {
        if lhs !in r.nonTerminals {
          assert nts == r.nonTerminals + [lhs];
        }
      }
      Returned(b0)
  }

  /** `push_production(lhs, rhs)`: one production per `|`-separated alternative. `text` is
      the rule as passed, and `rhs` the rule lexer's reading of it. */
  function PushProduction(r: Rules, lhs: string, text: string, rhs: seq<RuleLexeme>): (o: Outcome<Rules>)
    ensures o.Returned? || o.Threw? || o.Crashed?
    ensures o.Returned? ==> lhs in o.value.nonTerminals && |o.value.grammar| > |r.grammar|
    ensures o.Returned? ==> forall k :: |r.grammar| <= k < |o.value.grammar| ==>
      o.value.grammar[k].lhs == IndexOf(o.value.nonTerminals, lhs)
    ensures o.Returned? ==> forall k :: 0 <= k < |r.grammar| ==>
      o.value.grammar[k].lhs == r.grammar[k].lhs && o.value.grammar[k].rhs == r.grammar[k].rhs
    ensures o.Returned? ==> r.nonTerminals <= o.value.nonTerminals && r.terminals <= o.value.terminals
    ensures o.Returned? && Wf(r) ==> Wf(o.value)
    // an unmatched character at the head of the rule text stops the loop at once
    ensures |rhs| > 0 && rhs[0] == UnknownLexeme ==>
      o == if Opened(r, lhs).Returned? then Threw(SyntaxErrorIn(lhs, text)) else Opened(r, lhs).PropagateFailure()
  {
    var b0 :- Opened(r, lhs);
    var b :- Run(b0, lhs, text, rhs, 0);
    IndexOfPrefix(b0.rules.nonTerminals, b.rules.nonTerminals, lhs);
    Returned(b.rules.(grammar := b.rules.grammar + [b.prod]))
  }

  /** `push(lhs, rhs)`: check the name, refuse a terminal's name, add the productions and
      return the index of the last one. `rhs` is the rule lexer's reading of `text`. */
  function Push(r: Rules, lhs: string, text: string, rhs: seq<RuleLexeme>): (o: Outcome<(Rules, nat)>)
    ensures !ValidName(lhs) ==> o == Threw(InvalidName(lhs))
    ensures ValidName(lhs) && CStr(lhs) in r.terminals ==>
      o == Threw("Rule " + CStr(lhs) + " is already defined as a TERMINAL.")
    ensures o.Returned? ==> ValidName(lhs) && CStr(lhs) !in r.terminals
    ensures o.Returned? ==> o.value.1 + 1 == |o.value.0.grammar|
  {
    if !ValidName(lhs) then Threw(InvalidName(lhs))
    else if CStr(lhs) in r.terminals then Threw("Rule " + CStr(lhs) + " is already defined as a TERMINAL.")
    else
      var r1 :- PushProduction(r, CStr(lhs), text, rhs);
      Returned((r1, |r1.grammar| - 1))
  }

  /** The number of `|` lexemes: one production more than that is added per rule. */
  function Alternatives(ls: seq<RuleLexeme>): nat {
    if |ls| == 0 then 0 else (if ls[0] == OrLexeme then 1 else 0) + Alternatives(ls[1..])
  }

  lemma {:induction false} RunCountsAlternatives(b: Building, lhs: string, text: string, rhs: seq<RuleLexeme>, i: nat)
    requires i <= |rhs|
    ensures Run(b, lhs, text, rhs, i).Returned? ==>
      |Run(b, lhs, text, rhs, i).value.rules.grammar| == |b.rules.grammar| + Alternatives(rhs[i..])
    decreases |rhs| - i
  {
    if i < |rhs| {
      assert rhs[i..][0] == rhs[i] && rhs[i..][1..] == rhs[i + 1..];
      var o := Step(b, rhs[i], lhs, text);
      if o.Returned? {
        RunCountsAlternatives(o.value, lhs, text, rhs, i + 1);
      }
    }
  }

  /** A rule with n `|`s adds n + 1 productions. */
  lemma PushProductionCountsAlternatives(r: Rules, lhs: string, text: string, rhs: seq<RuleLexeme>)
    ensures PushProduction(r, lhs, text, rhs).Returned? ==>
      |PushProduction(r, lhs, text, rhs).value.grammar| == |r.grammar| + 1 + Alternatives(rhs)
  {
    var o := Opened(r, lhs);
    if o.Returned? {
      assert rhs[0..] == rhs;
      RunCountsAlternatives(o.value, lhs, text, rhs, 0);
    }
  }

  /** `push` returns the index of the last production of the rule, not of the first. */
  lemma PushReturnsLast(r: Rules, lhs: string, text: string, rhs: seq<RuleLexeme>)
    ensures Push(r, lhs, text, rhs).Returned? ==> Push(r, lhs, text, rhs).value.1 == |r.grammar| + Alternatives(rhs)
  {
    PushProductionCountsAlternatives(r, CStr(lhs), text, rhs);
  }

  // ---- validate() ----

  /** The productions that have non-terminal `id` on their rhs. */
  predicate Uses(p: Production, id: nat) {
    Symbol(NonTerminal, id) in p.rhs
  }

  /** The first production, in grammar order, that uses non-terminal `id`. */
  function FirstUse(g: seq<Production>, id: nat): (o: Option<nat>)
    ensures o.None? <==> forall k :: 0 <= k < |g| ==> !Uses(g[k], id)
    ensures o.Some? ==> o.value < |g| && Uses(g[o.value], id)
    ensures o.Some? ==> forall k :: 0 <= k < o.value ==> !Uses(g[k], id)
  {
    if |g| == 0 then None
    else
      match FirstUse(g[..|g| - 1], id)
      case Some(k) => Some(k)
      case None => if Uses(g[|g| - 1], id) then Some(|g| - 1) else None
  }

  /** The start rule `validate()` settles on: the one set, or else the lhs of the first
      production; its name and its id, `Npos` when it does not exist. */
  function StartRule(r: Rules): (s: (string, nat))
    requires |r.grammar| > 0
    ensures r.start != "" ==> s.0 == r.start
    ensures r.start != "" && r.start !in r.nonTerminals ==> s.1 == Npos
    ensures r.start != "" && r.start in r.nonTerminals ==> s.1 == IndexOf(r.nonTerminals, r.start)
    ensures s.1 != Npos ==> s.1 < |r.nonTerminals| && r.nonTerminals[s.1] == s.0
  {
    if r.start == "" then
      var id := r.grammar[0].lhs;
      var name := NameOf(r.nonTerminals, id);
      (name, if name != "" then id else Npos)
    else (r.start, if r.start in r.nonTerminals then IndexOf(r.nonTerminals, r.start) else Npos)
  }

  const Accept: string := "$accept"

  /** The rule lexer's reading of a name `validate(name)` accepts, as `push_production`
      reads the start name it is given for `$accept`. A name that begins with a letter, `_`
      or `.` is one SYMBOL, which takes in every later name character; a leading digit or
      `-` matches no rule of the initial state and is an unrecognised lexeme of one
      character. */
  function NameLexemes(name: string): (ls: seq<RuleLexeme>)
    decreases |name|
  {
    if |name| == 0 then []
    else if IdentifierStart(name[0]) then [SymbolLexeme(name)]
    else [UnknownLexeme] + NameLexemes(name[1..])
  }

  /** A start name is read as the one symbol it names exactly when it begins with a
      character the symbol pattern allows first; otherwise its first lexeme is
      unrecognised. */
  lemma NameLexemesOneSymbol(name: string)
    ensures NameLexemes(name) == [SymbolLexeme(name)] <==> |name| > 0 && IdentifierStart(name[0])
    ensures |name| > 0 && !IdentifierStart(name[0]) ==> NameLexemes(name)[0] == UnknownLexeme
  {
    if |name| > 0 && !IdentifierStart(name[0]) {
      assert NameLexemes(name)[0] != SymbolLexeme(name);
    }
  }

  /** The `$accept: start $` production: `push_production("$accept", start)`, which re-lexes
      the start name, followed by appending the end-of-input terminal to the last
      production. A start name with a leading digit or `-` never gets that far. */
  function Augment(r: Rules, start: string): (o: Outcome<Rules>)
    ensures o.Returned? || o.Threw? || o.Crashed?
    ensures o.Returned? ==> |start| == 0 || IdentifierStart(start[0])
  {
    var r1 :- PushProduction(r, Accept, start, NameLexemes(start));
    var (ts, dollar) := Insert(r1.terminals, "$");
    var n := |r1.grammar| - 1;
    var last := r1.grammar[n];
    Returned(r1.(terminals := ts, start := Accept,
                 grammar := r1.grammar[..n] + [last.(rhs := last.rhs + [Symbol(Terminal, dollar)])]))
  }

  /** Non-terminal `i` has a location but no production. */
  predicate Missing(r: Rules, i: nat) {
    i < |r.ntLocations| && r.ntLocations[i].first == Npos
  }

  function NoProductions(names: seq<string>, i: nat): string {
    "Non-terminal '" + CStr(NameOf(names, i)) + "' does not have any productions."
  }

  /** The closing loop of `validate()`: every non-terminal must have a production. */
  function CheckProductions(r: Rules): (o: Outcome<Rules>)
    ensures o.Returned? <==> forall i :: 0 <= i < |r.ntLocations| ==> r.ntLocations[i].first != Npos
    ensures o.Returned? ==> o.value == r
    ensures o.Threw? ==> exists i :: Missing(r, i) && o.error == NoProductions(r.nonTerminals, i)
  {
    match FirstMissing(r.ntLocations)
    case Some(i) => Threw(NoProductions(r.nonTerminals, i))
    case None => Returned(r)
  }

  /** `validate()`. When the start rule's first production has a single symbol, the
      end-of-input terminal is appended to it, and then the start rule may not occur on any
      rhs; otherwise a `$accept` rule is added. As written, the test reads the start rule's
      first production even when it has none; `corrected` adds that case to the `$accept`
      branch. */
  function ValidateWith(r: Rules, corrected: bool): (o: Outcome<Rules>)
    ensures |r.grammar| == 0 ==> o == Threw("No productions are defined.")
    ensures |r.grammar| > 0 && StartRule(r).1 == Npos ==> o == Threw("Specified start rule does not exist.")
    ensures o.Returned? ==> forall i :: 0 <= i < |o.value.ntLocations| ==> o.value.ntLocations[i].first != Npos
    ensures o.Returned? ==> o.value.start == Accept || o.value.start == StartRule(r).0
    // a `$accept` rule is only added for a start name that lexes as one symbol
    ensures |r.grammar| > 0 && o.Returned? && o.value.start == Accept && StartRule(r).0 != Accept ==>
      |StartRule(r).0| > 0 && IdentifierStart(StartRule(r).0[0])
  {
    if |r.grammar| == 0 then Threw("No productions are defined.")
    else
      var (name, id) := StartRule(r);
      var r0 := r.(start := name);
      if id == Npos then Threw("Specified start rule does not exist.")
      else if id >= |r.ntLocations| || (corrected && r.ntLocations[id].first == Npos) then
        var r1 :- Augment(r0, name);
        CheckProductions(r1)
      else
        var first := r.ntLocations[id].first;
        if first >= |r.grammar| then Crashed
        else if |r.grammar[first].rhs| != 1 then
          var r1 :- Augment(r0, name);
          CheckProductions(r1)
        else
          var (ts, dollar) := Insert(r.terminals, "$");
          var p := r.grammar[first];
          var r1 := r0.(terminals := ts, grammar := r.grammar[first := p.(rhs := p.rhs + [Symbol(Terminal, dollar)])]);
          match FirstUse(r1.grammar, id)
          case Some(k) =>
            Threw("The start symbol occurs on the RHS of rule '" + CStr(NameOf(r.nonTerminals, r1.grammar[k].lhs)) + "'.")
          case None => CheckProductions(r1)
  }

  function ValidateAsWritten(r: Rules): Outcome<Rules> {
    ValidateWith(r, false)
  }

  function Validate(r: Rules): Outcome<Rules> {
    ValidateWith(r, true)
  }

  // ---- the start rule without productions ----

  /** `push("a", "b")`: `b` is registered as a non-terminal, with a location but no
      production. */
  const RuleAB: Rules := Rules(1, ["$"], [DefaultInfo], ["a", "b"], [Location(0, 0), NoLocation], "",
                               [Production(0, [Symbol(NonTerminal, 1)], "", 0, TokenAssoc, 0, Npos)])

  lemma PushRuleAB()
    ensures Push(New(), "a", "b", [SymbolLexeme("b")]) == Returned((RuleAB, 0))
    ensures Wf(RuleAB)
  {
    assert ValidName("a") by { assert CStr("a") == "a"; }
    assert CStr("a") == "a";
    PushProductionRuleAB();
    assert "a"[0] != "$"[0];
    assert "a" !in New().terminals;
  }

  /** The productions of `push("a", "b")`. */
  lemma PushProductionRuleAB()
    ensures PushProduction(New(), "a", "b", [SymbolLexeme("b")]) == Returned(RuleAB)
  {
    var r := New();
    assert EnsureInfo([], 0) == [DefaultInfo];
    var (nts, id) := Insert(r.nonTerminals, "a");
    assert nts == ["a"] && id == 0;
    var locs := Grow(r.ntLocations, id);
    assert locs == [NoLocation];
    var (g, locs1, p) := OpenProduction(r.grammar, locs, id);
    assert g == [] && locs1 == [Location(0, 0)] && p == Fresh(0, 0);
    var b0 := Building(r.(nonTerminals := nts, ntLocations := locs1, grammar := g), p);
    assert Opened(r, "a") == Returned(b0);
    var s := Step(b0, SymbolLexeme("b"), "a", "b");
    assert "b"[0] != "a"[0] && "b"[0] != "$"[0];
    assert "b" !in nts && "b" !in r.terminals;
    assert Insert(["a"], "b").1 == 1;
    assert Insert(["a"], "b").0 == ["a"] + ["b"];
    assert ["a"] + ["b"] == ["a", "b"];
    assert Insert(nts, "b") == (["a", "b"], 1);
    assert Grow(locs1, 1) == [Location(0, 0), NoLocation];
    assert s == Returned(Building(b0.rules.(nonTerminals := ["a", "b"], ntLocations := [Location(0, 0), NoLocation]),
                                  p.(rhs := [Symbol(NonTerminal, 1)])));
    var b1 := s.value;
    assert b1 == Building(RuleAB.(grammar := []), RuleAB.grammar[0]);
    assert Run(b0, "a", "b", [SymbolLexeme("b")], 1) == Returned(b0);
    assert Run(b0, "a", "b", [SymbolLexeme("b")], 0) == Run(b1, "a", "b", [SymbolLexeme("b")], 1);
    assert Run(b1, "a", "b", [SymbolLexeme("b")], 1) == Returned(b1);
    assert Run(b0, "a", "b", [SymbolLexeme("b")], 0) == Returned(b1);
    assert b1.rules.(grammar := b1.rules.grammar + [b1.prod]) == RuleAB;
    assert PushProduction(r, "a", "b", [SymbolLexeme("b")]).Returned?;
  }

  /** The start rule's version of the question `validate()` answers: the start symbol is a
      non-terminal whose first production ends with the end-of-input terminal. */
  predicate EndsWithEoi(s: Rules) {
    && s.start in s.nonTerminals && "$" in s.terminals
    && var id := IndexOf(s.nonTerminals, s.start);
       id < |s.ntLocations| && s.ntLocations[id].first < |s.grammar|
       && var rhs := s.grammar[s.ntLocations[id].first].rhs;
          |rhs| > 0 && rhs[|rhs| - 1] == Symbol(Terminal, IndexOf(s.terminals, "$"))
  }

  /** On a well-formed registry `push_production` never reads past the grammar. */
  lemma PushProductionNeverCrashes(r: Rules, lhs: string, text: string, rhs: seq<RuleLexeme>)
    requires Wf(r)
    ensures !PushProduction(r, lhs, text, rhs).Crashed?
  {
    var (nts, id) := Insert(r.nonTerminals, lhs);
    GrowKeepsChains(Links(r.grammar), r.ntLocations, id);
    assert LocationOk(Links(r.grammar), Grow(r.ntLocations, id), id);
  }

  /** A fresh `$accept` rule is the start rule's only production and ends with `$`. */
  lemma AugmentEndsWithEoi(r: Rules, start: string)
    requires Wf(r) && Accept !in r.nonTerminals
    ensures Augment(r, start).Returned? ==> Wf(Augment(r, start).value) && EndsWithEoi(Augment(r, start).value)
    ensures |r.grammar| + 2 < Npos && |start| > 0 && !IdentifierStart(start[0]) ==>
      Augment(r, start) == Threw(SyntaxErrorIn(Accept, start))
  {
    if |r.grammar| + 2 < Npos && |start| > 0 && !IdentifierStart(start[0]) {
      AugmentNonSymbolStart(r, start);
    }
    var ls := NameLexemes(start);
    var o1 := PushProduction(r, Accept, start, ls);
    if o1.Returned? {
      var r1 := o1.value;
      PushProductionCountsAlternatives(r, Accept, start, ls);
      NameLexemesOneSymbol(start);
      assert Alternatives(ls) == 0 by {
        if |start| > 0 {
          assert ls[1..] == [];
        }
      }
      assert "$" in r1.terminals && IndexOf(r1.terminals, "$") == 0 by {
        IndexOfPrefix(r.terminals, r1.terminals, "$");
      }
      var n := |r.grammar|;
      var last := r1.grammar[n];
      var r2 := r1.(start := Accept, grammar := r1.grammar[..n] + [last.(rhs := last.rhs + [Symbol(Terminal, 0)])]);
      assert Augment(r, start) == Returned(r2);
      AcceptRuleEndsWithEoi(r, r1);
    }
  }

  /** The `$accept` production `push_production` left last in the grammar, once `$` is
      appended to it, is the start rule's first production and ends with `$`. */
  lemma AcceptRuleEndsWithEoi(r: Rules, r1: Rules)
    requires Wf(r) && Accept !in r.nonTerminals && Wf(r1)
    requires Accept in r1.nonTerminals && r.nonTerminals <= r1.nonTerminals && r.terminals <= r1.terminals
    requires |r1.grammar| == |r.grammar| + 1
    requires r1.grammar[|r.grammar|].lhs == IndexOf(r1.nonTerminals, Accept)
    requires forall k :: 0 <= k < |r.grammar| ==> r1.grammar[k].lhs == r.grammar[k].lhs
    ensures var n := |r.grammar|;
      var last := r1.grammar[n];
      var r2 := r1.(start := Accept, grammar := r1.grammar[..n] + [last.(rhs := last.rhs + [Symbol(Terminal, 0)])]);
      Wf(r2) && EndsWithEoi(r2)
  {
    var n := |r.grammar|;
    var id := IndexOf(r1.nonTerminals, Accept);
    assert id >= |r.nonTerminals|;
    var links := Links(r1.grammar);
    assert LocationOk(links, r1.ntLocations, id);
    forall j | 0 <= j < n ensures links[j].lhs != id {
      assert Links(r.grammar)[j].lhs < |r.ntLocations|;
    }
    assert r1.ntLocations[id].first == n;
    assert "$" in r1.terminals && IndexOf(r1.terminals, "$") == 0 by {
      IndexOfPrefix(r.terminals, r1.terminals, "$");
    }
    var last := r1.grammar[n];
    var q := last.(rhs := last.rhs + [Symbol(Terminal, 0)]);
    var r2 := r1.(start := Accept, grammar := r1.grammar[..n] + [q]);
    AppendToLastKeepsLinks(r1.grammar, q);
    assert r2.grammar[n] == q;
  }

  /** On a well-formed registry without `$accept`, re-pushing a start name with a leading
      digit or `-` reaches the loop, whose first lexeme is unrecognised. */
  lemma AugmentNonSymbolStart(r: Rules, start: string)
    requires Wf(r) && Accept !in r.nonTerminals && |r.grammar| + 2 < Npos
    requires |start| > 0 && !IdentifierStart(start[0])
    ensures Augment(r, start) == Threw(SyntaxErrorIn(Accept, start))
  {
    var ls := NameLexemes(start);
    NameLexemesOneSymbol(start);
    var (nts, id) := Insert(r.nonTerminals, Accept);
    assert id == |r.nonTerminals|;
    var locs := Grow(r.ntLocations, id);
    assert locs[id] == NoLocation;
    var (g, locs1, p) := OpenProduction(r.grammar, locs, id);
    var b0 := Building(r.(nonTerminals := nts, ntLocations := locs1, grammar := g), p);
    assert Opened(r, Accept) == Returned(b0);
    assert Step(b0, ls[0], Accept, start) == Threw(SyntaxErrorIn(Accept, start));
    assert Run(b0, Accept, start, ls, 0) == Threw(SyntaxErrorIn(Accept, start));
    assert PushProduction(r, Accept, start, ls) == Threw(SyntaxErrorIn(Accept, start));
  }

  /** Appending `$` to the start rule's single-symbol first production keeps the registry
      well formed, and the start rule then ends with `$`. */
  lemma EndStartEndsWithEoi(r: Rules, name: string, id: nat)
    requires Wf(r) && id < |r.nonTerminals| && r.nonTerminals[id] == name
    requires r.ntLocations[id].first != Npos
    ensures r.ntLocations[id].first < |r.grammar|
    ensures var first := r.ntLocations[id].first;
      var p := r.grammar[first];
      var s := r.(start := name, terminals := Insert(r.terminals, "$").0,
                  grammar := r.grammar[first := p.(rhs := p.rhs + [Symbol(Terminal, Insert(r.terminals, "$").1)])]);
      Wf(s) && EndsWithEoi(s)
  {
    assert LocationOk(Links(r.grammar), r.ntLocations, id);
    var first := r.ntLocations[id].first;
    var p := r.grammar[first];
    var q := p.(rhs := p.rhs + [Symbol(Terminal, Insert(r.terminals, "$").1)]);
    LinksIgnoreRhsAt(r.grammar, first, q);
    IndexOfDistinct(r.nonTerminals, id);
    IndexOfDistinct(r.terminals, 0);
  }

  /** Adding the `$accept` rule to a well-formed registry never reads past the grammar. */
  lemma AugmentNeverCrashes(r: Rules, start: string)
    requires Wf(r)
    ensures !Augment(r, start).Crashed?
  {
    PushProductionNeverCrashes(r, Accept, start, NameLexemes(start));
  }

  /** The corrected `validate()` never reads past the grammar of a well-formed registry. */
  lemma ValidateNeverCrashes(r: Rules)
    requires Wf(r)
    ensures !Validate(r).Crashed?
  {
    if |r.grammar| > 0 {
      var (name, id) := StartRule(r);
      var r0 := r.(start := name);
      AugmentNeverCrashes(r0, name);
      if id != Npos && id < |r.ntLocations| && r.ntLocations[id].first != Npos {
        assert LocationOk(Links(r.grammar), r.ntLocations, id);
        var first := r.ntLocations[id].first;
        assert first < |r.grammar|;
        if |r.grammar[first].rhs| == 1 {
          var (ts, dollar) := Insert(r.terminals, "$");
          var p := r.grammar[first];
          var r1 := r0.(terminals := ts, grammar := r.grammar[first := p.(rhs := p.rhs + [Symbol(Terminal, dollar)])]);
          assert !CheckProductions(r1).Crashed?;
        }
      }
    }
  }

  /** What `validate()` accepts is ready for the generator: the registry stays well formed,
      every non-terminal has a production, and the start rule's first production ends with
      `$`. */
  lemma ValidateEndsWithEoi(r: Rules, corrected: bool)
    requires Wf(r) && Accept !in r.nonTerminals
    ensures ValidateWith(r, corrected).Returned? ==> Wf(ValidateWith(r, corrected).value)
    ensures ValidateWith(r, corrected).Returned? ==> EndsWithEoi(ValidateWith(r, corrected).value)
  {
    var o := ValidateWith(r, corrected);
    if o.Returned? {
      var (name, id) := StartRule(r);
      var r0 := r.(start := name);
      assert Wf(r0);
      if id >= |r.ntLocations| || (corrected && r.ntLocations[id].first == Npos) ||
         (r.ntLocations[id].first < |r.grammar| && |r.grammar[r.ntLocations[id].first].rhs| != 1) {
        AugmentEndsWithEoi(r0, name);
      } else {
        EndStartEndsWithEoi(r, name, id);
      }
    }
  }

  /** `push("1", "'a' 'b'")` and then `validate()`: a start rule whose first production is
      not a single symbol gets a `$accept` rule, and re-lexing a start name with a leading
      digit or `-` throws the syntax error of that rule, quoting the name. */
  lemma ValidateNonSymbolStartThrows(r: Rules, corrected: bool)
    requires Wf(r) && Accept !in r.nonTerminals && 0 < |r.grammar| && |r.grammar| + 2 < Npos
    requires StartRule(r).1 != Npos
    requires var id := StartRule(r).1;
      r.ntLocations[id].first < |r.grammar| && |r.grammar[r.ntLocations[id].first].rhs| != 1
    requires |StartRule(r).0| > 0 && !IdentifierStart(StartRule(r).0[0])
    ensures ValidateWith(r, corrected) == Threw(SyntaxErrorIn(Accept, StartRule(r).0))
  {
    var (name, id) := StartRule(r);
    AugmentNonSymbolStart(r.(start := name), name);
  }

  /** As written, `validate()` crashes whenever the start rule is a non-terminal that only
      occurs on some rhs: its first production is `npos`, and the test reads
      `_grammar[npos]`. */
  lemma ValidateAsWrittenCrashes(r: Rules)
    requires 0 < |r.grammar| < Npos && StartRule(r).1 != Npos && Missing(r, StartRule(r).1)
    ensures ValidateAsWritten(r) == Crashed
  {
    var id := StartRule(r).1;
    assert r.ntLocations[id].first >= |r.grammar|;
  }

  /** `validate()` of `RuleAB` with start `b` pushes `$accept: b`. */
  lemma PushAcceptAB()
    ensures PushProduction(RuleAB.(start := "b"), Accept, "b", [SymbolLexeme("b")]) == Returned(
      RuleAB.(start := "b", nonTerminals := ["a", "b", Accept],
              ntLocations := [Location(0, 0), NoLocation, Location(1, 1)],
              grammar := RuleAB.grammar + [Production(2, [Symbol(NonTerminal, 1)], "", 0, TokenAssoc, 1, Npos)]))
  {
    var r := RuleAB.(start := "b");
    assert Accept[0] != "a"[0] && Accept[0] != "b"[0] && "b"[0] != "$"[0];
    assert Accept !in r.nonTerminals && "b" !in r.terminals;
    assert r.nonTerminals + [Accept] == ["a", "b", Accept];
    var (nts, id) := Insert(r.nonTerminals, Accept);
    assert nts == ["a", "b", Accept] && id == 2;
    var locs := Grow(r.ntLocations, id);
    assert locs == [Location(0, 0), NoLocation, NoLocation];
    var (g, locs1, p) := OpenProduction(r.grammar, locs, id);
    assert g == r.grammar && locs1 == [Location(0, 0), NoLocation, Location(1, 1)] && p == Fresh(2, 1);
    var b0 := Building(r.(nonTerminals := nts, ntLocations := locs1, grammar := g), p);
    assert Opened(r, Accept) == Returned(b0);
    assert Insert(nts, "b") == (nts, 1);
    var b1 := Building(b0.rules, p.(rhs := [Symbol(NonTerminal, 1)]));
    assert Step(b0, SymbolLexeme("b"), Accept, "b") == Returned(b1);
    assert Run(b1, Accept, "b", [SymbolLexeme("b")], 1) == Returned(b1);
    assert Run(b0, Accept, "b", [SymbolLexeme("b")], 0) == Returned(b1);
  }

  /** The registry after `validate()` of `RuleAB` with start `b`, which then reports `b`. */
  const AugmentedAB: Rules :=
    RuleAB.(start := Accept, nonTerminals := ["a", "b", Accept],
            ntLocations := [Location(0, 0), NoLocation, Location(1, 1)],
            grammar := RuleAB.grammar + [Production(2, [Symbol(NonTerminal, 1), Symbol(Terminal, 0)], "", 0, TokenAssoc, 1, Npos)])

  lemma AugmentAB()
    ensures Augment(RuleAB.(start := "b"), "b") == Returned(AugmentedAB)
  {
    PushAcceptAB();
    var x := PushProduction(RuleAB.(start := "b"), Accept, "b", [SymbolLexeme("b")]).value;
    assert Insert(x.terminals, "$") == (["$"], 0);
    assert x.grammar[..1] == RuleAB.grammar;
    assert x.terminals == ["$"] && "$" in x.terminals;
    assert [Symbol(NonTerminal, 1)] + [Symbol(Terminal, 0)] == [Symbol(NonTerminal, 1), Symbol(Terminal, 0)];
    var last := x.grammar[1];
    assert last == Production(2, [Symbol(NonTerminal, 1)], "", 0, TokenAssoc, 1, Npos);
    var y := x.(terminals := ["$"], start := Accept,
                grammar := x.grammar[..1] + [last.(rhs := last.rhs + [Symbol(Terminal, 0)])]);
    assert y == AugmentedAB;
  }

  lemma ValidateAB()
    ensures Validate(RuleAB.(start := "b")) == Threw(NoProductions(["a", "b", Accept], 1))
  {
    var r := RuleAB.(start := "b");
    assert "b"[0] != "a"[0];
    assert StartRule(r) == ("b", 1);
    AugmentAB();
    var locs := AugmentedAB.ntLocations;
    assert FirstMissing(locs) == Some(1) by {
      assert locs[..2][..1] == [Location(0, 0)];
      assert FirstMissing(locs[..2][..1]) == None;
      assert FirstMissing(locs[..2]) == Some(1);
    }
    assert CheckProductions(AugmentedAB) == Threw(NoProductions(["a", "b", Accept], 1));
  }

  /** `push("a", "b")` and `start("b")`: as written `validate()` crashes; corrected, it adds
      the `$accept` rule and reports that `b` has no productions. */
  lemma StartWithoutProductions()
    ensures Push(New(), "a", "b", [SymbolLexeme("b")]) == Returned((RuleAB, 0))
    ensures SetStart(RuleAB, "b") == Returned(RuleAB.(start := "b"))
    ensures ValidateAsWritten(RuleAB.(start := "b")) == Crashed
    ensures Validate(RuleAB.(start := "b")) == Threw(NoProductions(["a", "b", Accept], 1))
    ensures NameOf(["a", "b", Accept], 1) == "b"
  {
    PushRuleAB();
    var r := RuleAB.(start := "b");
    assert ValidName("b") by { assert CStr("b") == "b"; }
    assert "b"[0] != "a"[0];
    assert StartRule(r) == ("b", 1);
    ValidateAsWrittenCrashes(r);
    ValidateAB();
  }
}
