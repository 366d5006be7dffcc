/** `basic_rules` of the newest generation: the grammar registry. Token directives give
    terminals precedence and associativity, `push` parses a rule's EBNF right-hand side with
    the bison EBNF tables, rewriting optional, repeated and bracketed parts into generated
    rules, `push_production` turns plain alternatives into productions, and `validate`
    checks the grammar and augments it with `$accept`. Ids are `uint16_t`. */
module Rules {
  import opened Wrappers
  import opened ParserStateMachine
  import opened TokenStream
  import opened Lookup
  import opened ProductionChains
  import opened Grammar
  import opened EbnfParse
  import Decimal

  /** `id_type` is `uint16_t`: a symbol's id is its registration position cut to 16 bits. */
  const IdLimit: nat := 0x1_0000

  function Id(pos: int): (id: nat)
    ensures id < IdLimit
    ensures 0 <= pos < IdLimit ==> id == pos
  {
    pos % IdLimit
  }

  /** `rule_flags::enable_captures`. */
  const EnableCaptures: nat := 1

  /** The text `std::length_error` carries when a vector cannot grow any further. */
  const LengthError: string := "vector::_M_realloc_insert"


  datatype Rules = Rules(
    flags: nat,
    nextPrecedence: nat,
    terminals: seq<string>,          // `_terminals`, by id
    tokensInfo: seq<TokenInfo>,
    nonTerminals: seq<string>,       // `_non_terminals`, by id
    ntLocations: seq<Location>,
    newRuleIds: map<string, nat>,    // per-lhs counter for generated rule names
    generatedRules: set<string>,
    start: string,
    grammar: seq<Production>,
    captures: seq<CaptureRow>)

  /** What every public operation keeps: `$` is terminal 0, names are registered once, the
      alternatives of each non-terminal are chained exactly, and capture blocks are laid
      out back to back. */
  predicate Wf(r: Rules) {
    && |r.terminals| > 0 && r.terminals[0] == "$"
    && Distinct(r.terminals) && Distinct(r.nonTerminals)
    && ChainsOk(Links(r.grammar), r.ntLocations)
    && Contiguous(r.captures)
  }

  /** The constructor: only `$` is registered, as terminal 0 with default information. */
  function New(flags: nat): (r: Rules)
    ensures Wf(r)
    ensures r.terminals == ["$"] && r.tokensInfo == [DefaultInfo] && r.nextPrecedence == 1
    ensures r.nonTerminals == [] && r.grammar == [] && r.start == "" && r.captures == []
  {
    Rules(flags, 1, ["$"], [DefaultInfo], [], [], map[], {}, "", [], [])
  }

  /** `clear()`: back to a freshly constructed registry, flags included. */
  function Clear(r: Rules): (c: Rules)
    ensures c == New(0)
  {
    Rules(0, 1, ["$"], EnsureInfo([], 0), [], [], map[], {}, "", [], [])
  }

  function SetFlags(r: Rules, flags: nat): (s: Rules)
    ensures s == r.(flags := flags)
  {
    r.(flags := flags)
  }

  // ---- names ----

  /** `validate(name)`: every character before the terminating NUL is a name character;
      the empty name passes. */
  predicate ValidName(name: string) {
    forall i :: 0 <= i < |CStr(name)| ==> NameChar(CStr(name)[i])
  }

  function InvalidName(name: string): string {
    "Invalid name '" + CStr(name) + "'."
  }

  /** The id a name table gives the name at position `pos`. */
  function IdAt(names: seq<string>, s: string): nat
    requires s in names
  {
    Id(IndexOf(names, s))
  }

  /** `insert_terminal`. */
  function InsertTerminal(r: Rules, s: string): (o: (Rules, nat))
    ensures o.0 == r.(terminals := Insert(r.terminals, s).0)
    ensures s in o.0.terminals && o.1 == IdAt(o.0.terminals, s)
  {
    var (ts, pos) := Insert(r.terminals, s);
    (r.(terminals := ts), Id(pos))
  }

  /** All names a table gives the id `id`, in position order. */
  function WithId(names: seq<string>, id: nat): (m: seq<string>)
    ensures forall x :: x in m <==> exists p :: 0 <= p < |names| && Id(p) == id && names[p] == x
    decreases |names|
  {
    if |names| == 0 then []
    else
      var p := |names| - 1;
      var m := WithId(names[..p], id) + (if Id(p) == id then [names[p]] else []);
      assert forall q :: 0 <= q < p ==> names[..p][q] == names[q];
      m
  }

  /** `name_from_token_id`/`name_from_nt_id`: the first name in map order with that id, or
      the empty string. */
  function NameFromId(names: seq<string>, id: nat): (n: string)
    ensures n == "" || exists p :: 0 <= p < |names| && Id(p) == id && names[p] == n
  {
    var m := WithId(names, id);
    if |m| == 0 then "" else Least(m)
  }

  /** While there are no more than 2^16 names, the lookup inverts the numbering. */
  lemma {:induction false} WithIdSmall(names: seq<string>, id: nat)
    requires |names| <= IdLimit
    ensures WithId(names, id) == if id < |names| then [names[id]] else []
    decreases |names|
  {
    if |names| > 0 {
      WithIdSmall(names[..|names| - 1], id);
      assert names[..|names| - 1][..] == names[..|names| - 1];
      if id < |names| - 1 {
        assert names[..|names| - 1][id] == names[id];
      }
    }
  }

  lemma NameFromIdInverse(names: seq<string>, id: nat)
    requires |names| <= IdLimit
    ensures id < |names| ==> NameFromId(names, id) == names[id]
    ensures id >= |names| ==> NameFromId(names, id) == ""
  {
    WithIdSmall(names, id);
    if id < |names| {
      StrLessIrreflexive(names[id]);
    }
  }

  /** `token_id`. */
  function TokenId(r: Rules, name: string): (o: Result<nat>)
    ensures o.Success? <==> name in r.terminals
    ensures o.Success? ==> o.value < IdLimit && r.terminals[IndexOf(r.terminals, name)] == name
    ensures o.Failure? ==> o.error == "Unknown token \"" + CStr(name) + "\"."
  {
    if name in r.terminals then Success(IdAt(r.terminals, name))
    else Failure("Unknown token \"" + CStr(name) + "\".")
  }

  /** The token information a terminal id reads through `info(id)`: default when absent. */
  function InfoOf(r: Rules, id: nat): TokenInfo {
    if id < |r.tokensInfo| then r.tokensInfo[id] else DefaultInfo
  }

  // ---- token directives ----

  /** The name a token directive reads from a lexeme: its token lexer knows only TERMINAL
      and IDENTIFIER. */
  function DeclaredName(l: Lexeme): Option<string> {
    match l
    case Identifier(n) => Some(n)
    case Literal(t) => Some(t)
    case _ => None
  }

  /** Register `name` as a terminal and give it `info`. */
  function SetInfo(r: Rules, name: string, info: TokenInfo): (s: Rules)
    ensures s.terminals == Insert(r.terminals, name).0
    ensures InfoOf(s, IdAt(s.terminals, name)) == info
    ensures s == r.(terminals := s.terminals, tokensInfo := s.tokensInfo)
  {
    var (r1, id) := InsertTerminal(r, name);
    r1.(tokensInfo := EnsureInfo(r.tokensInfo, id)[id := info])
  }

  /** The private `token(iter, precedence, associativity, func)`. */
  function Declare(r: Rules, names: seq<Lexeme>, info: TokenInfo, func: string): (o: Outcome<Rules>)
    ensures o.Returned? || o.Threw?
    ensures o.Threw? <==> exists i :: 0 <= i < |names| && DeclaredName(names[i]).None?
    ensures o.Threw? ==> o.error == "Unrecognised char in " + func + "()."
    ensures o.Returned? ==> o.value == r.(terminals := o.value.terminals, tokensInfo := o.value.tokensInfo)
    ensures o.Returned? ==> r.terminals <= o.value.terminals
    decreases |names|
  {
    if |names| == 0 then Returned(r)
    else
      match DeclaredName(names[0])
      case None => Threw("Unrecognised char in " + func + "().")
      case Some(n) =>
        var o := Declare(SetInfo(r, n, info), names[1..], info, func);
        assert forall i :: 1 <= i < |names| ==> names[1..][i - 1] == names[i];
        o
  }

  function DeclareToken(r: Rules, names: seq<Lexeme>): Outcome<Rules> {
    Declare(r, names, TokenInfo(0, TokenAssoc), "token")
  }

  /** `left`, `right`, `nonassoc` and `precedence` share one new precedence level. */
  function DeclareLevel(r: Rules, names: seq<Lexeme>, assoc: Assoc, func: string): (o: Outcome<Rules>)
    ensures o.Returned? ==> o.value.nextPrecedence == r.nextPrecedence + 1
  {
    var r1 :- Declare(r, names, TokenInfo(r.nextPrecedence, assoc), func);
    Returned(r1.(nextPrecedence := r.nextPrecedence + 1))
  }

  function DeclareLeft(r: Rules, names: seq<Lexeme>): Outcome<Rules> {
    DeclareLevel(r, names, LeftAssoc, "left")
  }

  function DeclareRight(r: Rules, names: seq<Lexeme>): Outcome<Rules> {
    DeclareLevel(r, names, RightAssoc, "right")
  }

  function DeclareNonAssoc(r: Rules, names: seq<Lexeme>): Outcome<Rules> {
    DeclareLevel(r, names, NonAssoc, "nonassoc")
  }

  function DeclarePrecedence(r: Rules, names: seq<Lexeme>): Outcome<Rules> {
    DeclareLevel(r, names, PrecedenceAssoc, "precedence")
  }

  /** Giving one name information leaves every other terminal's information alone, as long
      as ids do not wrap. */
  lemma SetInfoKeepsOthers(r: Rules, name: string, info: TokenInfo, other: string)
    requires Distinct(r.terminals) && |r.terminals| < IdLimit
    requires other in r.terminals && other != name
    ensures other in SetInfo(r, name, info).terminals
    ensures InfoOf(SetInfo(r, name, info), IdAt(SetInfo(r, name, info).terminals, other)) ==
            InfoOf(r, IdAt(r.terminals, other))
  {
    var s := SetInfo(r, name, info);
    var ts := s.terminals;
    var p := IndexOf(r.terminals, other);
    assert ts[p] == other;
    IndexOfDistinct(ts, p);
    IndexOfDistinct(r.terminals, p);
    var q := IndexOf(ts, name);
    assert q != p;
  }

  /** Every token a directive names ends up a terminal with the directive's information,
      and every other terminal keeps its own. */
  lemma DeclareSetsInfo(r: Rules, names: seq<Lexeme>, info: TokenInfo, func: string)
    requires Distinct(r.terminals) && |r.terminals| + |names| <= IdLimit
    ensures Declare(r, names, info, func).Returned? ==>
      var s := Declare(r, names, info, func).value;
      Distinct(s.terminals) && |s.terminals| <= |r.terminals| + |names| &&
      (forall i :: 0 <= i < |names| ==>
         DeclaredName(names[i]).value in s.terminals &&
         InfoOf(s, IdAt(s.terminals, DeclaredName(names[i]).value)) == info) &&
      (forall t :: t in r.terminals && (forall i :: 0 <= i < |names| ==> DeclaredName(names[i]) != Some(t)) ==>
         InfoOf(s, IdAt(s.terminals, t)) == InfoOf(r, IdAt(r.terminals, t)))
  {
    DeclareKeepsDistinct(r, names, info, func);
    DeclareSetsNamed(r, names, info, func);
    DeclareKeepsOthers(r, names, info, func);
  }

  /** A directive keeps the terminal names distinct and adds at most one per name. */
  lemma {:induction false} DeclareKeepsDistinct(r: Rules, names: seq<Lexeme>, info: TokenInfo, func: string)
    requires Distinct(r.terminals)
    ensures Declare(r, names, info, func).Returned? ==>
      var s := Declare(r, names, info, func).value;
      Distinct(s.terminals) && |s.terminals| <= |r.terminals| + |names|
    decreases |names|
  {
    if |names| > 0 && DeclaredName(names[0]).Some? {
      var r1 := SetInfo(r, DeclaredName(names[0]).value, info);
      DeclareKeepsDistinct(r1, names[1..], info, func);
      assert Declare(r, names, info, func) == Declare(r1, names[1..], info, func);
    }
  }

  /** Every name a directive declares ends up a terminal with the directive's information. */
  lemma {:induction false} DeclareSetsNamed(r: Rules, names: seq<Lexeme>, info: TokenInfo, func: string)
    requires Distinct(r.terminals) && |r.terminals| + |names| <= IdLimit
    ensures Declare(r, names, info, func).Returned? ==>
      var s := Declare(r, names, info, func).value;
      forall i :: 0 <= i < |names| ==>
        DeclaredName(names[i]).value in s.terminals &&
        InfoOf(s, IdAt(s.terminals, DeclaredName(names[i]).value)) == info
    decreases |names|
  {
    if |names| > 0 && DeclaredName(names[0]).Some? {
      var n := DeclaredName(names[0]).value;
      var r1 := SetInfo(r, n, info);
      var rest := names[1..];
      DeclareSetsNamed(r1, rest, info, func);
      var o := Declare(r, names, info, func);
      assert o == Declare(r1, rest, info, func);
      if o.Returned? {
        assert forall i :: 1 <= i < |names| ==> rest[i - 1] == names[i];
        if forall i :: 0 <= i < |rest| ==> DeclaredName(rest[i]) != Some(n) {
          assert n in r1.terminals;
          DeclareKeepsOthers(r1, rest, info, func);
        }
      }
    }
  }

  /** A terminal a directive does not name keeps its information. */
  lemma {:induction false} DeclareKeepsOthers(r: Rules, names: seq<Lexeme>, info: TokenInfo, func: string)
    requires Distinct(r.terminals) && |r.terminals| + |names| <= IdLimit
    ensures Declare(r, names, info, func).Returned? ==>
      var s := Declare(r, names, info, func).value;
      forall t :: t in r.terminals && (forall i :: 0 <= i < |names| ==> DeclaredName(names[i]) != Some(t)) ==>
        InfoOf(s, IdAt(s.terminals, t)) == InfoOf(r, IdAt(r.terminals, t))
    decreases |names|
  {
    if |names| > 0 && DeclaredName(names[0]).Some? {
      var n := DeclaredName(names[0]).value;
      var r1 := SetInfo(r, n, info);
      var rest := names[1..];
      DeclareKeepsOthers(r1, rest, info, func);
      var o := Declare(r, names, info, func);
      assert o == Declare(r1, rest, info, func);
      if o.Returned? {
        var s := o.value;
        forall t | t in r.terminals && (forall i :: 0 <= i < |names| ==> DeclaredName(names[i]) != Some(t))
          ensures InfoOf(s, IdAt(s.terminals, t)) == InfoOf(r, IdAt(r.terminals, t))
        {
          assert DeclaredName(names[0]) != Some(t);
          SetInfoKeepsOthers(r, n, info, t);
          assert forall i :: 0 <= i < |rest| ==> rest[i] == names[i + 1];
        }
      }
    }
  }

  // ---- start symbol ----

  /** `start(name)`. */
  function SetStart(r: Rules, name: string): (o: Outcome<Rules>)
    ensures o.Returned? <==> ValidName(name)
    ensures o.Returned? ==> o.value == r.(start := name)
    ensures o.Threw? ==> o.error == InvalidName(name)
  {
    if ValidName(name) then Returned(r.(start := name)) else Threw(InvalidName(name))
  }

  /** `start()`: npos when no start is set; reading an unregistered start dereferences the
      map's end. */
  function StartId(r: Rules): (o: Behaviour<nat>)
    ensures r.start == "" ==> o == Defined(Npos)
    ensures r.start != "" ==> (o.Defined? <==> r.start in r.nonTerminals)
    // the id names the start back, while ids do not wrap
    ensures (o.Defined? && r.start != "" && Distinct(r.nonTerminals) && |r.nonTerminals| <= IdLimit) ==>
      NameFromId(r.nonTerminals, o.value) == r.start
  {
    if r.start == "" then Defined(Npos)
    else if r.start in r.nonTerminals then
      var p := IndexOf(r.nonTerminals, r.start);
      if |r.nonTerminals| <= IdLimit then
        NameFromIdInverse(r.nonTerminals, p);
        Defined(IdAt(r.nonTerminals, r.start))
      else Defined(IdAt(r.nonTerminals, r.start))
    else Undefined
  }

  // ---- captures ----

  /** `resize_captures`: one block per production plus the one being built; the blocks from
      the last old one on are laid out again back to back. */
  function ResizeCaptures(cs: seq<CaptureRow>, size: nat): (r: seq<CaptureRow>)
    ensures |r| == size + 1
    ensures forall i :: 0 <= i < |r| && i < |cs| ==> r[i].pairs == cs[i].pairs
    ensures forall i :: |cs| <= i < |r| ==> r[i].pairs == []
    ensures forall i :: 0 <= i < |r| && i + 1 < |cs| ==> r[i] == cs[i]
    ensures Contiguous(cs) ==> Contiguous(r)
  {
    var resized := if size + 1 <= |cs| then cs[..size + 1] else cs + seq(size + 1 - |cs|, _ => CaptureRow(0, []));
    if |cs| == 0 then resized else Relayout(resized, |cs| - 1)
  }

  /** The loop of `resize_captures` from block `i` on. */
  function Relayout(cs: seq<CaptureRow>, i: nat): (r: seq<CaptureRow>)
    ensures |r| == |cs|
    ensures forall k :: 0 <= k < |cs| ==> r[k].pairs == cs[k].pairs
    ensures forall k :: 0 <= k <= i && k < |cs| ==> r[k] == cs[k]
    ensures forall k :: i <= k < |cs| - 1 ==> r[k + 1].first == r[k].first + |r[k].pairs|
    ensures (forall k :: 0 <= k < i && k < |cs| - 1 ==> cs[k + 1].first == cs[k].first + |cs[k].pairs|) ==> Contiguous(r)
    decreases |cs| - i
  {
    if i + 1 >= |cs| then cs
    else Relayout(cs[i + 1 := cs[i + 1].(first := cs[i].first + |cs[i].pairs|)], i + 1)
  }

  // ---- push_production ----

  /** The state of `push_production`'s loop: the registry, the production being built, the
      open-bracket count, the bracket counter of this production and the open brackets. */
  datatype Building = Building(
    rules: Rules, prod: Production, brackets: int, currBracket: int, bracketStack: seq<int>)

  /** What the loop keeps: the registry invariant with the production being built counted as
      the grammar's next entry. */
  predicate BuildingOk(b: Building) {
    && |b.rules.terminals| > 0 && b.rules.terminals[0] == "$"
    && Distinct(b.rules.terminals) && Distinct(b.rules.nonTerminals)
    && ChainsOk(Links(b.rules.grammar + [b.prod]), b.rules.ntLocations)
    && Contiguous(b.rules.captures)
    && |b.rules.grammar| + 1 < Npos
  }

  /** What the loop never takes back: registered names, and the lhs and rhs of the
      productions already in the grammar. */
  predicate Extends(r: Rules, s: Rules) {
    && r.terminals <= s.terminals && r.nonTerminals <= s.nonTerminals
    && |r.grammar| <= |s.grammar|
    && (forall k :: 0 <= k < |r.grammar| ==> s.grammar[k].lhs == r.grammar[k].lhs && s.grammar[k].rhs == r.grammar[k].rhs)
    && r.start == s.start && r.flags == s.flags && r.nextPrecedence == s.nextPrecedence
    && r.generatedRules <= s.generatedRules
  }

  lemma ExtendsTransitive(a: Rules, b: Rules, c: Rules)
    requires Extends(a, b) && Extends(b, c)
    ensures Extends(a, c)
  {
  }

  /** The token `k` places into the reduced rule's rhs, read from the token vector. */
  function RhsToken(e: Ebnf, c: TokenConfig, k: nat): (o: Outcome<Token>)
    ensures o.Returned? || o.Crashed?
  {
    var rule := c.r.entry.param;
    if rule >= |e.tables.r2| then Crashed
    else
      var idx := |c.productions| - e.tables.r2[rule] + k;
      if 0 <= idx < |c.productions| then Returned(c.productions[idx]) else Crashed
  }

  /** The text `token::str()` gives for a token of the rule text. */
  function TokenText(ls: seq<Lexeme>, t: Token): string {
    Texts(Span(ls, t))
  }

  /** The `'('` case: open a capture on the next rhs position. */
  function OpenBracket(b: Building): (o: Outcome<Building>)
    ensures o.Returned?
    ensures BuildingOk(b) ==> BuildingOk(o.value)
    ensures Extends(b.rules, o.value.rules) && o.value.prod == b.prod
    ensures o.value.rules.grammar == b.rules.grammar && o.value.rules.ntLocations == b.rules.ntLocations
    ensures o.value.brackets == b.brackets + 1 && |o.value.bracketStack| == |b.bracketStack| + 1
  {
    var r := b.rules;
    var grow := |r.captures| <= |r.grammar|;
    var cs := if grow then ResizeCaptures(r.captures, |r.grammar|) else r.captures;
    var curr := (if grow then 0 else b.currBracket) + 1;
    var last := cs[|cs| - 1];
    var cs1 := cs[|cs| - 1 := last.(pairs := last.pairs + [(Id(|b.prod.rhs|), 0)])];
    assert Contiguous(cs) ==> Contiguous(cs1) by {
      assert forall i :: 0 <= i < |cs1| - 1 ==> cs1[i] == cs[i];
      assert forall i :: 0 <= i < |cs1| ==> cs1[i].first == cs[i].first;
    }
    Returned(b.(rules := r.(captures := cs1), brackets := b.brackets + 1, currBracket := curr,
                bracketStack := b.bracketStack + [curr]))
  }

  /** The `')'` case: close the innermost open capture on the last rhs position. */
  function CloseBracket(b: Building, lhs: string): (o: Outcome<Building>)
    ensures o.Returned? || o.Threw? || o.Crashed?
    ensures o.Threw? <==> b.brackets < 1
    ensures o.Threw? ==> o.error == "Close bracket without open bracket in rule '" + CStr(lhs) + "'."
    ensures o.Returned? && BuildingOk(b) ==> BuildingOk(o.value)
    ensures o.Returned? ==> Extends(b.rules, o.value.rules) && o.value.prod == b.prod
    ensures o.Returned? ==> o.value.rules.grammar == b.rules.grammar && o.value.rules.ntLocations == b.rules.ntLocations
  {
    var r := b.rules;
    var brackets := b.brackets - 1;
    if brackets < 0 then Threw("Close bracket without open bracket in rule '" + CStr(lhs) + "'.")
    else if |b.bracketStack| == 0 || |r.captures| == 0 then Crashed
    else
      var k := b.bracketStack[|b.bracketStack| - 1] - 1;
      var last := r.captures[|r.captures| - 1];
      if k < 0 || k >= |last.pairs| then Crashed
      else
        var pairs := last.pairs[k := (last.pairs[k].0, Id(|b.prod.rhs| - 1))];
        var cs := r.captures[|r.captures| - 1 := last.(pairs := pairs)];
        assert Contiguous(r.captures) ==> Contiguous(cs) by {
          assert forall i :: 0 <= i < |cs| ==> |cs[i].pairs| == |r.captures[i].pairs| && cs[i].first == r.captures[i].first;
        }
        Returned(b.(rules := r.(captures := cs), brackets := brackets,
                    bracketStack := b.bracketStack[..|b.bracketStack| - 1]))
  }

  /** The `'|'` case: the production being built joins the grammar and the next alternative
      of the same lhs is started. */
  function NextAlternative(b: Building): (o: Outcome<Building>)
    ensures o.Returned? || o.Threw?
    ensures o.Returned? && BuildingOk(b) ==> BuildingOk(o.value)
    ensures o.Returned? ==> Extends(b.rules, o.value.rules)
    ensures o.Returned? ==> o.value.rules.grammar == b.rules.grammar + [b.prod.(nextLhs := |b.rules.grammar| + 1)]
    ensures o.Returned? ==> o.value.prod == Fresh(b.prod.lhs, |b.rules.grammar| + 1)
  {
    var r := b.rules;
    if |r.grammar| + 3 >= Npos then Threw(LengthError)
    else
      var (g, locs, p) := CloseAlternative(r.grammar, r.ntLocations, b.prod);
      var b1 := b.(rules := r.(grammar := g, ntLocations := locs), prod := p);
      assert BuildingOk(b) ==> BuildingOk(b1) by {
        if BuildingOk(b) {
          CloseAlternativeIsOpen(r.grammar, r.ntLocations, b.prod);
        }
      }
      Returned(b1)
  }

  /** Append a symbol to the production being built, taking over a terminal's precedence
      and associativity when it has a precedence. */
  function AddTerminalSymbol(b: Building, id: nat): (s: Building)
    ensures s.rules == b.rules.(tokensInfo := s.rules.tokensInfo)
    ensures s.prod.rhs == b.prod.rhs + [Symbol(Terminal, id)] && LinkOf(s.prod) == LinkOf(b.prod)
    ensures s.prod.prec == b.prod.prec
    ensures InfoOf(b.rules, id).precedence != 0 ==>
      s.prod.precedence == InfoOf(b.rules, id).precedence && s.prod.assoc == InfoOf(b.rules, id).assoc
    ensures InfoOf(b.rules, id).precedence == 0 ==>
      s.prod.precedence == b.prod.precedence && s.prod.assoc == b.prod.assoc
  {
    var infos := EnsureInfo(b.rules.tokensInfo, id);
    var info := infos[id];
    var p := if info.precedence != 0 then b.prod.(precedence := info.precedence, assoc := info.assoc) else b.prod;
    b.(rules := b.rules.(tokensInfo := infos), prod := p.(rhs := p.rhs + [Symbol(Terminal, id)]))
  }

  /** `rhs: IDENTIFIER`: a registered terminal, or else a non-terminal (registered now if
      new, with a location). */
  function AddIdentifier(b: Building, name: string): (s: Building)
    ensures name in b.rules.terminals ==> s == AddTerminalSymbol(b, IdAt(b.rules.terminals, name))
    ensures name !in b.rules.terminals ==>
      name in s.rules.nonTerminals && s.prod.rhs == b.prod.rhs + [Symbol(NonTerminal, IdAt(s.rules.nonTerminals, name))]
    ensures BuildingOk(b) ==> BuildingOk(s)
    ensures Extends(b.rules, s.rules) && s.rules.grammar == b.rules.grammar && LinkOf(s.prod) == LinkOf(b.prod)
  {
    var r := b.rules;
    if name in r.terminals then
      var s := AddTerminalSymbol(b, IdAt(r.terminals, name));
      LinksIgnoreContents(r.grammar, b.prod, s.prod);
      s
    else
      var (nts, pos) := Insert(r.nonTerminals, name);
      var locs := Grow(r.ntLocations, Id(pos));
      var s := b.(rules := r.(nonTerminals := nts, ntLocations := locs),
                  prod := b.prod.(rhs := b.prod.rhs + [Symbol(NonTerminal, Id(pos))]));
      assert BuildingOk(b) ==> BuildingOk(s) by {
        if BuildingOk(b) {
          GrowKeepsChains(Links(r.grammar + [b.prod]), r.ntLocations, Id(pos));
          LinksIgnoreContents(r.grammar, b.prod, s.prod);
        }
      }
      s
  }

  /** `rhs: TERMINAL`: the quoted token is registered as a terminal if new. */
  function AddLiteral(b: Building, text: string): (s: Building)
    ensures text in s.rules.terminals
    ensures s.prod.rhs == b.prod.rhs + [Symbol(Terminal, IdAt(s.rules.terminals, text))]
    ensures BuildingOk(b) ==> BuildingOk(s)
    ensures Extends(b.rules, s.rules) && s.rules.grammar == b.rules.grammar && LinkOf(s.prod) == LinkOf(b.prod)
  {
    var (r1, id) := InsertTerminal(b.rules, text);
    var s := AddTerminalSymbol(b.(rules := r1), id);
    assert BuildingOk(b) ==> BuildingOk(s) by {
      LinksIgnoreContents(b.rules.grammar, b.prod, s.prod);
    }
    s
  }

  /** `opt_prec: PREC IDENTIFIER | PREC TERMINAL`: the named token must be a terminal; its
      precedence and associativity replace the production's, unconditionally. */
  function SetPrec(b: Building, text: string): (o: Outcome<Building>)
    ensures o.Returned? || o.Threw?
    ensures o.Threw? <==> text !in b.rules.terminals
    ensures o.Threw? ==> o.error == "Unknown token \"" + CStr(text) + "\"."
    ensures o.Returned? ==>
      var info := InfoOf(b.rules, IdAt(b.rules.terminals, text));
      o.value.prod == b.prod.(precedence := info.precedence, assoc := info.assoc, prec := text)
    ensures o.Returned? && BuildingOk(b) ==> BuildingOk(o.value)
    ensures o.Returned? ==> Extends(b.rules, o.value.rules) && o.value.rules.grammar == b.rules.grammar
  {
    var id :- (match TokenId(b.rules, text)
               case Failure(m) => Threw(m)
               case Success(id) => Returned(id));
    var infos := EnsureInfo(b.rules.tokensInfo, id);
    var info := infos[id];
    var s := b.(rules := b.rules.(tokensInfo := infos),
                prod := b.prod.(precedence := info.precedence, assoc := info.assoc, prec := text));
    assert BuildingOk(b) ==> BuildingOk(s) by {
      LinksIgnoreContents(b.rules.grammar, b.prod, s.prod);
    }
    Returned(s)
  }

  /** One pass of `push_production`'s loop body before the table step. */
  function BuildAction(e: Ebnf, ls: seq<Lexeme>, lhs: string, b: Building, c: TokenConfig): (o: Outcome<Building>)
    ensures o.Returned? || o.Threw? || o.Crashed?
    ensures o.Returned? && BuildingOk(b) ==> BuildingOk(o.value)
    ensures o.Returned? ==> Extends(b.rules, o.value.rules) && o.value.prod.lhs == b.prod.lhs
    ensures o.Returned? ==> forall k :: |b.rules.grammar| <= k < |o.value.rules.grammar| ==>
      o.value.rules.grammar[k].lhs == b.prod.lhs
  {
    match c.r.entry.action
    case Shift =>
      var id := Current(c.lx).id;
      if id == '(' as nat then OpenBracket(b)
      else if id == ')' as nat then CloseBracket(b, lhs)
      else if id == '|' as nat then NextAlternative(b)
      else Returned(b)
    case Reduce =>
      (match RoleOf(e, c.r.entry.param)
       case IdentifierRule =>
         var t :- RhsToken(e, c, 0);
         Returned(AddIdentifier(b, TokenText(ls, t)))
       case TerminalRule =>
         var t :- RhsToken(e, c, 0);
         Returned(AddLiteral(b, TokenText(ls, t)))
       case PrecIdent =>
         var t :- RhsToken(e, c, 1);
         SetPrec(b, TokenText(ls, t))
       case PrecTerm =>
         var t :- RhsToken(e, c, 1);
         SetPrec(b, TokenText(ls, t))
       case _ => Returned(b))
    case _ => Returned(b)
  }

  /** The loop body as a value, so that the loop and the proofs about it share it. */
  function BuildStep(e: Ebnf, ls: seq<Lexeme>, lhs: string): (Building, TokenConfig) -> Outcome<Building> {
    (b, c) => BuildAction(e, ls, lhs, b, c)
  }

  /** `bison_next` on the first lexeme, with undefined behaviour as a crash. */
  function Started(e: Ebnf, ls: seq<Lexeme>): (o: Outcome<TokenConfig>)
    ensures o.Returned? || o.Crashed?
  {
    match Begin(e, ls)
    case Undefined => Crashed
    case Defined(c) => Returned(c)
  }

  /** The loop's progress from the registry `r0`: nothing is taken back, and the productions
      it adds, like the one being built, all have the lhs `lhsId`. */
  predicate Grows(r0: Rules, lhsId: nat, b: Building) {
    && Extends(r0, b.rules) && b.prod.lhs == lhsId
    && forall k :: |r0.grammar| <= k < |b.rules.grammar| ==> b.rules.grammar[k].lhs == lhsId
  }

  function GrowsFrom(r0: Rules, lhsId: nat): Building -> bool {
    b => Grows(r0, lhsId, b)
  }

  function BuildingOkay(): Building -> bool {
    b => BuildingOk(b)
  }

  /** Every pass of the loop body keeps both the registry invariant and the progress. */
  lemma BuildStepKeeps(e: Ebnf, ls: seq<Lexeme>, lhs: string, r0: Rules, lhsId: nat)
    ensures forall b, c :: GrowsFrom(r0, lhsId)(b) && BuildStep(e, ls, lhs)(b, c).Returned? ==>
      GrowsFrom(r0, lhsId)(BuildStep(e, ls, lhs)(b, c).value)
    ensures forall b, c :: BuildingOkay()(b) && BuildStep(e, ls, lhs)(b, c).Returned? ==>
      BuildingOkay()(BuildStep(e, ls, lhs)(b, c).value)
  {
    forall b, c | Grows(r0, lhsId, b) && BuildAction(e, ls, lhs, b, c).Returned?
      ensures Grows(r0, lhsId, BuildAction(e, ls, lhs, b, c).value)
    {
      ExtendsTransitive(r0, b.rules, BuildAction(e, ls, lhs, b, c).value.rules);
    }
  }

  /** The production being built joins the grammar once the loop ends. */
  function Finish(b: Building): (r: Rules)
    ensures r.grammar == b.rules.grammar + [b.prod]
  {
    b.rules.(grammar := b.rules.grammar + [b.prod])
  }

  lemma FinishGrows(r0: Rules, lhsId: nat, b: Building)
    requires Grows(r0, lhsId, b)
    ensures Extends(r0, Finish(b)) && |Finish(b).grammar| > |r0.grammar|
    ensures forall k :: |r0.grammar| <= k < |Finish(b).grammar| ==> Finish(b).grammar[k].lhs == lhsId
  {
  }

  lemma FinishWf(b: Building)
    requires BuildingOk(b)
    ensures Wf(Finish(b))
  {
  }

  /** The production started for `lhs` before the loop, in the registry with `lhs` and its
      location registered; `None` where `push_production` fails before the loop. */
  function Opened(r: Rules, lhs: string): (o: Option<Building>)
    ensures o.Some? ==> lhs in o.value.rules.nonTerminals && o.value.rules.nonTerminals == Insert(r.nonTerminals, lhs).0
    ensures o.Some? ==> Grows(r, IdAt(o.value.rules.nonTerminals, lhs), o.value)
    ensures o.Some? ==> |o.value.rules.grammar| == |r.grammar|
    ensures o.Some? && Wf(r) ==> BuildingOk(o.value)
    ensures o.Some? ==> o.value.prod.rhs == []
  {
    var (nts, pos) := Insert(r.nonTerminals, lhs);
    var lhsId := Id(pos);
    var locs := Grow(r.ntLocations, lhsId);
    if |r.grammar| + 2 >= Npos then None
    else if locs[lhsId].last != Npos && locs[lhsId].last >= |r.grammar| then None
    else
      var (g, locs1, p) := OpenProduction(r.grammar, locs, lhsId);
      var b0 := Building(r.(nonTerminals := nts, ntLocations := locs1, grammar := g), p, 0, 0, []);
      assert Wf(r) ==> BuildingOk(b0) by {
        if Wf(r) {
          GrowKeepsChains(Links(r.grammar), r.ntLocations, lhsId);
          OpenProductionKeepsChains(r.grammar, locs, lhsId);
        }
      }
      Some(b0)
  }

  /** `push_production(lhs, rhs)`: parse one plain rhs (alternatives, symbols, `%prec` and
      capture brackets, no EBNF operators) into productions for `lhs`. The production being
      built is pushed whether the parse accepted or not. */
  function PushProduction(e: Ebnf, r: Rules, lhs: string, rhs: seq<Lexeme>, fuel: nat): (o: Outcome<Rules>)
  {
    var (nts, pos) := Insert(r.nonTerminals, lhs);
    var locs := Grow(r.ntLocations, Id(pos));
    if |r.grammar| + 2 >= Npos then Threw(LengthError)
    else
      match Opened(r, lhs)
      case None => Crashed
      case Some(b0) =>
        var c :- Started(e, rhs);
        var res :- Drive(e, c, b0, BuildStep(e, rhs, lhs), fuel);
        Returned(Finish(res.1))
  }

  /** `push_production` only adds: every production it adds has the lhs's id, at least one
      is added, and the registry invariant is kept. */
  lemma PushProductionGrows(e: Ebnf, r: Rules, lhs: string, rhs: seq<Lexeme>, fuel: nat)
    ensures var o := PushProduction(e, r, lhs, rhs, fuel);
      o.Returned? ==>
        && Extends(r, o.value) && |o.value.grammar| > |r.grammar|
        && lhs in o.value.nonTerminals
        && (forall k :: |r.grammar| <= k < |o.value.grammar| ==> o.value.grammar[k].lhs == IdAt(o.value.nonTerminals, lhs))
        && (Wf(r) ==> Wf(o.value))
  {
    PushProductionExtends(e, r, lhs, rhs, fuel);
    if Wf(r) {
      PushProductionWf(e, r, lhs, rhs, fuel);
    }
  }

  /** A pushed production only adds: it is appended under `lhs`, which is registered. */
  lemma PushProductionExtends(e: Ebnf, r: Rules, lhs: string, rhs: seq<Lexeme>, fuel: nat)
    ensures var o := PushProduction(e, r, lhs, rhs, fuel);
      o.Returned? ==>
        && Extends(r, o.value) && |o.value.grammar| > |r.grammar|
        && lhs in o.value.nonTerminals
        && (forall k :: |r.grammar| <= k < |o.value.grammar| ==> o.value.grammar[k].lhs == IdAt(o.value.nonTerminals, lhs))
  {
    var ob := Opened(r, lhs);
    if |r.grammar| + 2 < Npos && ob.Some? && Started(e, rhs).Returned? {
      var b0 := ob.value;
      var c := Started(e, rhs).value;
      var lhsId := IdAt(b0.rules.nonTerminals, lhs);
      BuildStepKeeps(e, rhs, lhs, b0.rules, lhsId);
      assert Grows(b0.rules, lhsId, b0);
      DriveKeeps(e, c, b0, BuildStep(e, rhs, lhs), fuel, GrowsFrom(b0.rules, lhsId));
      var d := Drive(e, c, b0, BuildStep(e, rhs, lhs), fuel);
      if d.Returned? {
        var b := d.value.1;
        assert PushProduction(e, r, lhs, rhs, fuel) == Returned(Finish(b));
        assert Grows(b0.rules, lhsId, b);
        FinishGrows(b0.rules, lhsId, b);
        ExtendsTransitive(r, b0.rules, Finish(b));
        IndexOfPrefix(b0.rules.nonTerminals, b.rules.nonTerminals, lhs);
        assert IdAt(Finish(b).nonTerminals, lhs) == lhsId;
      }
    }
  }

  /** A pushed production keeps the registry invariant. */
  lemma PushProductionWf(e: Ebnf, r: Rules, lhs: string, rhs: seq<Lexeme>, fuel: nat)
    requires Wf(r)
    ensures PushProduction(e, r, lhs, rhs, fuel).Returned? ==> Wf(PushProduction(e, r, lhs, rhs, fuel).value)
  {
    var ob := Opened(r, lhs);
    if |r.grammar| + 2 < Npos && ob.Some? && Started(e, rhs).Returned? {
      var b0 := ob.value;
      var c := Started(e, rhs).value;
      DriveKeeps(e, c, b0, BuildStep(e, rhs, lhs), fuel, BuildingOkay());
      var d := Drive(e, c, b0, BuildStep(e, rhs, lhs), fuel);
      if d.Returned? {
        var b := d.value.1;
        assert PushProduction(e, r, lhs, rhs, fuel) == Returned(Finish(b));
        assert BuildingOk(b);
        FinishWf(b);
      }
    }
  }

  // ---- push: the EBNF rewrite ----

  /** The state of `push`'s loop: the registry (whose generated-rule counters and names the
      loop updates), the stack of rhs texts built so far, and the generated rules to push. */
  datatype Rewrite = Rewrite(rules: Rules, stack: seq<seq<Lexeme>>, newRules: seq<(string, seq<Lexeme>)>)

  function Top(st: seq<seq<Lexeme>>): (o: Outcome<seq<Lexeme>>)
    ensures o.Returned? <==> |st| > 0
    ensures o.Returned? ==> o.value == st[|st| - 1]
    ensures o.Crashed? <==> |st| == 0
  {
    if |st| == 0 then Crashed else Returned(st[|st| - 1])
  }

  /** Pop the top and append it, after a space, to the entry below. */
  function MergeTop(st: seq<seq<Lexeme>>): (o: Outcome<seq<seq<Lexeme>>>)
    ensures o.Returned? <==> |st| >= 2
    ensures o.Returned? ==> o.value == st[..|st| - 2] + [st[|st| - 2] + st[|st| - 1]]
    ensures o.Crashed? <==> |st| < 2
  {
    if |st| < 2 then Crashed else Returned(st[..|st| - 2] + [st[|st| - 2] + st[|st| - 1]])
  }

  /** The counter `_new_rule_ids[lhs]` reads, zero for a fresh entry. */
  function Counter(r: Rules, lhs: string): nat {
    if lhs in r.newRuleIds then r.newRuleIds[lhs] else 0
  }

  /** Bump the lhs's counter and name a new generated rule `lhs_N` after it. */
  function NewRuleName(r: Rules, lhs: string): (o: (Rules, string))
    ensures o.1 == lhs + "_" + Decimal.ShowNat(Counter(r, lhs) + 1)
    ensures Counter(o.0, lhs) == Counter(r, lhs) + 1
    ensures o.0 == r.(newRuleIds := o.0.newRuleIds, generatedRules := r.generatedRules + {o.1})
  {
    var n := Counter(r, lhs) + 1;
    var name := lhs + "_" + Decimal.ShowNat(n);
    (r.(newRuleIds := r.newRuleIds[lhs := n], generatedRules := r.generatedRules + {name}), name)
  }

  /** Replace the top of the rhs stack by a reference to a new generated rule whose rhs
      `body(top, name)` computes, and queue that rule. */
  function Generate(w: Rewrite, lhs: string, body: (seq<Lexeme>, string) -> seq<Lexeme>, captured: bool)
    : (o: Outcome<Rewrite>)
    ensures o.Returned? <==> |w.stack| > 0
    ensures o.Crashed? <==> |w.stack| == 0
    ensures o.Returned? ==>
      var (r1, name) := NewRuleName(w.rules, lhs);
      && o.value.rules == r1
      && o.value.newRules == w.newRules + [(name, body(w.stack[|w.stack| - 1], name))]
      && |o.value.stack| == |w.stack| && o.value.stack[..|w.stack| - 1] == w.stack[..|w.stack| - 1]
      && o.value.stack[|w.stack| - 1] ==
           if captured then [Punct('('), Identifier(name), Punct(')')] else [Identifier(name)]
  {
    var top :- Top(w.stack);
    var (r1, name) := NewRuleName(w.rules, lhs);
    var ref := if captured then [Punct('('), Identifier(name), Punct(')')] else [Identifier(name)];
    Returned(Rewrite(r1, w.stack[|w.stack| - 1 := ref], w.newRules + [(name, body(top, name))]))
  }

  /** `[x]` and `x?`: `%empty | x`. */
  function OptionalBody(): (seq<Lexeme>, string) -> seq<Lexeme> {
    (top, name) => [EmptyKeyword, Punct('|')] + top
  }

  /** `{x}` and `x*`: `%empty | name x`. */
  function ZomBody(): (seq<Lexeme>, string) -> seq<Lexeme> {
    (top, name) => [EmptyKeyword, Punct('|'), Identifier(name)] + top
  }

  /** `{x}-` and `x+`: `x | name x`. */
  function OomBody(): (seq<Lexeme>, string) -> seq<Lexeme> {
    (top, name) => top + [Punct('|'), Identifier(name)] + top
  }

  /** `(x)`: `x` itself. */
  function BracketedBody(): (seq<Lexeme>, string) -> seq<Lexeme> {
    (top, name) => top
  }

  /** The semantic action of `push`'s loop for one table step: only reductions act. */
  function RewriteAction(e: Ebnf, ls: seq<Lexeme>, lhs: string, w: Rewrite, c: TokenConfig): (o: Outcome<Rewrite>)
    ensures o.Returned? || o.Crashed?
    ensures c.r.entry.action != Reduce ==> o == Returned(w)
    ensures o.Returned? ==> o.value.rules == w.rules.(newRuleIds := o.value.rules.newRuleIds,
                                                     generatedRules := o.value.rules.generatedRules)
    ensures o.Returned? ==> w.rules.generatedRules <= o.value.rules.generatedRules
    ensures o.Returned? ==> w.newRules <= o.value.newRules
    ensures o.Returned? ==> forall i :: |w.newRules| <= i < |o.value.newRules| ==>
      o.value.newRules[i].0 in o.value.rules.generatedRules
  {
    if c.r.entry.action != Reduce then Returned(w)
    else
      var st := w.stack;
      match RoleOf(e, c.r.entry.param)
      case RhsOr2 =>
        var bar :- RhsToken(e, c, 1);
        var top :- Top(st);
        var r := Span(ls, bar) + top;
        var rest := st[..|st| - 1];
        if |rest| == 0 then Returned(w.(stack := [r]))
        else Returned(w.(stack := rest[|rest| - 1 := rest[|rest| - 1] + r]))
      case OptList1 => Returned(w.(stack := st + [[]]))
      case OptList3 =>
        var prec :- RhsToken(e, c, 1);
        if prec.first != prec.second then
          var st1 :- MergeTop(st);
          Returned(w.(stack := st1))
        else Returned(w)
      case RhsList2 =>
        var st1 :- MergeTop(st);
        Returned(w.(stack := st1))
      case OptList2 =>
        var t :- RhsToken(e, c, 0);
        Returned(w.(stack := st + [Span(ls, t)]))
      case IdentifierRule =>
        var t :- RhsToken(e, c, 0);
        Returned(w.(stack := st + [Span(ls, t)]))
      case TerminalRule =>
        var t :- RhsToken(e, c, 0);
        Returned(w.(stack := st + [Span(ls, t)]))
      case Optional1 => Generate(w, lhs, OptionalBody(), false)
      case Optional2 => Generate(w, lhs, OptionalBody(), false)
      case Zom1 => Generate(w, lhs, ZomBody(), false)
      case Zom2 => Generate(w, lhs, ZomBody(), false)
      case Oom1 => Generate(w, lhs, OomBody(), false)
      case Oom2 => Generate(w, lhs, OomBody(), false)
      case Bracketed => Generate(w, lhs, BracketedBody(), w.rules.flags % 2 == EnableCaptures)
      case PrecIdent =>
        var t0 :- RhsToken(e, c, 0);
        var t1 :- RhsToken(e, c, 1);
        Returned(w.(stack := st + [Span(ls, t0) + Span(ls, t1)]))
      case PrecTerm =>
        var t0 :- RhsToken(e, c, 0);
        var t1 :- RhsToken(e, c, 1);
        Returned(w.(stack := st + [Span(ls, t0) + Span(ls, t1)]))
      case _ => Returned(w)
  }

  function RewriteStep(e: Ebnf, ls: seq<Lexeme>, lhs: string): (Rewrite, TokenConfig) -> Outcome<Rewrite> {
    (w, c) => RewriteAction(e, ls, lhs, w, c)
  }

  /** What the rewrite keeps relative to the registry it started from: only the generated
      rule counters and names change, names are only added, and every queued rule is
      recorded as generated. */
  predicate Rewrites(r0: Rules, w: Rewrite) {
    && w.rules == r0.(newRuleIds := w.rules.newRuleIds, generatedRules := w.rules.generatedRules)
    && r0.generatedRules <= w.rules.generatedRules
    && forall i :: 0 <= i < |w.newRules| ==> w.newRules[i].0 in w.rules.generatedRules
  }

  function RewritesFrom(r0: Rules): Rewrite -> bool {
    w => Rewrites(r0, w)
  }

  lemma RewriteStepKeeps(e: Ebnf, ls: seq<Lexeme>, lhs: string, r0: Rules)
    ensures forall w, c :: RewritesFrom(r0)(w) && RewriteStep(e, ls, lhs)(w, c).Returned? ==>
      RewritesFrom(r0)(RewriteStep(e, ls, lhs)(w, c).value)
  {
    forall w, c | Rewrites(r0, w) && RewriteAction(e, ls, lhs, w, c).Returned?
      ensures Rewrites(r0, RewriteAction(e, ls, lhs, w, c).value)
    {
      var w1 := RewriteAction(e, ls, lhs, w, c).value;
      forall i | 0 <= i < |w1.newRules| ensures w1.newRules[i].0 in w1.rules.generatedRules {
        if i < |w.newRules| {
          assert w1.newRules[i] == w.newRules[i];
        }
      }
    }
  }

  /** The generated rules, last queued first. */
  function PushGenerated(e: Ebnf, r: Rules, rules: seq<(string, seq<Lexeme>)>, fuel: nat): (o: Outcome<Rules>)
    ensures o.Returned? ==> Extends(r, o.value) && |o.value.grammar| >= |r.grammar| + |rules|
    ensures o.Returned? ==> forall i :: 0 <= i < |rules| ==> rules[i].0 in o.value.nonTerminals
    ensures o.Returned? && Wf(r) ==> Wf(o.value)
    decreases |rules|
  {
    if |rules| == 0 then Returned(r)
    else
      var (name, rhs) := rules[|rules| - 1];
      var r1 :- PushProduction(e, r, name, rhs, fuel);
      PushProductionGrows(e, r, name, rhs, fuel);
      var o := PushGenerated(e, r1, rules[..|rules| - 1], fuel);
      if o.Returned? then
        ExtendsTransitive(r, r1, o.value);
        assert forall i :: 0 <= i < |rules| - 1 ==> rules[..|rules| - 1][i] == rules[i];
        o
      else o
  }

  /** The message of a rule the EBNF grammar rejects: it quotes the rule text as written,
      whitespace and comments included, up to any NUL. */
  function RuleSyntaxError(lhs: string, text: string): string {
    "Syntax error in rule '" + CStr(lhs) + "': '" + CStr(text) + "'."
  }

  /** The rule of `push("x", "a b )")` is rejected with its text as written. */
  lemma RuleSyntaxErrorKeepsText()
    ensures RuleSyntaxError("x", "a b )") == "Syntax error in rule 'x': 'a b )'."
  {
    assert CStr("x") == "x";
    assert CStr("a b )") == "a b )";
  }

  /** `push(lhs, rhs)`: check the lhs, rewrite the EBNF rhs into a plain rhs plus generated
      rules, then push them all. Returns the index of the rule's first production. `text` is
      the rule as passed, and `rhs` the rule lexer's reading of it. */
  function Push(e: Ebnf, r: Rules, lhs: string, text: string, rhs: seq<Lexeme>, fuel: nat): (o: Outcome<(Rules, nat)>)
    ensures !ValidName(lhs) ==> o == Threw(InvalidName(lhs))
    ensures ValidName(lhs) && lhs in r.terminals ==>
      o == Threw("Rule " + CStr(lhs) + " is already defined as a TERMINAL.")
    ensures ValidName(lhs) && lhs !in r.terminals && lhs in r.generatedRules ==>
      o == Threw("Rule " + CStr(lhs) + " is already defined as a generated rule.")
    ensures o.Returned? ==> o.value.1 == Id(|r.grammar|)
    // a rule the EBNF tables reject is reported with the text as passed
    ensures ValidName(lhs) && lhs !in r.terminals && lhs !in r.generatedRules && Started(e, rhs).Returned? ==>
      var d := Drive(e, Started(e, rhs).value, Rewrite(r, [], []), RewriteStep(e, rhs, lhs), fuel);
      d.Returned? && !d.value.0 ==> o == Threw(RuleSyntaxError(lhs, text))
  {
    if !ValidName(lhs) then Threw(InvalidName(lhs))
    else if lhs in r.terminals then Threw("Rule " + CStr(lhs) + " is already defined as a TERMINAL.")
    else if lhs in r.generatedRules then Threw("Rule " + CStr(lhs) + " is already defined as a generated rule.")
    else
      var c :- Started(e, rhs);
      var res :- Drive(e, c, Rewrite(r, [], []), RewriteStep(e, rhs, lhs), fuel);
      if !res.0 then Threw(RuleSyntaxError(lhs, text))
      else
        var r3 :- PushRewritten(e, r, lhs, res.1, fuel);
        Returned((r3, Id(|r.grammar|)))
  }

  /** The second half of `push`: push the rewritten rhs for `lhs` and then the generated
      rules, last generated first, and extend the capture blocks to the grown grammar. */
  function PushRewritten(e: Ebnf, r: Rules, lhs: string, w: Rewrite, fuel: nat): (o: Outcome<Rules>)
  {
    var top :- Top(w.stack);
    var r1 :- PushProduction(e, w.rules, lhs, top, fuel);
    var r2 :- PushGenerated(e, r1, w.newRules, fuel);
    Returned(if |r2.captures| > 0 && |r2.grammar| != |r.grammar|
             then r2.(captures := ResizeCaptures(r2.captures, |r2.grammar|)) else r2)
  }

  /** What `push` promises of a pushed rule, stated for the registry `r` it started from. */
  predicate PushedRule(r: Rules, lhs: string, s: Rules) {
    && Extends(r, s) && |s.grammar| > |r.grammar|
    && lhs in s.nonTerminals
    && s.grammar[|r.grammar|].lhs == IdAt(s.nonTerminals, lhs)
    && (Wf(r) ==> Wf(s))
  }

  lemma PushRewrittenGrows(e: Ebnf, r: Rules, lhs: string, w: Rewrite, fuel: nat)
    requires Extends(r, w.rules) && |w.rules.grammar| == |r.grammar| && (Wf(r) ==> Wf(w.rules))
    ensures PushRewritten(e, r, lhs, w, fuel).Returned? ==> PushedRule(r, lhs, PushRewritten(e, r, lhs, w, fuel).value)
  {
    var o := PushRewritten(e, r, lhs, w, fuel);
    if o.Returned? {
      PushRewrittenSteps(e, r, lhs, w, fuel);
      var top := w.stack[|w.stack| - 1];
      PushProductionGrows(e, w.rules, lhs, top, fuel);
      var r1 := PushProduction(e, w.rules, lhs, top, fuel).value;
      var r2 := PushGenerated(e, r1, w.newRules, fuel).value;
      PushedThroughGenerated(r, lhs, w.rules, r1, r2, o.value);
    }
  }

  /** The steps a returning `PushRewritten` took. */
  lemma PushRewrittenSteps(e: Ebnf, r: Rules, lhs: string, w: Rewrite, fuel: nat)
    ensures var o := PushRewritten(e, r, lhs, w, fuel);
      o.Returned? ==>
        && |w.stack| > 0
        && var o1 := PushProduction(e, w.rules, lhs, w.stack[|w.stack| - 1], fuel);
           && o1.Returned?
           && var o2 := PushGenerated(e, o1.value, w.newRules, fuel);
              && o2.Returned?
              && var r2 := o2.value;
                 o.value == if |r2.captures| > 0 && |r2.grammar| != |r.grammar|
                            then r2.(captures := ResizeCaptures(r2.captures, |r2.grammar|)) else r2
  {
    if |w.stack| == 0 {
      assert PushRewritten(e, r, lhs, w, fuel) == Crashed;
    } else {
      var top := w.stack[|w.stack| - 1];
      assert Top(w.stack) == Returned(top);
      var o1 := PushProduction(e, w.rules, lhs, top, fuel);
      if !o1.Returned? {
        assert PushRewritten(e, r, lhs, w, fuel) == o1.PropagateFailure();
      } else {
        var o2 := PushGenerated(e, o1.value, w.newRules, fuel);
        if !o2.Returned? {
          assert PushRewritten(e, r, lhs, w, fuel) == o2.PropagateFailure();
        }
      }
    }
  }

  /** The rewritten rhs pushed onto `w0`, then the generated rules pushed after it, and the
      capture blocks resized: the first production added is still the rule's. */
  lemma PushedThroughGenerated(r: Rules, lhs: string, w0: Rules, r1: Rules, r2: Rules, r3: Rules)
    requires Extends(r, w0) && |w0.grammar| == |r.grammar| && (Wf(r) ==> Wf(w0))
    requires Extends(w0, r1) && |r1.grammar| > |w0.grammar| && lhs in r1.nonTerminals
    requires r1.grammar[|w0.grammar|].lhs == IdAt(r1.nonTerminals, lhs) && (Wf(w0) ==> Wf(r1))
    requires Extends(r1, r2) && (Wf(r1) ==> Wf(r2))
    requires r3 == if |r2.captures| > 0 && |r2.grammar| != |r.grammar|
                   then r2.(captures := ResizeCaptures(r2.captures, |r2.grammar|)) else r2
    ensures PushedRule(r, lhs, r3)
  {
    ExtendsTransitive(r, w0, r1);
    ExtendsTransitive(r, r1, r2);
    assert Extends(r, r3);
    IndexOfPrefix(r1.nonTerminals, r3.nonTerminals, lhs);
    assert r3.grammar[|r.grammar|].lhs == r1.grammar[|r.grammar|].lhs == IdAt(r1.nonTerminals, lhs);
    assert Wf(r) ==> Wf(r3);
  }

  /** A rule that is pushed is registered as a non-terminal and owns the production at the
      returned index; nothing registered before is taken back, and the registry invariant is
      kept. */
  lemma PushGrows(e: Ebnf, r: Rules, lhs: string, text: string, rhs: seq<Lexeme>, fuel: nat)
    ensures Push(e, r, lhs, text, rhs, fuel).Returned? ==> PushedRule(r, lhs, Push(e, r, lhs, text, rhs, fuel).value.0)
  {
    if ValidName(lhs) && lhs !in r.terminals && lhs !in r.generatedRules && Started(e, rhs).Returned? {
      var c := Started(e, rhs).value;
      var w0 := Rewrite(r, [], []);
      RewriteStepKeeps(e, rhs, lhs, r);
      DriveKeeps(e, c, w0, RewriteStep(e, rhs, lhs), fuel, RewritesFrom(r));
      var d := Drive(e, c, w0, RewriteStep(e, rhs, lhs), fuel);
      if d.Returned? && d.value.0 {
        var w := d.value.1;
        assert Rewrites(r, w);
        PushRewrittenGrows(e, r, lhs, w, fuel);
      }
    }
  }

  // ---- validate ----

  /** Some production's rhs names non-terminal `id`. */
  predicate Used(g: seq<Production>, id: nat) {
    exists k, j :: 0 <= k < |g| && 0 <= j < |g[k].rhs| && g[k].rhs[j] == Symbol(NonTerminal, id)
  }

  /** The names, in position order, whose id is neither `start` nor used by any rhs. */
  function Unused(names: seq<string>, g: seq<Production>, start: nat): (m: seq<string>)
    ensures forall x :: x in m <==>
      exists p :: 0 <= p < |names| && names[p] == x && Id(p) != start && !Used(g, Id(p))
    decreases |names|
  {
    if |names| == 0 then []
    else
      var p := |names| - 1;
      var m := Unused(names[..p], g, start) + (if Id(p) != start && !Used(g, Id(p)) then [names[p]] else []);
      assert forall q :: 0 <= q < p ==> names[..p][q] == names[q];
      m
  }

  /** The start rule `validate()` settles on: the one set, or else the lhs of the first
      production; its name and its id, `Npos` when it does not exist. */
  function StartRule(r: Rules): (s: (string, nat))
    requires |r.grammar| > 0
    ensures r.start != "" ==> s.0 == r.start && (s.1 != Npos <==> r.start in r.nonTerminals)
    ensures s.1 != Npos ==> s.0 in r.nonTerminals
  {
    if r.start == "" then
      var id := r.grammar[0].lhs;
      var name := NameFromId(r.nonTerminals, id);
      (name, if name != "" then id else Npos)
    else (r.start, if r.start in r.nonTerminals then IdAt(r.nonTerminals, r.start) else Npos)
  }

  const Accept: string := "$accept"

  /** The rule lexer's reading of a name `validate(name)` accepts, as `push_production`
      reads the start name it is given for `$accept`. A name that begins with a letter, `_`
      or `.` is one IDENTIFIER, which takes in every later name character; a leading `-` is
      the `-` operator; a leading digit matches no rule and is an unrecognised lexeme of one
      character. */
  function NameLexemes(name: string): (ls: seq<Lexeme>)
    decreases |name|
  {
    if |name| == 0 then []
    else if IdentifierStart(name[0]) then [Identifier(name)]
    else if name[0] == '-' then [Punct('-')] + NameLexemes(name[1..])
    else [Unrecognised] + NameLexemes(name[1..])
  }

  /** The start name is read as the one identifier it names exactly when it begins with a
      character the identifier pattern allows first; a leading digit is unrecognised. */
  lemma NameLexemesOneIdentifier(name: string)
    ensures NameLexemes(name) == [Identifier(name)] <==> |name| > 0 && IdentifierStart(name[0])
    ensures |name| > 0 && '0' <= name[0] <= '9' ==> |NameLexemes(name)| > 0 && NameLexemes(name)[0] == Unrecognised
  {
    if |name| > 0 && !IdentifierStart(name[0]) {
      assert NameLexemes(name)[0] != Identifier(name);
    }
  }

  /** The `$accept: start $` production: `push_production("$accept", start)`, which re-lexes
      the start name, followed by appending the end-of-input terminal to the last
      production. */
  function Augment(e: Ebnf, r: Rules, start: string, fuel: nat): (o: Outcome<Rules>)
    ensures o.Returned? ==> o.value.start == Accept
  {
    var r1 :- PushProduction(e, r, Accept, NameLexemes(start), fuel);
    if |r1.grammar| == 0 then Crashed
    else
      var (r2, dollar) := InsertTerminal(r1, "$");
      var n := |r2.grammar| - 1;
      var last := r2.grammar[n];
      Returned(r2.(grammar := r2.grammar[..n] + [last.(rhs := last.rhs + [Symbol(Terminal, dollar)])], start := Accept))
  }

  /** `validate()`: settle the start rule, reject unused rules, add the `$accept` production
      and reject non-terminals without productions. */
  function Validate(e: Ebnf, r: Rules, fuel: nat): (o: Outcome<Rules>)
    ensures |r.grammar| == 0 ==> o == Threw("No productions are defined.")
    ensures |r.grammar| > 0 && StartRule(r).1 == Npos ==> o == Threw("Specified start rule does not exist.")
    ensures o.Returned? ==> o.value.start == Accept
  {
    if |r.grammar| == 0 then Threw("No productions are defined.")
    else
      var (name, id) := StartRule(r);
      if id == Npos then Threw("Specified start rule does not exist.")
      else ValidateStart(e, r, name, id, fuel)
  }

  /** The rest of `validate()` once the start rule `name`, with id `id`, is known. */
  function ValidateStart(e: Ebnf, r: Rules, name: string, id: nat, fuel: nat): (o: Outcome<Rules>)
    ensures o.Returned? ==> o.value.start == Accept
  {
    var unused := Unused(r.nonTerminals, r.grammar, id);
    if |unused| > 0 then Threw("'" + CStr(Least(unused)) + "' is an unused rule.")
    else
      var r1 :- Augment(e, r.(start := name), name, fuel);
      match FirstMissing(r1.ntLocations)
      case Some(i) => Threw("Non-terminal '" + CStr(NameFromId(r1.nonTerminals, i)) + "' does not have any productions.")
      case None => Returned(r1)
  }

  /** The augmented grammar ends with `$accept: start $`: its lhs is `$accept` and its rhs
      ends with the end-of-input terminal; nothing before is taken back, and the registry
      invariant is kept. The start name is re-lexed, so the rhs holds the start symbol only
      when the name lexes as it (`AugmentDigitStart`). */
  lemma AugmentEndsWithAccept(e: Ebnf, r: Rules, start: string, fuel: nat)
    ensures var o := Augment(e, r, start, fuel);
      o.Returned? ==>
        && |o.value.grammar| > |r.grammar|
        && Accept in o.value.nonTerminals && "$" in o.value.terminals
        && o.value.grammar[|o.value.grammar| - 1].lhs == IdAt(o.value.nonTerminals, Accept)
        && |o.value.grammar[|o.value.grammar| - 1].rhs| > 0
        && o.value.grammar[|o.value.grammar| - 1].rhs[|o.value.grammar[|o.value.grammar| - 1].rhs| - 1]
           == Symbol(Terminal, IdAt(o.value.terminals, "$"))
        && r.nonTerminals <= o.value.nonTerminals
        && (forall k :: 0 <= k < |r.grammar| ==> o.value.grammar[k].rhs == r.grammar[k].rhs)
        && (Wf(r) ==> Wf(o.value))
  {
    var ls := NameLexemes(start);
    var o1 := PushProduction(e, r, Accept, ls, fuel);
    PushProductionGrows(e, r, Accept, ls, fuel);
    if o1.Returned? {
      var r1 := o1.value;
      var (r2, dollar) := InsertTerminal(r1, "$");
      var n := |r2.grammar| - 1;
      var last := r2.grammar[n];
      var q := last.(rhs := last.rhs + [Symbol(Terminal, dollar)]);
      var r3 := r2.(grammar := r2.grammar[..n] + [q], start := Accept);
      assert Augment(e, r, start, fuel) == Returned(r3);
      AppendToLastKeepsLinks(r2.grammar, q);
      assert Links(r3.grammar) == Links(r1.grammar);
      if Wf(r) {
        assert Wf(r1);
        assert "$" in r1.terminals;
        assert r2.terminals == r1.terminals;
      }
    }
  }

  /** `push_production` on a rule whose first lexeme is unrecognised: `bison_next` reports
      an error before the loop, and the empty production is pushed as it is. */
  lemma PushProductionStopsAtUnrecognised(e: Ebnf, r: Rules, lhs: string, ls: seq<Lexeme>, fuel: nat)
    requires |ls| > 0 && ls[0] == Unrecognised
    ensures var o := PushProduction(e, r, lhs, ls, fuel);
      o.Returned? ==> |o.value.grammar| > 0 && o.value.grammar[|o.value.grammar| - 1].rhs == []
  {
    var o := PushProduction(e, r, lhs, ls, fuel);
    if o.Returned? {
      var b0 := Opened(r, lhs).value;
      var c := Started(e, ls).value;
      assert c.r.entry.action == Error;
      assert o.value == Finish(b0);
    }
  }

  /** `$accept` for a start name with a leading digit is `$accept: $`. */
  lemma AugmentDigitStart(e: Ebnf, r: Rules, start: string, fuel: nat)
    requires |start| > 0 && '0' <= start[0] <= '9'
    ensures var o := Augment(e, r, start, fuel);
      o.Returned? ==>
        && |o.value.grammar| > 0
        && o.value.grammar[|o.value.grammar| - 1].rhs == [Symbol(Terminal, IdAt(o.value.terminals, "$"))]
  {
    var ls := NameLexemes(start);
    NameLexemesOneIdentifier(start);
    PushProductionStopsAtUnrecognised(e, r, Accept, ls, fuel);
    var o1 := PushProduction(e, r, Accept, ls, fuel);
    if o1.Returned? {
      var r1 := o1.value;
      var (r2, dollar) := InsertTerminal(r1, "$");
      var n := |r2.grammar| - 1;
      var last := r2.grammar[n];
      assert last.rhs == [];
      var q := last.(rhs := last.rhs + [Symbol(Terminal, dollar)]);
      var r3 := r2.(grammar := r2.grammar[..n] + [q], start := Accept);
      assert Augment(e, r, start, fuel) == Returned(r3);
      assert r3.grammar[n] == q;
    }
  }

  /** With no unused name left, every non-terminal but the start is used. */
  lemma NoUnusedMeansUsed(names: seq<string>, g: seq<Production>, start: nat, p: nat)
    requires |Unused(names, g, start)| == 0 && p < |names| && Id(p) != start
    ensures Used(g, Id(p))
  {
  }

  /** A use survives growing the grammar when the old productions keep their rhs. */
  lemma UsedKept(g: seq<Production>, g1: seq<Production>, id: nat)
    requires Used(g, id) && |g| <= |g1|
    requires forall k :: 0 <= k < |g| ==> g1[k].rhs == g[k].rhs
    ensures Used(g1, id)
  {
    var k, j :| 0 <= k < |g| && 0 <= j < |g[k].rhs| && g[k].rhs[j] == Symbol(NonTerminal, id);
    assert g1[k].rhs[j] == Symbol(NonTerminal, id);
  }

  /** A registry ready for the generator, after `validate()` of `r` whose start rule has
      id `start`: `$accept` is the start, every non-terminal has a production, every
      non-terminal of `r` but the start rule is used, and the last production has the lhs
      `$accept`. */
  predicate Ready(r: Rules, start: nat, s: Rules) {
    && s.start == Accept
    && (forall i :: 0 <= i < |s.ntLocations| ==> s.ntLocations[i].first != Npos)
    && (forall p :: 0 <= p < |r.nonTerminals| && Id(p) != start ==> Used(s.grammar, Id(p)))
    && |s.grammar| > 0 && Accept in s.nonTerminals
    && s.grammar[|s.grammar| - 1].lhs == IdAt(s.nonTerminals, Accept)
  }

  /** The `$accept` step of `validate()` yields a ready registry once no rule is unused and
      no non-terminal lacks a production. */
  lemma AugmentReady(e: Ebnf, r: Rules, start: nat, name: string, fuel: nat)
    requires |Unused(r.nonTerminals, r.grammar, start)| == 0
    requires Augment(e, r.(start := name), name, fuel).Returned?
    requires FirstMissing(Augment(e, r.(start := name), name, fuel).value.ntLocations).None?
    ensures Ready(r, start, Augment(e, r.(start := name), name, fuel).value)
    ensures Wf(r) ==> Wf(Augment(e, r.(start := name), name, fuel).value)
  {
    var r0 := r.(start := name);
    AugmentEndsWithAccept(e, r0, name, fuel);
    var r1 := Augment(e, r0, name, fuel).value;
    assert Wf(r) ==> Wf(r0);
    forall p | 0 <= p < |r.nonTerminals| && Id(p) != start ensures Used(r1.grammar, Id(p)) {
      NoUnusedMeansUsed(r.nonTerminals, r.grammar, start, p);
      UsedKept(r.grammar, r1.grammar, Id(p));
    }
  }

  /** A grammar `validate()` accepts is ready for the generator, and the registry invariant
      is kept. */
  lemma ValidateReady(e: Ebnf, r: Rules, fuel: nat)
    requires |r.grammar| > 0
    ensures Validate(e, r, fuel).Returned? ==> Ready(r, StartRule(r).1, Validate(e, r, fuel).value)
    ensures Validate(e, r, fuel).Returned? && Wf(r) ==> Wf(Validate(e, r, fuel).value)
  {
    var o := Validate(e, r, fuel);
    if o.Returned? {
      var (name, id) := StartRule(r);
      assert id != Npos;
      assert |Unused(r.nonTerminals, r.grammar, id)| == 0;
      var o1 := Augment(e, r.(start := name), name, fuel);
      assert o1.Returned? && FirstMissing(o1.value.ntLocations).None? && o.value == o1.value;
      AugmentReady(e, r, id, name, fuel);
    }
  }

  // ---- the rule numbering of the newer tables ----

  /** With the numbering as written, the reduction by rule 9 of the newer tables
      (`rhs_list: rhs`), which follows the reduction of the first symbol of every rhs, runs
      the `rhs_list: rhs_list rhs` handler: it pops the only rhs text and then reads the top
      of an empty stack. With the corrected numbering it does nothing. */
  lemma NewerAsWrittenRuleNineCrashes(ls: seq<Lexeme>, lhs: string, w: Rewrite, c: TokenConfig)
    requires c.r.entry == Entry(Reduce, 9) && |w.stack| == 1
    ensures RewriteAction(NewerAsWritten, ls, lhs, w, c) == Crashed
    ensures RewriteAction(Newer, ls, lhs, w, c) == Returned(w)
  {
    assert RoleOf(NewerAsWritten, 9) == RhsList2;
    assert RoleOf(Newer, 9) == RhsList1;
  }
}
