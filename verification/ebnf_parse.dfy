/** The EBNF front end of `rules::push`: the rule text, split into lexemes by the rule lexer,
    is parsed with the bison EBNF tables, and semantic actions keyed by rule number run
    before every table step. */
module EbnfParse {
  import opened Wrappers
  import opened ParserStateMachine
  import opened TokenStream
  import opened MatchResults
  import opened Lookup
  import BisonLookup
  import EbnfTables
  import EbnfTablesOld

  /** A lexeme of the rule lexer. The lexer itself (a lexertl machine) is not part of this
      model; a rule's rhs is given already split into lexemes. */
  datatype Lexeme =
    | Identifier(name: string)      // IDENTIFIER: a grammar symbol name
    | Literal(text: string)         // TERMINAL: a quoted token, quotes included
    | EmptyKeyword                  // %empty
    | PrecKeyword                   // %prec
    | Punct(c: char)                // one of the EBNF operators
    | Unrecognised                  // text the lexer cannot match

  /** The single-character operators of the EBNF grammar. */
  const Operators: string := "|[]?{}*-+()"

  /** The lexeme ids the rule lexer reports: the yacc token numbers 258..261 of the keyword
      classes, the character code of an operator, and `npos` for anything unrecognised. */
  function LexemeId(l: Lexeme): (id: nat)
    ensures id == Npos || id < 262
    ensures id == 0 ==> false
  {
    match l
    case Identifier(_) => 259
    case Literal(_) => 261
    case EmptyKeyword => 258
    case PrecKeyword => 260
    case Punct(c) => if c in Operators then c as nat else Npos
    case Unrecognised => Npos
  }

  /** The source text of one lexeme. */
  function Text(l: Lexeme): string {
    match l
    case Identifier(n) => n
    case Literal(t) => t
    case EmptyKeyword => "%empty"
    case PrecKeyword => "%prec"
    case Punct(c) => [c]
    case Unrecognised => ""
  }

  /** The source text of a run of lexemes, without the whitespace between them. */
  function Texts(ls: seq<Lexeme>): string {
    if |ls| == 0 then "" else Texts(ls[..|ls| - 1]) + Text(ls[|ls| - 1])
  }

  /** The lexeme stream as the parser runtime sees it: lexeme `i` spans [i, i+1). */
  function LexerOf(ls: seq<Lexeme>): (lx: Lexer)
    ensures lx.pos == 0 && lx.eoi == |ls| && |lx.tokens| == |ls|
    ensures forall i :: 0 <= i < |ls| ==> lx.tokens[i] == Token(LexemeId(ls[i]), i, i + 1)
  {
    Lexer(seq(|ls|, (i: int) requires 0 <= i < |ls| => Token(LexemeId(ls[i]), i, i + 1)), 0, |ls|)
  }

  /** `token::str()`: the lexemes a token spans; a default-constructed token spans none. */
  function Span(ls: seq<Lexeme>, t: Token): (r: seq<Lexeme>)
    ensures t.first <= t.second <= |ls| ==> r == ls[t.first..t.second]
    ensures t.first == t.second ==> r == []
  {
    if t.first <= t.second <= |ls| then ls[t.first..t.second] else []
  }

  /** The semantic role of an EBNF rule, named after the `ebnf_indexes` enumerators. */
  datatype Role =
    | RuleRole | RhsOr1 | RhsOr2 | OptList1 | OptList2 | OptList3 | RhsList1 | RhsList2
    | IdentifierRule | TerminalRule | Optional1 | Optional2 | Zom1 | Zom2 | Oom1 | Oom2
    | Bracketed | PrecEmpty | PrecIdent | PrecTerm
    | Unhandled

  /** The tables together with the rule-number-to-role map the semantic actions use. */
  datatype Ebnf = Ebnf(tables: BisonLookup.Tables, roles: seq<Role>)

  function RoleOf(e: Ebnf, rule: nat): Role {
    if rule < |e.roles| then e.roles[rule] else Unhandled
  }

  /** The number of rhs symbols each role's handler assumes when it indexes the token
      vector, from the grammar rule it was written for. */
  function RoleSize(role: Role): (n: int)
    ensures role == Unhandled <==> n < 0
  {
    match role
    case RuleRole => 1      case RhsOr1 => 1        case RhsOr2 => 3
    case OptList1 => 0      case OptList2 => 1      case OptList3 => 2
    case RhsList1 => 1      case RhsList2 => 2
    case IdentifierRule => 1 case TerminalRule => 1
    case Optional1 => 3     case Optional2 => 2
    case Zom1 => 3          case Zom2 => 2          case Oom1 => 4      case Oom2 => 2
    case Bracketed => 3
    case PrecEmpty => 0     case PrecIdent => 2     case PrecTerm => 2
    case Unhandled => -1
  }

  /** Every rule's role fits the rule: the handler's assumed rhs length is the rule's. */
  predicate RolesFit(roles: seq<Role>, r2: seq<int>) {
    forall k :: 0 <= k < |r2| && k < |roles| && roles[k] != Unhandled ==> RoleSize(roles[k]) == r2[k]
  }

  predicate RolesMatchTables(e: Ebnf) {
    RolesFit(e.roles, e.tables.r2)
  }

  /** The `ebnf_indexes` numbering as written: `rule_idx = 2`, then one number per rule of
      the 22-rule EBNF grammar. */
  const WrittenRoles: seq<Role> :=
    [Unhandled, Unhandled, RuleRole, RhsOr1, RhsOr2, OptList1, OptList2, OptList3, RhsList1,
     RhsList2, IdentifierRule, TerminalRule, Optional1, Optional2, Zom1, Zom2, Oom1, Oom2,
     Bracketed, PrecEmpty, PrecIdent, PrecTerm]

  /** The numbering that fits the 23-rule grammar of the newer tables, whose rule 5 joins an
      `opt_list` and an `opt_prec` (the job of the `opt_list_3` handler) and whose rule 8
      passes an `rhs_list` through as an `opt_list`. */
  const CorrectedRoles: seq<Role> :=
    [Unhandled, Unhandled, RuleRole, RhsOr1, RhsOr2, OptList3, OptList1, OptList2, Unhandled,
     RhsList1, RhsList2, IdentifierRule, TerminalRule, Optional1, Optional2, Zom1, Zom2, Oom1,
     Oom2, Bracketed, PrecEmpty, PrecIdent, PrecTerm]

  /** The older tables with the numbering written for them. */
  const Older: Ebnf := Ebnf(EbnfTablesOld.Tables, WrittenRoles)

  /** The newer tables with the numbering as written next to them. */
  const NewerAsWritten: Ebnf := Ebnf(EbnfTables.Tables, WrittenRoles)

  /** The newer tables with the numbering that fits them. */
  const Newer: Ebnf := Ebnf(EbnfTables.Tables, CorrectedRoles)

  lemma WrittenRolesFitOlder()
    ensures RolesFit(WrittenRoles, EbnfTablesOld.R2)
  {
    var r2 := EbnfTablesOld.R2;
    forall k | 0 <= k < |r2| && k < |WrittenRoles| && WrittenRoles[k] != Unhandled
      ensures RoleSize(WrittenRoles[k]) == r2[k]
    {
      assert k in {0, 1, 2, 3, 4, 5, 6, 7, 8, 9, 10, 11, 12, 13, 14, 15, 16, 17, 18, 19, 20, 21};
    }
  }

  lemma OlderRolesMatch()
    ensures RolesMatchTables(Older)
  {
    WrittenRolesFitOlder();
  }

  lemma CorrectedRolesFitNewer()
    ensures RolesFit(CorrectedRoles, EbnfTables.R2)
  {
    var r2 := EbnfTables.R2;
    forall k | 0 <= k < |r2| && k < |CorrectedRoles| && CorrectedRoles[k] != Unhandled
      ensures RoleSize(CorrectedRoles[k]) == r2[k]
    {
      assert k in {0, 1, 2, 3, 4, 5, 6, 7, 8, 9, 10, 11, 12, 13, 14, 15, 16, 17, 18, 19, 20, 21, 22};
    }
  }

  lemma NewerRolesMatch()
    ensures RolesMatchTables(Newer)
  {
    CorrectedRolesFitNewer();
  }

  /** As written, rule 9 of the newer grammar (`rhs_list: rhs`, one symbol) is handled as
      `rhs_list_2` (`rhs_list: rhs_list rhs`, two symbols). */
  lemma NewerAsWrittenRolesMismatch()
    ensures RoleOf(NewerAsWritten, 9) == RhsList2 && NewerAsWritten.tables.r2[9] == 1
    ensures !RolesMatchTables(NewerAsWritten)
  {
    assert NewerAsWritten.tables.r2 == EbnfTables.R2;
    assert RoleSize(WrittenRoles[9]) != EbnfTables.R2[9];
  }

  /** `bison_next` on the first lexeme, from a default `match_results`. */
  function Begin(e: Ebnf, ls: seq<Lexeme>): (c: Behaviour<TokenConfig>)
    ensures c.Defined? ==> c.value.lx == LexerOf(ls) && c.value.productions == [] && c.value.r.stack == [0]
  {
    var lx := LexerOf(ls);
    match BisonLookup.NextAction(e.tables, Current(lx).id, MatchResults([0], Npos, DefaultEntry))
    case Undefined => Undefined
    case Defined(r) => Defined(TokenConfig(lx, r, []))
  }

  /** The parse loop shared by `push` and `push_production`: while the action is neither
      error nor accept, run the semantic action `act` on the state, then `bison_lookup` and
      `bison_next`. Returns whether the loop stopped at accept, and the final state. */
  function Drive<S>(e: Ebnf, c: TokenConfig, s: S, act: (S, TokenConfig) -> Outcome<S>, fuel: nat)
    : (o: Outcome<(bool, S)>)
    decreases fuel
  {
    if c.r.entry.action == Error || c.r.entry.action == Accept then Returned((c.r.entry.action == Accept, s))
    else if fuel == 0 then OutOfFuel
    else
      match act(s, c)
      case Threw(m) => Threw(m)
      case Crashed => Crashed
      case OutOfFuel => OutOfFuel
      case Returned(s1) =>
        match BisonLookup.TokenStep(e.tables, c)
        case Undefined => Crashed
        case Defined(c1) =>
          match BisonLookup.NextAction(e.tables, Current(c1.lx).id, c1.r)
          case Undefined => Crashed
          case Defined(r2) => Drive(e, c1.(r := r2), s1, act, fuel - 1)
  }

  /** A property every semantic action preserves holds of the state the loop ends with. */
  lemma {:induction false} DriveKeeps<S>(e: Ebnf, c: TokenConfig, s: S, act: (S, TokenConfig) -> Outcome<S>,
                                        fuel: nat, inv: S -> bool)
    requires inv(s)
    requires forall s0, c0 :: inv(s0) && act(s0, c0).Returned? ==> inv(act(s0, c0).value)
    ensures Drive(e, c, s, act, fuel).Returned? ==> inv(Drive(e, c, s, act, fuel).value.1)
    decreases fuel
  {
    if c.r.entry.action != Error && c.r.entry.action != Accept && fuel > 0 {
      match act(s, c)
      case Threw(_) =>
      case Crashed =>
      case OutOfFuel =>
      case Returned(s1) =>
        match BisonLookup.TokenStep(e.tables, c)
        case Undefined =>
        case Defined(c1) =>
          match BisonLookup.NextAction(e.tables, Current(c1.lx).id, c1.r)
          case Undefined =>
          case Defined(r2) => DriveKeeps(e, c1.(r := r2), s1, act, fuel - 1, inv);
    }
  }
}
