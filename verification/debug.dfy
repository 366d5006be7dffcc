/** `basic_debug` of the newest parsertl generation: the grammar printed back in bison
    syntax, and the LR(0) automaton printed state by state. The stream is the string the
    dump returns. `symbols` is what `rules.symbols()` lists: the terminal names by id, then
    the non-terminal names by id. */
module Debug {
  import opened Wrappers
  import opened ParserStateMachine
  import opened ProductionChains
  import opened Grammar
  import opened Decimal
  import Lr0

  // ---- text ----

  /** The pieces of `s` between occurrences of `c` (always at least one piece). */
  function Split(s: string, c: char): (ps: seq<string>)
    ensures |ps| > 0
    decreases |s|
  {
    if s == [] then [[]]
    else
      var rest := Split(s[1..], c);
      if s[0] == c then [[]] + rest else [[s[0]] + rest[0]] + rest[1..]
  }

  /** The pieces with `c` between consecutive ones. */
  function Join(ps: seq<string>, c: char): string
    decreases |ps|
  {
    if ps == [] then [] else if |ps| == 1 then ps[0] else ps[0] + [c] + Join(ps[1..], c)
  }

  predicate Free(ps: seq<string>, c: char) {
    forall i :: 0 <= i < |ps| ==> c !in ps[i]
  }

  /** A piece free of `c` followed by `c`-separated text splits off as the first piece. */
  lemma {:induction false} SplitPrefix(p: string, c: char, s: string)
    requires c !in p
    ensures Split(p + s, c) == [p + Split(s, c)[0]] + Split(s, c)[1..]
    decreases |p|
  {
    if p != [] {
      assert (p + s)[1..] == p[1..] + s;
      SplitPrefix(p[1..], c, s);
      var r := Split(s, c);
      var after := Split(p[1..] + s, c);
      assert after[0] == p[1..] + r[0] && after[1..] == r[1..];
      assert [p[0]] + (p[1..] + r[0]) == p + r[0];
      assert (p + s)[0] == p[0] != c;
      assert Split(p + s, c) == [[p[0]] + after[0]] + after[1..];
    } else {
      var r := Split(s, c);
      assert p + s == s && p + r[0] == r[0] && [r[0]] + r[1..] == r;
    }
  }

  /** Splitting undoes joining, whenever no piece contains the separator. */
  lemma {:induction false} SplitJoin(ps: seq<string>, c: char)
    requires ps != [] && Free(ps, c)
    ensures Split(Join(ps, c), c) == ps
    decreases |ps|
  {
    if |ps| == 1 {
      SplitPrefix(ps[0], c, []);
      assert ps[0] + [] == ps[0];
    } else {
      var rest := Join(ps[1..], c);
      assert Free(ps[1..], c) by {
        forall i | 0 <= i < |ps[1..]|
          ensures c !in ps[1..][i]
        {
          assert ps[1..][i] == ps[i + 1];
        }
      }
      SplitJoin(ps[1..], c);
      assert ([c] + rest)[1..] == rest;
      assert Split([c] + rest, c) == [[]] + ps[1..];
      assert ps[0] + [c] + rest == ps[0] + ([c] + rest);
      SplitPrefix(ps[0], c, [c] + rest);
      assert ps[0] + [] == ps[0];
      assert [ps[0]] + ps[1..] == ps;
    }
  }

  /** Each word preceded by a space, as the rhs and `%prec` parts of a dump are written. */
  function Spaced(ws: seq<string>): string
    decreases |ws|
  {
    if ws == [] then [] else " " + ws[0] + Spaced(ws[1..])
  }

  /** A space-led list of words is an empty piece joined to the words by spaces. */
  lemma {:induction false} SpacedIsJoin(ws: seq<string>)
    ensures Spaced(ws) == Join([[]] + ws, ' ')
    decreases |ws|
  {
    if ws != [] {
      SpacedIsJoin(ws[1..]);
      assert ([[]] + ws)[1..] == ws;
      assert ([[]] + ws[1..])[1..] == ws[1..];
      if |ws| == 1 {
        assert Join(ws, ' ') == ws[0];
      } else {
        assert Join(ws, ' ') == ws[0] + " " + Join(ws[1..], ' ');
      }
    }
  }

  /** The words of a space-led list are exactly the words listed, when none holds a space. */
  lemma WordsOfSpaced(ws: seq<string>)
    requires Free(ws, ' ')
    ensures Split(Spaced(ws), ' ') == [[]] + ws
  {
    SpacedIsJoin(ws);
    assert Free([[]] + ws, ' ') by {
      forall i | 0 <= i < |[[]] + ws|
        ensures ' ' !in ([[]] + ws)[i]
      {
        if i > 0 {
          assert ([[]] + ws)[i] == ws[i - 1];
        }
      }
    }
    SplitJoin([[]] + ws, ' ');
  }

  function Spaces(n: nat): (s: string)
    ensures |s| == n && forall i :: 0 <= i < n ==> s[i] == ' '
  {
    if n == 0 then [] else " " + Spaces(n - 1)
  }

  // ---- what the dump reads from the rules ----

  /** The parts of `basic_rules` the dump reads: the symbol names, the token information
      (one entry per terminal, so its length is the number of terminals), the start
      non-terminal (`Npos` when none is set) and the productions. */
  datatype View = View(symbols: seq<string>, tokensInfo: seq<TokenInfo>, start: nat, grammar: seq<Production>)

  function Terminals(v: View): nat {
    |v.tokensInfo|
  }

  /** A rhs symbol's index among all symbol names. */
  function SymbolId(terminals: nat, s: Symbol): nat {
    if s.kind == Terminal then s.id else terminals + s.id
  }

  /** Every `_next_lhs` names the next production with the same lhs, or `Npos` on the last. */
  predicate Chained(g: seq<Production>) {
    forall k :: 0 <= k < |g| ==> NextOk(Links(g), k)
  }

  /** Every name the dumps print exists. */
  predicate Named(v: View) {
    var t := Terminals(v);
    && t <= |v.symbols|
    && (v.start == Npos || t + v.start < |v.symbols|)
    && (forall k :: 0 <= k < |v.grammar| ==> t + v.grammar[k].lhs < |v.symbols|)
    && (forall k :: 0 <= k < |v.grammar| ==> RhsNamed(v, v.grammar[k].rhs))
  }

  predicate RhsNamed(v: View, rhs: seq<Symbol>) {
    forall j :: 0 <= j < |rhs| ==> SymbolId(Terminals(v), rhs[j]) < |v.symbols|
  }

  /** The name of symbol `id`. Under `Named` every id the dumps print is in range; beyond
      it the name is empty, which no dump of a named view reaches. */
  function Name(v: View, id: nat): string {
    if id < |v.symbols| then v.symbols[id] else []
  }

  function LhsName(v: View, lhs: nat): string {
    Name(v, Terminals(v) + lhs)
  }

  // ---- token directives ----

  /** The order of `associativity` values, as `std::map` compares them. */
  function Rank(a: Assoc): nat {
    match a
    case TokenAssoc => 0
    case PrecedenceAssoc => 1
    case NonAssoc => 2
    case LeftAssoc => 3
    case RightAssoc => 4
  }

  /** The order of the `(precedence, associativity)` map keys. */
  predicate KeyLess(a: TokenInfo, b: TokenInfo) {
    a.precedence < b.precedence || (a.precedence == b.precedence && Rank(a.assoc) < Rank(b.assoc))
  }

  /** One entry of the token map: a key and the names gathered under it. */
  datatype Group = Group(key: TokenInfo, names: string)

  predicate Sorted(gs: seq<Group>) {
    forall p, q :: 0 <= p < q < |gs| ==> KeyLess(gs[p].key, gs[q].key)
  }

  /** The names filed under `key`, if any. */
  function Find(gs: seq<Group>, key: TokenInfo): (o: Option<string>)
    decreases |gs|
  {
    if gs == [] then None else if gs[0].key == key then Some(gs[0].names) else Find(gs[1..], key)
  }

  /** File the name under its key: a new entry in key order, or the name appended to the
      existing entry after a space. */
  function AddToken(gs: seq<Group>, key: TokenInfo, name: string): (r: seq<Group>)
    requires Sorted(gs)
    ensures Sorted(r)
    ensures Find(r, key) == Some(if Find(gs, key).Some? then Find(gs, key).value + " " + name else name)
    ensures forall k :: k != key ==> Find(r, k) == Find(gs, k)
    ensures forall b :: Above(gs, b) && KeyLess(b, key) ==> Above(r, b)
    decreases |gs|
  {
    if gs == [] then [Group(key, name)]
    else if gs[0].key == key then
      SortedTail(gs);
      [gs[0].(names := gs[0].names + " " + name)] + gs[1..]
    else if KeyLess(key, gs[0].key) then
      NotBelow(gs, key);
      [Group(key, name)] + gs
    else
      SortedTail(gs);
      var rest := AddToken(gs[1..], key, name);
      assert Above(rest, gs[0].key);
      [gs[0]] + rest
  }

  lemma SortedTail(gs: seq<Group>)
    requires Sorted(gs) && gs != []
    ensures Sorted(gs[1..]) && gs == [gs[0]] + gs[1..] && Above(gs[1..], gs[0].key)
  {
  }

  /** Every key of the map lies above `b`. */
  predicate Above(gs: seq<Group>, b: TokenInfo) {
    forall i :: 0 <= i < |gs| ==> KeyLess(b, gs[i].key)
  }

  /** A key below the first key of a sorted map is not in it. */
  lemma {:induction false} NotBelow(gs: seq<Group>, key: TokenInfo)
    requires Sorted(gs) && gs != [] && KeyLess(key, gs[0].key)
    ensures Find(gs, key).None?
    decreases |gs|
  {
    if |gs| > 1 {
      SortedTail(gs);
      NotBelow(gs[1..], key);
    }
  }

  /** The names of tokens `1 .. n - 1` whose information is `key`, in id order. */
  function Members(infos: seq<TokenInfo>, names: seq<string>, key: TokenInfo, n: nat): seq<string>
    requires n <= |infos| <= |names|
    decreases n
  {
    if n <= 1 then []
    else Members(infos, names, key, n - 1) + (if infos[n - 1] == key then [names[n - 1]] else [])
  }

  /** The token map after tokens `1 .. n - 1`: EOI, token 0, is skipped. */
  function GroupsUpTo(infos: seq<TokenInfo>, names: seq<string>, n: nat): (gs: seq<Group>)
    requires n <= |infos| <= |names|
    ensures Sorted(gs)
    decreases n
  {
    if n <= 1 then [] else AddToken(GroupsUpTo(infos, names, n - 1), infos[n - 1], names[n - 1])
  }

  /** The token map groups every token but EOI under its `(precedence, associativity)`:
      each key present holds the names of exactly the tokens with that key, in id order,
      separated by single spaces, and the keys come in increasing order. */
  lemma {:induction false} GroupsGather(infos: seq<TokenInfo>, names: seq<string>, n: nat, key: TokenInfo)
    requires n <= |infos| <= |names|
    ensures Sorted(GroupsUpTo(infos, names, n))
    ensures var ms := Members(infos, names, key, n);
      Find(GroupsUpTo(infos, names, n), key) == if ms == [] then None else Some(Join(ms, ' '))
    decreases n
  {
    if n > 1 {
      GroupsGather(infos, names, n - 1, key);
      var ms := Members(infos, names, key, n - 1);
      if infos[n - 1] != key {
        assert Members(infos, names, key, n) == ms + [] == ms;
      } else if ms == [] {
        assert Members(infos, names, key, n) == [names[n - 1]];
      } else {
        JoinSnoc(ms, names[n - 1]);
      }
    }
  }

  lemma {:induction false} JoinSnoc(ms: seq<string>, x: string)
    requires ms != []
    ensures Join(ms + [x], ' ') == Join(ms, ' ') + " " + x
    decreases |ms|
  {
    if |ms| > 1 {
      JoinSnoc(ms[1..], x);
      assert (ms + [x])[1..] == ms[1..] + [x];
    } else {
      assert (ms + [x])[1..] == [x];
    }
  }

  /** The directive each associativity prints. */
  function Directive(a: Assoc): string {
    match a
    case TokenAssoc => "%token "
    case PrecedenceAssoc => "%precedence "
    case NonAssoc => "%nonassoc "
    case LeftAssoc => "%left "
    case RightAssoc => "%right "
  }

  /** One directive line per entry of the token map. */
  function DirectiveLines(gs: seq<Group>): string
    decreases |gs|
  {
    if gs == [] then [] else Directive(gs[0].key.assoc) + gs[0].names + "\n" + DirectiveLines(gs[1..])
  }

  /** The token map of a dump. */
  function TokenGroups(v: View): seq<Group>
    requires Named(v)
  {
    GroupsUpTo(v.tokensInfo, v.symbols, |v.tokensInfo|)
  }

  /** The `%start` line, present only when a start rule is set. */
  function StartLine(v: View): (s: string)
    requires Named(v)
    ensures s == [] <==> v.start == Npos
    ensures v.start != Npos ==> s == "\n%start " + LhsName(v, v.start) + "\n\n"
  {
    if v.start == Npos then [] else "\n%start " + LhsName(v, v.start) + "\n\n"
  }

  // ---- productions ----

  /** `%prec` and its token, when the production names one. */
  function PrecText(prec: string): string {
    if prec == [] then [] else " %prec " + prec
  }

  /** The names a rhs prints: those of all its symbols but `$`, id 0, in order. */
  function Printed(v: View, rhs: seq<Symbol>): (ws: seq<string>)
    ensures |ws| <= |rhs|
    ensures (forall j :: 0 <= j < |rhs| ==> SymbolId(Terminals(v), rhs[j]) > 0) ==> |ws| == |rhs|
    decreases |rhs|
  {
    if rhs == [] then []
    else
      var id := SymbolId(Terminals(v), rhs[0]);
      (if id > 0 then [Name(v, id)] else []) + Printed(v, rhs[1..])
  }

  /** `dump_production` without the continuation: `%empty` for an empty rhs, else each
      printed name after a space; then the `%prec` part. */
  function AltText(v: View, p: Production): (s: string)
  {
    (if p.rhs == [] then " %empty" else Spaced(Printed(v, p.rhs))) + PrecText(p.prec)
  }

  /** Read back word by word, an alternative gives `%empty` or its printed names, then
      `%prec` and the precedence token when there is one. */
  lemma AltWords(v: View, p: Production)
    requires Free(v.symbols, ' ') && ' ' !in p.prec
    ensures Split(AltText(v, p), ' ') == [[]] + AltBody(v, p) + PrecWords(p.prec)
  {
    AltFree(v, p);
    AltSpaced(v, p);
    WordsOfSpaced(AltBody(v, p) + PrecWords(p.prec));
  }

  /** The words of an alternative before any `%prec`. */
  function AltBody(v: View, p: Production): seq<string> {
    if p.rhs == [] then ["%empty"] else Printed(v, p.rhs)
  }

  function PrecWords(prec: string): seq<string> {
    if prec == [] then [] else ["%prec", prec]
  }

  lemma AltSpaced(v: View, p: Production)
    ensures AltText(v, p) == Spaced(AltBody(v, p) + PrecWords(p.prec))
  {
    SpacedAppend(AltBody(v, p), PrecWords(p.prec));
    SpacedBody(v, p);
    SpacedPrec(p.prec);
  }

  lemma SpacedBody(v: View, p: Production)
    ensures Spaced(AltBody(v, p)) == if p.rhs == [] then " %empty" else Spaced(Printed(v, p.rhs))
  {
    if p.rhs == [] {
      assert Spaced(["%empty"]) == " %empty" + Spaced([]);
    }
  }

  lemma SpacedPrec(prec: string)
    ensures Spaced(PrecWords(prec)) == PrecText(prec)
  {
    if prec != [] {
      assert ["%prec", prec][1..] == [prec];
      assert Spaced([prec]) == " " + prec + Spaced([]);
      assert Spaced(["%prec", prec]) == " " + "%prec" + Spaced([prec]);
      assert " " + "%prec" + (" " + prec + []) == " %prec " + prec;
    }
  }

  lemma AltFree(v: View, p: Production)
    requires Free(v.symbols, ' ') && ' ' !in p.prec
    ensures Free(AltBody(v, p) + PrecWords(p.prec), ' ')
  {
    PrintedFree(v, p.rhs);
    assert ' ' !in "%empty" && ' ' !in "%prec";
    FreeAppend(AltBody(v, p), PrecWords(p.prec), ' ');
  }

  lemma FreeAppend(a: seq<string>, b: seq<string>, c: char)
    requires Free(a, c) && Free(b, c)
    ensures Free(a + b, c)
  {
    forall i | 0 <= i < |a + b|
      ensures c !in (a + b)[i]
    {
      if i < |a| {
        assert (a + b)[i] == a[i];
      } else {
        assert (a + b)[i] == b[i - |a|];
      }
    }
  }

  lemma {:induction false} PrintedFree(v: View, rhs: seq<Symbol>)
    requires Free(v.symbols, ' ')
    ensures Free(Printed(v, rhs), ' ')
    decreases |rhs|
  {
    if rhs != [] {
      PrintedFree(v, rhs[1..]);
    }
  }

  lemma {:induction false} SpacedAppend(a: seq<string>, b: seq<string>)
    ensures Spaced(a + b) == Spaced(a) + Spaced(b)
    decreases |a|
  {
    if a != [] {
      SpacedAppend(a[1..], b);
      assert (a + b)[1..] == a[1..] + b;
    } else {
      assert a + b == b;
    }
  }

  // ---- chains of alternatives ----

  /** The productions `dump_grammar` visits from `i` by following `_next_lhs`. */
  function Chain(g: seq<Production>, i: nat): (c: seq<nat>)
    requires Chained(g) && i < |g|
    ensures c != [] && c[0] == i
    ensures forall k :: 0 <= k < |c| ==> c[k] < |g|
    decreases |g| - i
  {
    assert NextOk(Links(g), i);
    var n := g[i].nextLhs;
    if n == Npos then [i] else [i] + Chain(g, n)
  }

  /** The indices from `i` on of the productions of `lhs`, in grammar order. */
  function Indices(g: seq<Production>, lhs: nat, i: nat): (js: seq<nat>)
    requires i <= |g|
    ensures forall k :: 0 <= k < |js| ==> i <= js[k] < |g| && g[js[k]].lhs == lhs
    decreases |g| - i
  {
    if i == |g| then [] else (if g[i].lhs == lhs then [i] else []) + Indices(g, lhs, i + 1)
  }

  /** Indices over a stretch without productions of `lhs` skip it. */
  lemma {:induction false} IndicesSkip(g: seq<Production>, lhs: nat, i: nat, n: nat)
    requires i <= n <= |g|
    requires forall j :: i <= j < n ==> g[j].lhs != lhs
    ensures Indices(g, lhs, i) == Indices(g, lhs, n)
    decreases n - i
  {
    if i < n {
      IndicesSkip(g, lhs, i + 1, n);
    }
  }

  /** Following `_next_lhs` from a production visits exactly the productions with its lhs
      from there on, in grammar order. */
  lemma {:induction false} ChainVisitsAll(g: seq<Production>, i: nat)
    requires Chained(g) && i < |g|
    ensures Chain(g, i) == Indices(g, g[i].lhs, i)
    decreases |g| - i
  {
    assert NextOk(Links(g), i);
    var n := g[i].nextLhs;
    if n == Npos {
      IndicesSkip(g, g[i].lhs, i + 1, |g|);
    } else {
      IndicesSkip(g, g[i].lhs, i + 1, n);
      ChainVisitsAll(g, n);
    }
  }

  /** The alternatives at the given indices: each after the first starts a new line
      indented by the lhs name's length and a `|`. */
  function Alternatives(v: View, name: string, js: seq<nat>): string
    requires forall k :: 0 <= k < |js| ==> js[k] < |v.grammar|
    decreases |js|
  {
    if js == [] then []
    else AltText(v, v.grammar[js[0]]) +
         (if |js| == 1 then [] else "\n" + Spaces(|name|) + "|" + Alternatives(v, name, js[1..]))
  }

  // ---- the grammar section ----

  /** The lhs values of productions before `n`. */
  function LhsBefore(g: seq<Production>, n: nat): set<nat>
    requires n <= |g|
    decreases n
  {
    if n == 0 then {} else LhsBefore(g, n - 1) + {g[n - 1].lhs}
  }

  /** An lhs is among those before `n` exactly when some production before `n` has it. */
  lemma {:induction false} InLhsBefore(g: seq<Production>, n: nat, l: nat)
    requires n <= |g|
    ensures l in LhsBefore(g, n) <==> exists j :: 0 <= j < n && g[j].lhs == l
    decreases n
  {
    if n > 0 {
      InLhsBefore(g, n - 1, l);
    }
  }


  /** The block `dump_grammar` prints for the production at `i`: its lhs name, a colon,
      the alternatives found by following the chain, and `;`. */
  function Section(v: View, i: nat): string
    requires Chained(v.grammar) && i < |v.grammar|
  {
    var name := LhsName(v, v.grammar[i].lhs);
    name + ":" + Alternatives(v, name, Chain(v.grammar, i)) + ";\n\n"
  }

  /** `dump_grammar` from production `i` on, with `seen` the lhs values already printed. */
  function GrammarFrom(v: View, i: nat, seen: set<nat>): string
    requires Chained(v.grammar) && i <= |v.grammar|
    decreases |v.grammar| - i
  {
    if i == |v.grammar| then []
    else if v.grammar[i].lhs in seen then GrammarFrom(v, i + 1, seen)
    else Section(v, i) + GrammarFrom(v, i + 1, seen + {v.grammar[i].lhs})
  }

  /** The lhs values of productions from `i` on that have none before them, in order. */
  function Heads(g: seq<Production>, i: nat): (hs: seq<nat>)
    requires i <= |g|
    decreases |g| - i
  {
    if i == |g| then []
    else (if g[i].lhs in LhsBefore(g, i) then [] else [g[i].lhs]) + Heads(g, i + 1)
  }

  /** The block of one lhs: its name, a colon, all of its alternatives in grammar order,
      and `;`. */
  function Block(v: View, lhs: nat): string
  {
    var name := LhsName(v, lhs);
    name + ":" + Alternatives(v, name, Indices(v.grammar, lhs, 0)) + ";\n\n"
  }

  function Blocks(v: View, hs: seq<nat>): string
    decreases |hs|
  {
    if hs == [] then [] else Block(v, hs[0]) + Blocks(v, hs[1..])
  }

  /** The heads are the lhs values not met before `i`, each once. */
  lemma {:induction false} HeadsDistinct(g: seq<Production>, i: nat)
    requires i <= |g|
    ensures forall k :: 0 <= k < |Heads(g, i)| ==> Heads(g, i)[k] !in LhsBefore(g, i)
    ensures forall p, q :: 0 <= p < q < |Heads(g, i)| ==> Heads(g, i)[p] != Heads(g, i)[q]
    decreases |g| - i
  {
    if i < |g| {
      HeadsDistinct(g, i + 1);
      var l := g[i].lhs;
      var rest := Heads(g, i + 1);
      if l in LhsBefore(g, i) {
        assert Heads(g, i) == rest;
      } else {
        assert Heads(g, i) == [l] + rest;
        assert l in LhsBefore(g, i + 1);
        assert forall k :: 0 <= k < |rest| ==> rest[k] != l;
      }
    }
  }

  /** Every lhs from `i` on was met before `i` or is a head. */
  lemma {:induction false} HeadsCover(g: seq<Production>, i: nat)
    requires i <= |g|
    ensures forall j :: i <= j < |g| ==> g[j].lhs in LhsBefore(g, i) || g[j].lhs in Heads(g, i)
    decreases |g| - i
  {
    if i < |g| {
      HeadsCover(g, i + 1);
    }
  }

  /** The heads come in order of first occurrence: every production of a later head comes
      after some production of each earlier head. */
  lemma {:induction false} HeadsInOrder(g: seq<Production>, i: nat)
    requires i <= |g|
    ensures Ordered(g, i, Heads(g, i))
    decreases |g| - i
  {
    if i < |g| {
      HeadsInOrder(g, i + 1);
      HeadsDistinct(g, i + 1);
      HeadOrdered(g, i, Heads(g, i + 1));
    }
  }

  /** Among the productions from `i` on, each production of a later head comes after some
      production of every earlier head. */
  predicate Ordered(g: seq<Production>, i: nat, hs: seq<nat>)
    requires i <= |g|
  {
    forall p, q, j :: 0 <= p < q < |hs| && i <= j < |g| && g[j].lhs == hs[q] ==> hs[p] in LhsBefore(g, j)
  }

  /** The step of `HeadsInOrder` at production `i`. */
  lemma HeadOrdered(g: seq<Production>, i: nat, rest: seq<nat>)
    requires i < |g| && rest == Heads(g, i + 1)
    requires Ordered(g, i + 1, rest)
    requires forall k :: 0 <= k < |rest| ==> rest[k] !in LhsBefore(g, i + 1)
    ensures Ordered(g, i, Heads(g, i))
  {
    var l := g[i].lhs;
    var hs := Heads(g, i);
    assert l in LhsBefore(g, i + 1);
    if l in LhsBefore(g, i) {
      assert hs == rest;
      forall p, q, j | 0 <= p < q < |hs| && i <= j < |g| && g[j].lhs == hs[q]
        ensures hs[p] in LhsBefore(g, j)
      {
        assert hs[q] !in LhsBefore(g, i + 1);
        assert j != i;
        assert i + 1 <= j;
      }
    } else {
      assert hs == [l] + rest;
      forall p, q, j | 0 <= p < q < |hs| && i <= j < |g| && g[j].lhs == hs[q]
        ensures hs[p] in LhsBefore(g, j)
      {
        assert hs[q] == rest[q - 1];
        assert rest[q - 1] !in LhsBefore(g, i + 1);
        assert j != i;
        if p == 0 {
          LhsBeforeGrows(g, i + 1, j);
        } else {
          assert hs[p] == rest[p - 1];
          assert 0 <= p - 1 < q - 1 < |rest| && i + 1 <= j && g[j].lhs == rest[q - 1];
        }
      }
    }
  }

  lemma {:induction false} LhsBeforeGrows(g: seq<Production>, a: nat, b: nat)
    requires a <= b <= |g|
    ensures LhsBefore(g, a) <= LhsBefore(g, b)
    decreases b - a
  {
    if a < b {
      LhsBeforeGrows(g, a, b - 1);
    }
  }

  /** The first production of an lhs starts the block of that lhs. */
  lemma SectionIsBlock(v: View, i: nat)
    requires Chained(v.grammar) && i < |v.grammar|
    requires v.grammar[i].lhs !in LhsBefore(v.grammar, i)
    ensures Section(v, i) == Block(v, v.grammar[i].lhs)
  {
    var g := v.grammar;
    ChainVisitsAll(g, i);
    InLhsBefore(g, i, g[i].lhs);
    IndicesSkip(g, g[i].lhs, 0, i);
  }

  /** `dump_grammar` prints one block per lhs, in order of first occurrence, each holding
      all of that lhs's alternatives in grammar order. */
  lemma {:induction false} GrammarBySections(v: View, i: nat)
    requires Chained(v.grammar) && i <= |v.grammar|
    ensures GrammarFrom(v, i, LhsBefore(v.grammar, i)) == Blocks(v, Heads(v.grammar, i))
    decreases |v.grammar| - i
  {
    var g := v.grammar;
    if i < |g| {
      GrammarBySections(v, i + 1);
      var l := g[i].lhs;
      if l !in LhsBefore(g, i) {
        SectionIsBlock(v, i);
        assert Heads(g, i) == [l] + Heads(g, i + 1);
      } else {
        assert LhsBefore(g, i + 1) == LhsBefore(g, i);
        assert Heads(g, i) == Heads(g, i + 1);
      }
    }
  }

  /** `dump(rules)`: the token directives grouped by precedence and associativity, the
      `%start` line when there is a start rule, then the grammar between `%%` lines, one
      block per lhs in order of first occurrence. */
  function Dump(v: View): (s: string)
    requires Named(v) && Chained(v.grammar)
    ensures s == DirectiveLines(TokenGroups(v)) + StartLine(v) + "%%\n\n" + Blocks(v, Heads(v.grammar, 0)) + "%%\n"
  {
    assert LhsBefore(v.grammar, 0) == {};
    GrammarBySections(v, 0);
    DirectiveLines(TokenGroups(v)) + StartLine(v) + "%%\n\n" + GrammarFrom(v, 0, {}) + "%%\n"
  }

  // ---- the automaton ----

  /** The names of a rhs's symbols, `$` included. */
  function RhsNames(v: View, rhs: seq<Symbol>): (ns: seq<string>)
    ensures |ns| == |rhs|
    ensures forall j :: 0 <= j < |rhs| ==> ns[j] == Name(v, SymbolId(Terminals(v), rhs[j]))
    decreases |rhs|
  {
    if rhs == [] then [] else [Name(v, SymbolId(Terminals(v), rhs[0]))] + RhsNames(v, rhs[1..])
  }

  /** `dump_rhs` from position `j` on, followed by the check after its loop: a ` .` before
      the symbol at the dot, or at the end when the dot is there. */
  function ItemRhs(v: View, rhs: seq<Symbol>, dot: nat, j: nat): string
    requires j <= |rhs|
    decreases |rhs| - j
  {
    var mark := if j == dot then " ." else [];
    if j == |rhs| then mark
    else mark + " " + Name(v, SymbolId(Terminals(v), rhs[j])) + ItemRhs(v, rhs, dot, j + 1)
  }

  /** The names with a `.` inserted at the dot, or unchanged when the dot lies beyond. */
  function Marked(ns: seq<string>, dot: nat): seq<string> {
    if dot <= |ns| then ns[..dot] + ["."] + ns[dot..] else ns
  }

  /** The rhs of an item shows every symbol, with one ` .` exactly at the dot. */
  lemma DotMarked(v: View, rhs: seq<Symbol>, dot: nat)
    ensures ItemRhs(v, rhs, dot, 0) == Spaced(Marked(RhsNames(v, rhs), dot))
  {
    DotMarkedFrom(v, rhs, dot, 0);
    var ns := RhsNames(v, rhs);
    assert ns[0..] == ns;
    assert MarkedFrom(ns, dot, 0) == Marked(ns, dot);
    if dot <= |rhs| {
      assert ns[0..dot] == ns[..dot];
    }
  }

  /** The names from `j` on, with the `.` among them when the dot lies there. */
  function MarkedFrom(ns: seq<string>, dot: nat, j: nat): seq<string>
    requires j <= |ns|
  {
    if j <= dot <= |ns| then ns[j..dot] + ["."] + ns[dot..] else ns[j..]
  }

  lemma {:induction false} DotMarkedFrom(v: View, rhs: seq<Symbol>, dot: nat, j: nat)
    requires j <= |rhs|
    ensures ItemRhs(v, rhs, dot, j) == Spaced(MarkedFrom(RhsNames(v, rhs), dot, j))
    decreases |rhs| - j
  {
    var ns := RhsNames(v, rhs);
    if j == |rhs| {
      DotMarkedEnd(v, rhs, dot);
    } else {
      DotMarkedFrom(v, rhs, dot, j + 1);
      DotMarkedStep(v, rhs, dot, j);
    }
  }

  lemma DotMarkedStep(v: View, rhs: seq<Symbol>, dot: nat, j: nat)
    requires j < |rhs|
    requires ItemRhs(v, rhs, dot, j + 1) == Spaced(MarkedFrom(RhsNames(v, rhs), dot, j + 1))
    ensures ItemRhs(v, rhs, dot, j) == Spaced(MarkedFrom(RhsNames(v, rhs), dot, j))
  {
    var ns := RhsNames(v, rhs);
    var rest := ItemRhs(v, rhs, dot, j + 1);
    var later := MarkedFrom(ns, dot, j + 1);
    MarkedStep(ns, dot, j);
    SpacedCons(ns[j], later);
    var a := " " + ns[j] + rest;
    assert Spaced([ns[j]] + later) == a;
    if j == dot {
      DotAt(v, rhs, j, a);
      MarkThen([ns[j]] + later);
    } else {
      assert ItemRhs(v, rhs, dot, j) == [] + " " + ns[j] + rest;
      assert [] + " " + ns[j] + rest == a;
    }
  }

  lemma DotAt(v: View, rhs: seq<Symbol>, j: nat, a: string)
    requires j < |rhs| && a == " " + RhsNames(v, rhs)[j] + ItemRhs(v, rhs, j, j + 1)
    ensures ItemRhs(v, rhs, j, j) == " ." + a
  {
    var rest := ItemRhs(v, rhs, j, j + 1);
    var n := RhsNames(v, rhs)[j];
    assert ItemRhs(v, rhs, j, j) == " ." + " " + n + rest;
    Regroup(" .", " ", n, rest);
  }

  lemma Regroup(w: string, x: string, y: string, z: string)
    ensures w + x + y + z == w + (x + y + z)
  {
  }

  lemma MarkThen(ws: seq<string>)
    ensures Spaced(["."] + ws) == " ." + Spaced(ws)
  {
    SpacedCons(".", ws);
    assert " " + "." == " .";
  }

  lemma DotMarkedEnd(v: View, rhs: seq<Symbol>, dot: nat)
    ensures ItemRhs(v, rhs, dot, |rhs|) == Spaced(MarkedFrom(RhsNames(v, rhs), dot, |rhs|))
  {
    var ns := RhsNames(v, rhs);
    assert ns[|rhs|..] == [];
    if dot == |rhs| {
      assert MarkedFrom(ns, dot, |rhs|) == ["."];
      assert Spaced(["."]) == " .";
    }
  }

  lemma SpacedCons(w: string, ws: seq<string>)
    ensures Spaced([w] + ws) == " " + w + Spaced(ws)
  {
    assert ([w] + ws)[1..] == ws;
  }

  /** One name further along the marked names. */
  lemma MarkedStep(ns: seq<string>, dot: nat, j: nat)
    requires j < |ns|
    ensures j == dot ==> MarkedFrom(ns, dot, j) == ["."] + ([ns[j]] + MarkedFrom(ns, dot, j + 1))
    ensures j != dot ==> MarkedFrom(ns, dot, j) == [ns[j]] + MarkedFrom(ns, dot, j + 1)
  {
    assert ns[j..] == [ns[j]] + ns[j + 1..];
    if j < dot <= |ns| {
      assert ns[j..dot] == [ns[j]] + ns[j + 1..dot];
    }
  }

  /** An item's line: two spaces, the lhs name, ` ->` and the marked rhs. */
  function ItemLine(v: View, it: Lr0.Item): string
    requires it.0 < |v.grammar|
  {
    var p := v.grammar[it.0];
    "  " + LhsName(v, p.lhs) + " ->" + ItemRhs(v, p.rhs, it.1, 0)
  }

  function ItemLines(v: View, items: seq<Lr0.Item>): (ls: seq<string>)
    requires forall k :: 0 <= k < |items| ==> items[k].0 < |v.grammar|
    ensures |ls| == |items| && forall k :: 0 <= k < |items| ==> ls[k] == ItemLine(v, items[k])
    decreases |items|
  {
    if items == [] then [] else [ItemLine(v, items[0])] + ItemLines(v, items[1..])
  }

  /** A transition's line: the symbol, an arrow and the target state. */
  function TransitionLine(v: View, t: (nat, nat)): string {
    "  " + Name(v, t.0) + " -> " + ShowNat(t.1)
  }

  function TransitionLines(v: View, ts: seq<(nat, nat)>): (ls: seq<string>)
    ensures |ls| == |ts| && forall k :: 0 <= k < |ts| ==> ls[k] == TransitionLine(v, ts[k])
    decreases |ts|
  {
    if ts == [] then [] else [TransitionLine(v, ts[0])] + TransitionLines(v, ts[1..])
  }

  /** Each line followed by a newline, as the stream receives them. */
  function Terminated(ls: seq<string>): string
    decreases |ls|
  {
    if ls == [] then [] else ls[0] + "\n" + Terminated(ls[1..])
  }

  predicate ItemsIn(g: seq<Production>, items: seq<Lr0.Item>) {
    forall k :: 0 <= k < |items| ==> items[k].0 < |g|
  }

  /** What `dump(rules, dfa)` relies on beyond the rules: every closure item names a
      production and every transition a symbol. */
  predicate DfaNamed(v: View, dfa: seq<Lr0.State>) {
    forall s :: 0 <= s < |dfa| ==>
      ItemsIn(v.grammar, dfa[s].closure) &&
      forall k :: 0 <= k < |dfa[s].transitions| ==> dfa[s].transitions[k].0 < |v.symbols|
  }

  /** One state: its header and a blank line, its closure items, a blank line only when it
      has transitions, its transitions, and a closing blank line. */
  function StateText(v: View, idx: nat, st: Lr0.State): string
    requires ItemsIn(v.grammar, st.closure)
  {
    "state " + ShowNat(idx) + "\n\n" + Terminated(ItemLines(v, st.closure)) +
    (if st.transitions != [] then "\n" else []) + Terminated(TransitionLines(v, st.transitions)) + "\n"
  }

  function StatesFrom(v: View, dfa: seq<Lr0.State>, k: nat): string
    requires Named(v) && DfaNamed(v, dfa) && k <= |dfa|
    decreases |dfa| - k
  {
    if k == |dfa| then [] else StateText(v, k, dfa[k]) + StatesFrom(v, dfa, k + 1)
  }

  /** `dump(rules, dfa)`: every state in turn. */
  function DumpDfa(v: View, dfa: seq<Lr0.State>): string
    requires Named(v) && DfaNamed(v, dfa)
  {
    StatesFrom(v, dfa, 0)
  }

  /** The lines of one state. */
  function StateLines(v: View, idx: nat, st: Lr0.State): seq<string>
    requires ItemsIn(v.grammar, st.closure)
  {
    ["state " + ShowNat(idx), []] + ItemLines(v, st.closure) +
    (if st.transitions != [] then [[]] else []) + TransitionLines(v, st.transitions) + [[]]
  }

  function DfaLines(v: View, dfa: seq<Lr0.State>, k: nat): seq<string>
    requires Named(v) && DfaNamed(v, dfa) && k <= |dfa|
    decreases |dfa| - k
  {
    if k == |dfa| then [] else StateLines(v, k, dfa[k]) + DfaLines(v, dfa, k + 1)
  }

  /** Read back word by word, an item's line gives the lhs name, the arrow, and the rhs
      names with a `.` at the dot. */
  lemma ItemWords(v: View, it: Lr0.Item)
    requires it.0 < |v.grammar| && Free(v.symbols, ' ')
    ensures var p := v.grammar[it.0];
      Split(ItemLine(v, it), ' ') == [[], [], LhsName(v, p.lhs), "->"] + Marked(RhsNames(v, p.rhs), it.1)
  {
    var p := v.grammar[it.0];
    var head := [[], LhsName(v, p.lhs), "->"];
    var m := Marked(RhsNames(v, p.rhs), it.1);
    ItemSpaced(v, it);
    ItemFree(v, it);
    WordsOfSpaced(head + m);
    assert [[]] + (head + m) == [[], [], LhsName(v, p.lhs), "->"] + m;
  }

  /** An item line is its head words and its marked rhs names, each led by a space. */
  lemma ItemSpaced(v: View, it: Lr0.Item)
    requires it.0 < |v.grammar|
    ensures var p := v.grammar[it.0];
      ItemLine(v, it) == Spaced([[], LhsName(v, p.lhs), "->"] + Marked(RhsNames(v, p.rhs), it.1))
  {
    var p := v.grammar[it.0];
    var name := LhsName(v, p.lhs);
    var m := Marked(RhsNames(v, p.rhs), it.1);
    DotMarked(v, p.rhs, it.1);
    SpacedAppend([[], name, "->"], m);
    HeadSpaced(name);
  }

  lemma HeadSpaced(name: string)
    ensures Spaced([[], name, "->"]) == "  " + name + " ->"
  {
    SpacedCons([], [name, "->"]);
    SpacedCons(name, ["->"]);
    assert Spaced(["->"]) == " ->";
  }

  /** No word of an item line holds a space. */
  lemma ItemFree(v: View, it: Lr0.Item)
    requires it.0 < |v.grammar| && Free(v.symbols, ' ')
    ensures var p := v.grammar[it.0];
      Free([[], LhsName(v, p.lhs), "->"] + Marked(RhsNames(v, p.rhs), it.1), ' ')
  {
    var p := v.grammar[it.0];
    var name := LhsName(v, p.lhs);
    var m := Marked(RhsNames(v, p.rhs), it.1);
    NamesFree(v, p.rhs, ' ');
    MarkedFree(RhsNames(v, p.rhs), it.1, ' ');
    assert ' ' !in name;
    assert Free([[], name, "->"], ' ');
    FreeAppend([[], name, "->"], m, ' ');
  }

  lemma NamesFree(v: View, rhs: seq<Symbol>, c: char)
    requires Free(v.symbols, c)
    ensures Free(RhsNames(v, rhs), c)
  {
  }

  lemma MarkedFree(ns: seq<string>, dot: nat, c: char)
    requires Free(ns, c) && c != '.'
    ensures Free(Marked(ns, dot), c)
  {
    if dot <= |ns| {
      FreeAppend(ns[..dot], ["."], c);
      FreeAppend(ns[..dot] + ["."], ns[dot..], c);
    }
  }

  lemma {:induction false} TerminatedIsJoin(ls: seq<string>)
    ensures Terminated(ls) == Join(ls + [[]], '\n')
    decreases |ls|
  {
    if ls != [] {
      TerminatedIsJoin(ls[1..]);
      assert (ls + [[]])[1..] == ls[1..] + [[]];
      assert Terminated(ls) == ls[0] + "\n" + Terminated(ls[1..]);
    }
  }

  lemma {:induction false} TerminatedAppend(a: seq<string>, b: seq<string>)
    ensures Terminated(a + b) == Terminated(a) + Terminated(b)
    decreases |a|
  {
    if a == [] {
      assert a + b == b;
    } else {
      TerminatedAppend(a[1..], b);
      assert (a + b)[1..] == a[1..] + b;
    }
  }

  /** Text written as newline-terminated lines splits back into those lines, and an empty
      last piece. */
  lemma LinesOfTerminated(ls: seq<string>)
    requires Free(ls, '\n')
    ensures Split(Terminated(ls), '\n') == ls + [[]]
  {
    TerminatedIsJoin(ls);
    FreeAppend(ls, [[]], '\n');
    SplitJoin(ls + [[]], '\n');
  }

  lemma StateTextLines(v: View, idx: nat, st: Lr0.State)
    requires ItemsIn(v.grammar, st.closure)
    ensures StateText(v, idx, st) == Terminated(StateLines(v, idx, st))
  {
    var head := ["state " + ShowNat(idx), []];
    var items := ItemLines(v, st.closure);
    var gap: seq<string> := if st.transitions != [] then [[]] else [];
    var trans := TransitionLines(v, st.transitions);
    TerminatedAppend(head + items + gap + trans, [[]]);
    TerminatedAppend(head + items + gap, trans);
    TerminatedAppend(head + items, gap);
    TerminatedAppend(head, items);
    assert Terminated(head) == "state " + ShowNat(idx) + "\n\n";
    assert Terminated(gap) == if st.transitions != [] then "\n" else [];
    assert Terminated([[]]) == "\n";
  }

  lemma {:induction false} DfaTextLines(v: View, dfa: seq<Lr0.State>, k: nat)
    requires Named(v) && DfaNamed(v, dfa) && k <= |dfa|
    ensures StatesFrom(v, dfa, k) == Terminated(DfaLines(v, dfa, k))
    decreases |dfa| - k
  {
    if k < |dfa| {
      DfaTextLines(v, dfa, k + 1);
      StateTextLines(v, k, dfa[k]);
      TerminatedAppend(StateLines(v, k, dfa[k]), DfaLines(v, dfa, k + 1));
    }
  }

  lemma {:induction false} SpacedFree(ws: seq<string>, c: char)
    requires Free(ws, c) && c != ' '
    ensures c !in Spaced(ws)
    decreases |ws|
  {
    if ws != [] {
      SpacedFree(ws[1..], c);
    }
  }

  lemma ShowNatFree(n: nat)
    ensures '\n' !in ShowNat(n)
  {
  }

  lemma ItemLineFree(v: View, it: Lr0.Item)
    requires it.0 < |v.grammar| && Free(v.symbols, '\n')
    ensures '\n' !in ItemLine(v, it)
  {
    var p := v.grammar[it.0];
    DotMarked(v, p.rhs, it.1);
    NamesFree(v, p.rhs, '\n');
    MarkedFree(RhsNames(v, p.rhs), it.1, '\n');
    SpacedFree(Marked(RhsNames(v, p.rhs), it.1), '\n');
  }

  lemma StateLinesFree(v: View, idx: nat, st: Lr0.State)
    requires ItemsIn(v.grammar, st.closure) && Free(v.symbols, '\n')
    ensures Free(StateLines(v, idx, st), '\n')
  {
    ShowNatFree(idx);
    forall k | 0 <= k < |st.closure|
      ensures '\n' !in ItemLines(v, st.closure)[k]
    {
      ItemLineFree(v, st.closure[k]);
    }
    forall k | 0 <= k < |st.transitions|
      ensures '\n' !in TransitionLines(v, st.transitions)[k]
    {
      ShowNatFree(st.transitions[k].1);
    }
    var head := ["state " + ShowNat(idx), []];
    var gap: seq<string> := if st.transitions != [] then [[]] else [];
    FreeAppend(head, ItemLines(v, st.closure), '\n');
    FreeAppend(head + ItemLines(v, st.closure), gap, '\n');
    FreeAppend(head + ItemLines(v, st.closure) + gap, TransitionLines(v, st.transitions), '\n');
    FreeAppend(head + ItemLines(v, st.closure) + gap + TransitionLines(v, st.transitions), [[]], '\n');
  }

  lemma {:induction false} DfaLinesFree(v: View, dfa: seq<Lr0.State>, k: nat)
    requires Named(v) && DfaNamed(v, dfa) && k <= |dfa| && Free(v.symbols, '\n')
    ensures Free(DfaLines(v, dfa, k), '\n')
    decreases |dfa| - k
  {
    if k < |dfa| {
      DfaLinesFree(v, dfa, k + 1);
      StateLinesFree(v, k, dfa[k]);
      FreeAppend(StateLines(v, k, dfa[k]), DfaLines(v, dfa, k + 1), '\n');
    }
  }

  /** Read back line by line, the automaton dump gives, for each state in turn, the line
      `state N`, a blank line, one line per closure item, a blank line only when the state
      has transitions, one line per transition, and a blank line. */
  lemma DumpDfaLines(v: View, dfa: seq<Lr0.State>)
    requires Named(v) && DfaNamed(v, dfa) && Free(v.symbols, '\n')
    ensures Split(DumpDfa(v, dfa), '\n') == DfaLines(v, dfa, 0) + [[]]
  {
    DfaTextLines(v, dfa, 0);
    DfaLinesFree(v, dfa, 0);
    LinesOfTerminated(DfaLines(v, dfa, 0));
  }
}
