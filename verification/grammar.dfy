/** The grammar vocabulary shared by every generation of `basic_rules`: symbols, productions,
    token precedence information, the name tables that hand out symbol ids, and the way a
    new production is threaded onto its lhs's chain of alternatives. */
module Grammar {
  import opened ParserStateMachine
  import opened ProductionChains

  /** `associativity`, in declaration order. */
  datatype Assoc = TokenAssoc | PrecedenceAssoc | NonAssoc | LeftAssoc | RightAssoc

  /** `token_info`: the precedence and associativity a token directive gave a terminal. */
  datatype TokenInfo = TokenInfo(precedence: nat, assoc: Assoc)

  const DefaultInfo: TokenInfo := TokenInfo(0, TokenAssoc)

  datatype SymbolKind = Terminal | NonTerminal

  datatype Symbol = Symbol(kind: SymbolKind, id: nat)

  /** `production`. `prec` is the `%prec` token's text, empty when there is none. */
  datatype Production = Production(
    lhs: nat, rhs: seq<Symbol>, prec: string, precedence: nat, assoc: Assoc,
    index: nat, nextLhs: nat)

  /** A production freshly started for `lhs` at position `index`. */
  function Fresh(lhs: nat, index: nat): (p: Production)
    ensures p.lhs == lhs && p.index == index && p.nextLhs == Npos
    ensures p.rhs == [] && p.prec == "" && p.precedence == 0 && p.assoc == TokenAssoc
  {
    Production(lhs, [], "", 0, TokenAssoc, index, Npos)
  }

  /** The characters a symbol name may contain. */
  predicate NameChar(c: char) {
    ('A' <= c <= 'Z') || ('a' <= c <= 'z') || ('0' <= c <= '9') || c == '_' || c == '.' || c == '-'
  }

  /** A character the rule lexers' identifier pattern `[A-Za-z_.][-A-Za-z_.0-9]*` can begin
      with: a name character other than a digit or `-`. */
  predicate IdentifierStart(c: char) {
    ('A' <= c <= 'Z') || ('a' <= c <= 'z') || c == '_' || c == '.'
  }

  /** A `std::string` seen through `c_str()`: everything before the first NUL. */
  function CStr(s: string): (r: string)
    ensures r <= s && '\0' !in r
    ensures '\0' !in s ==> r == s
    ensures |r| < |s| ==> s[|r|] == '\0'
  {
    if |s| == 0 || s[0] == '\0' then "" else [s[0]] + CStr(s[1..])
  }

  // ---- name tables: a `std::map<string, id>` whose ids are the insertion positions ----

  predicate Distinct(names: seq<string>) {
    forall i, j :: 0 <= i < j < |names| ==> names[i] != names[j]
  }

  /** The position of a registered name. */
  function IndexOf(names: seq<string>, s: string): (i: nat)
    requires s in names
    ensures i < |names| && names[i] == s
    ensures forall j :: 0 <= j < i ==> names[j] != s
  {
    if names[0] == s then 0 else 1 + IndexOf(names[1..], s)
  }

  lemma IndexOfDistinct(names: seq<string>, i: nat)
    requires Distinct(names) && i < |names|
    ensures IndexOf(names, names[i]) == i
  {
  }

  /** Extending a table does not move a registered name. */
  lemma {:induction false} IndexOfPrefix(a: seq<string>, b: seq<string>, s: string)
    requires s in a && a <= b
    ensures s in b && IndexOf(b, s) == IndexOf(a, s)
  {
    if a[0] != s {
      assert s in a[1..];
      assert a[1..] <= b[1..];
      IndexOfPrefix(a[1..], b[1..], s);
    }
  }

  /** `map::insert(name, size())`: a new name gets the next position, a registered one keeps
      its own. Returns the table and the name's position. */
  function Insert(names: seq<string>, s: string): (r: (seq<string>, nat))
    ensures names <= r.0 && r.1 < |r.0| && r.0[r.1] == s
    ensures s in names <==> r.0 == names
    ensures s in names ==> r.1 == IndexOf(names, s)
    ensures s !in names ==> r.1 == |names| && |r.0| == |names| + 1
    ensures Distinct(names) ==> Distinct(r.0)
  {
    if s in names then (names, IndexOf(names, s)) else (names + [s], |names|)
  }

  /** `info(id)`: grow the token information with default entries so that `id` has one. */
  function EnsureInfo(infos: seq<TokenInfo>, id: nat): (r: seq<TokenInfo>)
    ensures |r| == if id < |infos| then |infos| else id + 1
    ensures id < |r| && r[..|infos|] == infos
    ensures forall i :: |infos| <= i < |r| ==> r[i] == DefaultInfo
  {
    if id < |infos| then infos else infos + seq(id + 1 - |infos|, _ => DefaultInfo)
  }

  // ---- `std::string` ordering, the iteration order of the name maps ----

  /** `std::string::operator<`: lexicographic by character code. */
  predicate StrLess(a: string, b: string) {
    if |b| == 0 then false
    else if |a| == 0 then true
    else if a[0] != b[0] then a[0] < b[0]
    else StrLess(a[1..], b[1..])
  }

  lemma {:induction false} StrLessIrreflexive(a: string)
    ensures !StrLess(a, a)
  {
    if |a| > 0 {
      StrLessIrreflexive(a[1..]);
    }
  }

  lemma {:induction false} StrLessTransitive(a: string, b: string, c: string)
    requires StrLess(a, b) && StrLess(b, c)
    ensures StrLess(a, c)
  {
    if |a| > 0 && a[0] == b[0] && b[0] == c[0] {
      StrLessTransitive(a[1..], b[1..], c[1..]);
    }
  }

  lemma {:induction false} StrLessTotal(a: string, b: string)
    requires a != b
    ensures StrLess(a, b) || StrLess(b, a)
  {
    if |a| > 0 && |b| > 0 && a[0] == b[0] {
      assert a == [a[0]] + a[1..] && b == [b[0]] + b[1..];
      StrLessTotal(a[1..], b[1..]);
    }
  }

  /** The first of `names` in map order. */
  function Least(names: seq<string>): (m: string)
    requires |names| > 0
    ensures m in names
    ensures forall x :: x in names ==> !StrLess(x, m)
  {
    if |names| == 1 then
      StrLessIrreflexive(names[0]);
      names[0]
    else
      var rest := Least(names[..|names| - 1]);
      var last := names[|names| - 1];
      assert names == names[..|names| - 1] + [last];
      if StrLess(last, rest) then
        forall x | x in names[..|names| - 1] ensures !StrLess(x, last) {
          if StrLess(x, last) {
            StrLessTransitive(x, last, rest);
          }
        }
        StrLessIrreflexive(last);
        last
      else rest
  }

  // ---- production chains over the grammar ----

  function LinkOf(p: Production): Link {
    Link(p.lhs, p.index, p.nextLhs)
  }

  function Links(g: seq<Production>): (ls: seq<Link>)
    ensures |ls| == |g| && forall k :: 0 <= k < |g| ==> ls[k] == LinkOf(g[k])
  {
    seq(|g|, (k: int) requires 0 <= k < |g| => LinkOf(g[k]))
  }

  /** The head of `push_production`: give `lhs` a fresh production at the end of the
      grammar, recording it as the lhs's first production if it had none and as its last,
      and link the previous last production to it. */
  function OpenProduction(g: seq<Production>, locs: seq<Location>, lhs: nat)
    : (r: (seq<Production>, seq<Location>, Production))
    requires lhs < |locs|
    requires locs[lhs].last == Npos || locs[lhs].last < |g|
    ensures r.2 == Fresh(lhs, |g|)
    ensures (Links(r.0 + [r.2]), r.1) == Open(Links(g), locs, lhs)
    ensures |r.0| == |g| && forall k :: 0 <= k < |g| ==> r.0[k].rhs == g[k].rhs && r.0[k].lhs == g[k].lhs
  {
    var index := |g|;
    var l := locs[lhs];
    var g1 := if l.last != Npos then g[l.last := g[l.last].(nextLhs := index)] else g;
    var first := if l.first == Npos then index else l.first;
    var r := (g1, locs[lhs := Location(first, index)], Fresh(lhs, index));
    assert Links(r.0 + [r.2]) == Open(Links(g), locs, lhs).0;
    r
  }

  /** The `'|'` case of `push_production`: the production being built becomes a grammar
      entry linked to the next alternative, which is started at the following index. */
  function CloseAlternative(g: seq<Production>, locs: seq<Location>, p: Production)
    : (r: (seq<Production>, seq<Location>, Production))
  {
    var index := |g| + 1;
    var locs1 := Grow(locs, p.lhs);
    (g + [p.(nextLhs := index)], locs1[p.lhs := locs1[p.lhs].(last := index)], Fresh(p.lhs, index))
  }

  /** Starting a production keeps the chains exact. */
  lemma OpenProductionKeepsChains(g: seq<Production>, locs: seq<Location>, lhs: nat)
    requires ChainsOk(Links(g), locs) && lhs < |locs| && |g| < Npos
    ensures locs[lhs].last == Npos || locs[lhs].last < |g|
    ensures ChainsOk(Links(OpenProduction(g, locs, lhs).0 + [OpenProduction(g, locs, lhs).2]),
                     OpenProduction(g, locs, lhs).1)
  {
    OpenKeepsChains(Links(g), locs, lhs);
  }

  /** Closing an alternative is opening the next one after the production being built, so
      it keeps the chains exact too. */
  lemma CloseAlternativeIsOpen(g: seq<Production>, locs: seq<Location>, p: Production)
    requires ChainsOk(Links(g + [p]), locs) && |g| + 1 < Npos
    ensures p.lhs < |locs| && locs[p.lhs].last == |g|
    ensures (Links(CloseAlternative(g, locs, p).0 + [CloseAlternative(g, locs, p).2]),
             CloseAlternative(g, locs, p).1) == Open(Links(g + [p]), locs, p.lhs)
    ensures ChainsOk(Links(CloseAlternative(g, locs, p).0 + [CloseAlternative(g, locs, p).2]),
                     CloseAlternative(g, locs, p).1)
  {
    var links := Links(g + [p]);
    assert links[|g|] == LinkOf(p);
    assert p.lhs < |locs|;
    assert LocationOk(links, locs, p.lhs);
    assert locs[p.lhs].last == |g|;
    assert locs[p.lhs].first != Npos;
    var r := CloseAlternative(g, locs, p);
    assert Links(r.0 + [r.2]) == Open(links, locs, p.lhs).0;
    OpenKeepsChains(links, locs, p.lhs);
  }

  /** Changing a production's rhs, precedence or `%prec` text leaves its link alone. */
  lemma LinksIgnoreContents(g: seq<Production>, p: Production, q: Production)
    requires LinkOf(p) == LinkOf(q)
    ensures Links(g + [p]) == Links(g + [q])
  {
  }

  /** Appending to the last production's rhs keeps the chains. */
  lemma AppendToLastKeepsLinks(g: seq<Production>, q: Production)
    requires |g| > 0 && LinkOf(q) == LinkOf(g[|g| - 1])
    ensures Links(g[..|g| - 1] + [q]) == Links(g)
  {
    assert g == g[..|g| - 1] + [g[|g| - 1]];
    LinksIgnoreContents(g[..|g| - 1], g[|g| - 1], q);
  }

  /** Changing the rhs of any production leaves the links alone. */
  lemma LinksIgnoreRhsAt(g: seq<Production>, k: nat, q: Production)
    requires k < |g| && LinkOf(q) == LinkOf(g[k])
    ensures Links(g[k := q]) == Links(g)
  {
  }
}
