/** `basic_debug` of the older parsertl generation (lib/parsertl14/parsertl/debug.hpp): the
    same two dumps written as nested loops over the stream, the production printing inlined
    into the grammar loop and the rhs printing into the automaton loop. Each loop is shown
    to write exactly the text of the newer dumps. */
module DebugOld {
  import opened ParserStateMachine
  import opened Grammar
  import ProductionChains
  import opened Decimal
  import Debug
  import Lr0

  /** `dump(rules)`. */
  method Dump(v: Debug.View) returns (out: string)
    requires Debug.Named(v) && Debug.Chained(v.grammar) && |v.grammar| < Npos
    ensures out == Debug.Dump(v)
  {
    var gs := TokenMap(v);
    out := Directives(gs);
    out := out + Debug.StartLine(v) + "%%\n\n";
    var body := Productions(v);
    out := out + body + "%%\n";
  }

  /** The token map: every token but EOI filed under its precedence and associativity. */
  method TokenMap(v: Debug.View) returns (gs: seq<Debug.Group>)
    requires Debug.Named(v)
    ensures gs == Debug.TokenGroups(v)
  {
    var n := |v.tokensInfo|;
    gs := [];
    var idx := 1;
    while idx < n
      invariant 1 <= idx && (n > 0 ==> idx <= n)
      invariant gs == Debug.GroupsUpTo(v.tokensInfo, v.symbols, if idx <= n then idx else n)
      decreases n - idx
    {
      gs := Debug.AddToken(gs, v.tokensInfo[idx], v.symbols[idx]);
      idx := idx + 1;
    }
  }

  /** One directive line per map entry, in key order. */
  method Directives(gs: seq<Debug.Group>) returns (out: string)
    ensures out == Debug.DirectiveLines(gs)
  {
    out := [];
    var k := 0;
    while k < |gs|
      invariant k <= |gs|
      invariant out + Debug.DirectiveLines(gs[k..]) == Debug.DirectiveLines(gs)
    {
      var line := Debug.Directive(gs[k].key.assoc) + gs[k].names + "\n";
      assert gs[k..][1..] == gs[k + 1..];
      assert Debug.DirectiveLines(gs[k..]) == line + Debug.DirectiveLines(gs[k + 1..]);
      assert out + (line + Debug.DirectiveLines(gs[k + 1..])) == (out + line) + Debug.DirectiveLines(gs[k + 1..]);
      out := out + line;
      k := k + 1;
    }
    assert gs[k..] == [];
  }

  /** The grammar loop: a block for each production whose lhs was not yet printed. */
  method Productions(v: Debug.View) returns (out: string)
    requires Debug.Chained(v.grammar) && |v.grammar| < Npos
    ensures out == Debug.GrammarFrom(v, 0, {})
  {
    var g := v.grammar;
    out := [];
    var seen: set<nat> := {};
    var i := 0;
    while i < |g|
      invariant i <= |g|
      invariant out + Debug.GrammarFrom(v, i, seen) == Debug.GrammarFrom(v, 0, {})
    {
      if g[i].lhs !in seen {
        var alts := Alternatives(v, i);
        var block := Debug.LhsName(v, g[i].lhs) + ":" + alts + ";\n\n";
        assert block == Debug.Section(v, i);
        ghost var rest := Debug.GrammarFrom(v, i + 1, seen + {g[i].lhs});
        assert out + (block + rest) == (out + block) + rest;
        out := out + block;
        seen := seen + {g[i].lhs};
      }
      i := i + 1;
    }
  }

  /** The inner loop: print the production, follow `_next_lhs`, and start each further
      alternative on a new line indented under the lhs name with a `|`. */
  method Alternatives(v: Debug.View, i: nat) returns (out: string)
    requires Debug.Chained(v.grammar) && i < |v.grammar| < Npos
    ensures out == Debug.Alternatives(v, Debug.LhsName(v, v.grammar[i].lhs), Debug.Chain(v.grammar, i))
  {
    var g := v.grammar;
    var name := Debug.LhsName(v, g[i].lhs);
    ghost var whole := Debug.Alternatives(v, name, Debug.Chain(g, i));
    out := [];
    var cur := i;
    var index := i;
    while index != Npos
      invariant cur < |g|
      invariant index == Npos || index == cur
      invariant g[cur].lhs == g[i].lhs
      invariant index != Npos ==> out + Debug.Alternatives(v, name, Debug.Chain(g, cur)) == whole
      invariant index == Npos ==> out == whole
      decreases |g| - cur, if index == Npos then 0 else 1
    {
      AlternativesTurn(v, name, cur, out, whole);
      var alt := Debug.AltText(v, g[cur]);
      index := g[cur].nextLhs;
      if index != Npos {
        out := out + alt + ("\n" + Debug.Spaces(|name|) + "|");
        cur := index;
      } else {
        out := out + alt;
      }
    }
  }

  /** One turn of the inner loop keeps the text written so far a prefix of the whole. */
  lemma AlternativesTurn(v: Debug.View, name: string, cur: nat, out: string, whole: string)
    requires Debug.Chained(v.grammar) && cur < |v.grammar|
    requires out + Debug.Alternatives(v, name, Debug.Chain(v.grammar, cur)) == whole
    ensures var g := v.grammar; var n := g[cur].nextLhs; var alt := Debug.AltText(v, g[cur]);
      && (n == Npos ==> out + alt == whole)
      && (n != Npos ==>
            cur < n < |g| && g[n].lhs == g[cur].lhs &&
            out + alt + ("\n" + Debug.Spaces(|name|) + "|") + Debug.Alternatives(v, name, Debug.Chain(g, n)) == whole)
  {
    var g := v.grammar;
    AlternativesStep(v, name, cur);
    var n := g[cur].nextLhs;
    if n != Npos {
      var alt := Debug.AltText(v, g[cur]);
      var sep := "\n" + Debug.Spaces(|name|) + "|";
      var rest := Debug.Alternatives(v, name, Debug.Chain(g, n));
      assert out + (alt + (sep + rest)) == out + alt + sep + rest;
    }
  }

  /** One alternative printed, then either the end of the chain or its next production,
      which has the same lhs. */
  lemma AlternativesStep(v: Debug.View, name: string, cur: nat)
    requires Debug.Chained(v.grammar) && cur < |v.grammar|
    ensures var g := v.grammar; var n := g[cur].nextLhs;
      && (n == Npos ==> Debug.Alternatives(v, name, Debug.Chain(g, cur)) == Debug.AltText(v, g[cur]))
      && (n != Npos ==>
            cur < n < |g| && g[n].lhs == g[cur].lhs &&
            Debug.Alternatives(v, name, Debug.Chain(g, cur)) ==
              Debug.AltText(v, g[cur]) + ("\n" + Debug.Spaces(|name|) + "|" + Debug.Alternatives(v, name, Debug.Chain(g, n))))
  {
    var g := v.grammar;
    assert ProductionChains.NextOk(Links(g), cur);
    var chain := Debug.Chain(g, cur);
    if g[cur].nextLhs != Npos {
      assert chain[1..] == Debug.Chain(g, g[cur].nextLhs);
    }
  }

  /** `dump(rules, dfa)`. */
  method DumpDfa(v: Debug.View, dfa: seq<Lr0.State>) returns (out: string)
    requires Debug.Named(v) && Debug.DfaNamed(v, dfa)
    ensures out == Debug.DumpDfa(v, dfa)
  {
    out := [];
    var idx := 0;
    while idx < |dfa|
      invariant idx <= |dfa|
      invariant out + Debug.StatesFrom(v, dfa, idx) == Debug.StatesFrom(v, dfa, 0)
    {
      var st := State(v, idx, dfa[idx]);
      ghost var rest := Debug.StatesFrom(v, dfa, idx + 1);
      assert out + (st + rest) == (out + st) + rest;
      out := out + st;
      idx := idx + 1;
    }
  }

  /** One state: the header, each closure item, the transitions and the closing blank. */
  method State(v: Debug.View, idx: nat, st: Lr0.State) returns (out: string)
    requires Debug.ItemsIn(v.grammar, st.closure)
    ensures out == Debug.StateText(v, idx, st)
  {
    var head := "state " + ShowNat(idx) + "\n\n";
    var items := Items(v, st.closure);
    var gap := if st.transitions != [] then "\n" else [];
    var trans := Transitions(v, st.transitions);
    out := head + items + gap + trans + "\n";
  }

  method Items(v: Debug.View, closure: seq<Lr0.Item>) returns (out: string)
    requires Debug.ItemsIn(v.grammar, closure)
    ensures out == Debug.Terminated(Debug.ItemLines(v, closure))
  {
    ghost var lines := Debug.ItemLines(v, closure);
    out := [];
    var k := 0;
    while k < |closure|
      invariant k <= |closure|
      invariant out == Debug.Terminated(lines[..k])
    {
      var line := Item(v, closure[k]);
      TerminatedSnoc(lines, k);
      out := out + line + "\n";
      k := k + 1;
    }
    assert lines[..k] == lines;
  }

  method Transitions(v: Debug.View, ts: seq<(nat, nat)>) returns (out: string)
    ensures out == Debug.Terminated(Debug.TransitionLines(v, ts))
  {
    ghost var lines := Debug.TransitionLines(v, ts);
    out := [];
    var k := 0;
    while k < |ts|
      invariant k <= |ts|
      invariant out == Debug.Terminated(lines[..k])
    {
      var line := "  " + Debug.Name(v, ts[k].0) + " -> " + ShowNat(ts[k].1);
      TerminatedSnoc(lines, k);
      out := out + line + "\n";
      k := k + 1;
    }
    assert lines[..k] == lines;
  }

  /** One more line written. */
  lemma TerminatedSnoc(lines: seq<string>, k: nat)
    requires k < |lines|
    ensures Debug.Terminated(lines[..k + 1]) == Debug.Terminated(lines[..k]) + lines[k] + "\n"
  {
    assert lines[..k + 1] == lines[..k] + [lines[k]];
    Debug.TerminatedAppend(lines[..k], [lines[k]]);
  }

  /** An item: the lhs, the arrow, each rhs symbol with ` .` before the one at the dot,
      and ` .` at the end when the dot is there. */
  method Item(v: Debug.View, it: Lr0.Item) returns (out: string)
    requires it.0 < |v.grammar|
    ensures out == Debug.ItemLine(v, it)
  {
    var p := v.grammar[it.0];
    out := "  " + Debug.LhsName(v, p.lhs) + " ->";
    var j := 0;
    while j < |p.rhs|
      invariant j <= |p.rhs|
      invariant out + Debug.ItemRhs(v, p.rhs, it.1, j) == Debug.ItemLine(v, it)
    {
      var mark := if j == it.1 then " ." else [];
      var word := " " + Debug.Name(v, Debug.SymbolId(Debug.Terminals(v), p.rhs[j]));
      ghost var rest := Debug.ItemRhs(v, p.rhs, it.1, j + 1);
      assert Debug.ItemRhs(v, p.rhs, it.1, j) == mark + word + rest;
      assert out + (mark + word + rest) == (out + mark + word) + rest;
      out := out + mark + word;
      j := j + 1;
    }
    if j == it.1 {
      out := out + " .";
    }
  }
}
