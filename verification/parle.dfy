/** The extension's object lifecycle and `Parle\Stack` (parle.cpp). A lexer or parser object
    collects rules until `build`. From then on it is read-only: editing it throws. Before it,
    every method that needs the state machine throws that the machine is not ready.
    The rule set and the state machine are those of lexertl or parsertl; the calls into them
    are parameters here, each giving the new rules (or machine) or the exception thrown. */
module Parle {
  import opened Wrappers

  /** Which object family: the messages name it. */
  datatype Kind = LexerKind | ParserKind

  function Readonly(k: Kind): string {
    match k
    case LexerKind => "Lexer state machine is readonly"
    case ParserKind => "Parser state machine is readonly"
  }

  function NotReady(k: Kind): string {
    match k
    case LexerKind => "Lexer state machine is not ready"
    case ParserKind => "Parser state machine is not ready"
  }

  const NoResults: string := "No results available"

  /** The rules, the state machine and the `complete` flag of a lexer or parser object. */
  datatype Builder<R, M> = Builder(kind: Kind, rules: R, sm: M, complete: bool)

  /** A freshly created object: not complete. */
  function New<R, M>(kind: Kind, rules: R, sm: M): (b: Builder<R, M>)
    ensures !b.complete && b.kind == kind && b.rules == rules && b.sm == sm
  {
    Builder(kind, rules, sm, false)
  }

  /** A method call's effect: the object afterwards and the exception left pending in PHP. */
  datatype Call<T> = Call(obj: T, exception: Option<string>)

  /** A rule-editing method (`push`, `token`, `left`, `right`, `precedence`, `nonassoc`,
      `pushState`): refused once complete; otherwise the rules call decides, and an
      exception it throws leaves the rules as they were. */
  function Edit<R, M>(b: Builder<R, M>, edit: R -> Result<R>): (c: Call<Builder<R, M>>)
    ensures b.complete ==> c == Call(b, Some(Readonly(b.kind)))
    ensures !b.complete && edit(b.rules).Success? ==> c == Call(b.(rules := edit(b.rules).value), None)
    ensures !b.complete && edit(b.rules).Failure? ==> c == Call(b, Some(edit(b.rules).error))
  {
    if b.complete then Call(b, Some(Readonly(b.kind)))
    else match edit(b.rules)
      case Success(r) => Call(b.(rules := r), None)
      case Failure(e) => Call(b, Some(e))
  }

  /** `build`: refused once complete; otherwise the generator runs and the object becomes
      complete even when the generator throws, keeping whatever machine it left. */
  function Build<R, M>(b: Builder<R, M>, generate: R -> (M, Option<string>)): (c: Call<Builder<R, M>>)
    ensures b.complete ==> c == Call(b, Some(Readonly(b.kind)))
    ensures !b.complete ==> c.obj.complete && c.obj.rules == b.rules && c.obj.kind == b.kind &&
                            c.obj.sm == generate(b.rules).0 && c.exception == generate(b.rules).1
  {
    if b.complete then Call(b, Some(Readonly(b.kind)))
    else
      var (sm, error) := generate(b.rules);
      Call(Builder(b.kind, b.rules, sm, true), error)
  }

  /** The guard of every method that needs a built machine (`consume`, `advance`, `dump`,
      `reduceId`, `action`, `sigil`, `trace`, `validate`). */
  function NeedReady<R, M>(b: Builder<R, M>): (o: Option<string>)
    ensures o.None? <==> b.complete
    ensures o.Some? ==> o.value == NotReady(b.kind)
  {
    if b.complete then None else Some(NotReady(b.kind))
  }

  /** A call of the lifecycle, as seen by the `complete` flag. */
  datatype Op<!R, M> = EditOp(edit: R -> Result<R>) | BuildOp(generate: R -> (M, Option<string>)) | UseOp

  /** The object after a run of calls; a using call changes none of the builder state. */
  function Run<R, M>(b: Builder<R, M>, ops: seq<Op<R, M>>): Builder<R, M>
    decreases |ops|
  {
    if ops == [] then b
    else
      var next := match ops[0]
        case EditOp(f) => Edit(b, f).obj
        case BuildOp(g) => Build(b, g).obj
        case UseOp => b;
      Run(next, ops[1..])
  }

  /** The index of the first `build` in a run of calls, or its length if there is none. */
  function FirstBuild<R, M>(ops: seq<Op<R, M>>): (i: nat)
    ensures i <= |ops|
    ensures forall j :: 0 <= j < i ==> !ops[j].BuildOp?
    ensures i < |ops| ==> ops[i].BuildOp?
  {
    if ops == [] then 0 else if ops[0].BuildOp? then 0 else 1 + FirstBuild(ops[1..])
  }

  /** From a fresh object, a run of calls leaves it complete exactly when it contained a
      `build`; and once complete nothing changes the rules or the machine again. */
  lemma {:induction false} RunCompletesAtFirstBuild<R, M>(b: Builder<R, M>, ops: seq<Op<R, M>>)
    ensures Run(b, ops).kind == b.kind
    ensures Run(b, ops).complete <==> b.complete || FirstBuild(ops) < |ops|
    ensures b.complete ==> Run(b, ops) == b
    decreases |ops|
  {
    if ops != [] {
      var next := match ops[0]
        case EditOp(f) => Edit(b, f).obj
        case BuildOp(g) => Build(b, g).obj
        case UseOp => b;
      RunCompletesAtFirstBuild(next, ops[1..]);
    }
  }

  /** `Parle\Stack`: a stack of PHP values, the top at the end. */
  datatype Stack<V> = Stack(items: seq<V>)

  /** `empty`. */
  predicate IsEmpty<V>(s: Stack<V>) {
    s.items == []
  }

  /** `size`. */
  function Size<V>(s: Stack<V>): nat {
    |s.items|
  }

  /** `push($v)`: a copy of the value on top. */
  function Push<V>(s: Stack<V>, v: V): (r: Stack<V>)
    ensures Size(r) == Size(s) + 1 && !IsEmpty(r)
  {
    Stack(s.items + [v])
  }

  /** `pop()`: drop the top value; on an empty stack nothing happens. */
  function Pop<V>(s: Stack<V>): (r: Stack<V>)
    ensures IsEmpty(s) ==> r == s
    ensures !IsEmpty(s) ==> Size(r) == Size(s) - 1 && r.items == s.items[..Size(r)]
  {
    if s.items == [] then s else Stack(s.items[..|s.items| - 1])
  }

  /** `top()`: a copy of the top value, or NULL on an empty stack. */
  function Top<V>(s: Stack<V>): (o: Option<V>)
    ensures o.None? <==> IsEmpty(s)
    ensures o.Some? ==> o.value == s.items[Size(s) - 1]
  {
    if s.items == [] then None else Some(s.items[|s.items| - 1])
  }

  /** `top($v)`: replace the top value, or push it onto an empty stack. */
  function SetTop<V>(s: Stack<V>, v: V): (r: Stack<V>)
    ensures Top(r) == Some(v)
    ensures Size(r) == if IsEmpty(s) then 1 else Size(s)
    ensures Pop(r) == Pop(s)
  {
    if s.items == [] then Stack([v]) else Stack(s.items[..|s.items| - 1] + [v])
  }

  /** Last in, first out: a pushed value is the top, and popping it restores the stack. */
  lemma PushPop<V>(s: Stack<V>, v: V)
    ensures Top(Push(s, v)) == Some(v)
    ensures Pop(Push(s, v)) == s
  {
    assert (s.items + [v])[..|s.items|] == s.items;
  }

  /** Values pushed in turn come off in reverse order. */
  lemma {:induction false} PopsReverse<V>(s: Stack<V>, vs: seq<V>)
    ensures PushAll(s, vs).items == s.items + vs
    ensures PopTops(PushAll(s, vs), |vs|) == (Reverse(vs), s)
    decreases |vs|
  {
    if vs != [] {
      var last := vs[|vs| - 1];
      var init := vs[..|vs| - 1];
      PopsReverse(s, init);
      assert init + [last] == vs;
      var t := PushAll(s, init);
      PushPop(t, last);
      assert PopTops(Push(t, last), |vs|) ==
        ([last] + PopTops(t, |init|).0, PopTops(t, |init|).1);
    }
  }

  /** Push each value of `vs` in turn. */
  function PushAll<V>(s: Stack<V>, vs: seq<V>): Stack<V>
    decreases |vs|
  {
    if vs == [] then s else Push(PushAll(s, vs[..|vs| - 1]), vs[|vs| - 1])
  }

  /** Take `top()` and `pop()` `k` times: the values read and the stack left. */
  function PopTops<V>(s: Stack<V>, k: nat): (seq<V>, Stack<V>)
    decreases k
  {
    if k == 0 || IsEmpty(s) then ([], s)
    else
      var rest := PopTops(Pop(s), k - 1);
      ([Top(s).value] + rest.0, rest.1)
  }

  function Reverse<V>(vs: seq<V>): (r: seq<V>)
    ensures |r| == |vs|
    decreases |vs|
  {
    if vs == [] then [] else [vs[|vs| - 1]] + Reverse(vs[..|vs| - 1])
  }
}
