/** The query-string decoder of the bench (bench/parse_str.impl.php): a `Parle\Parser`
    subclass whose semantic actions turn `first=value&arr[]=foo&arr[k]=bar` into a PHP array.
    PHP arrays are ordered key/value lists here, with PHP's key normalisation; `urldecode`
    and `array_merge_recursive` are parameters, and the parser is seen through the run of
    actions it reports. */
module ParseStr {
  import opened Wrappers
  import Decimal
  import opened Parle
  import Grammar
  import ParleLexer
  import ParleParser
  import Debug

  /** A PHP array key: an integer, or a string that is not canonical integer text. */
  datatype Key = Index(n: int) | Name(s: string)

  /** The values the decoder builds: decoded strings and arrays of them. */
  datatype Value = Str(s: string) | Arr(entries: seq<Entry>)
  datatype Entry = Entry(key: Key, value: Value)

  const LongMin: int := -0x8000_0000_0000_0000
  const LongMax: int := 0x7FFF_FFFF_FFFF_FFFF

  /** Text PHP reads as an integer key: `0`, or digits without a leading zero, optionally
      after a minus sign (so not `-0`). */
  predicate Canonical(s: string) {
    s == "0" ||
    (|s| > 0 && Decimal.AllDigits(s) && s[0] != '0') ||
    (|s| > 1 && s[0] == '-' && Decimal.AllDigits(s[1..]) && s[1] != '0')
  }

  function IntOf(s: string): int
    requires Canonical(s)
  {
    if s[0] == '-' then 0 - Decimal.Value(s[1..]) else Decimal.Value(s)
  }

  /** The key a string becomes when used as an array index: canonical integer text within
      the range of a PHP integer turns into that integer, anything else stays a string. */
  function KeyOf(s: string): (k: Key)
    ensures k.Name? ==> k.s == s
    ensures k.Index? ==> Canonical(s) && LongMin <= k.n <= LongMax && k.n == IntOf(s)
  {
    if Canonical(s) && LongMin <= IntOf(s) <= LongMax then Index(IntOf(s)) else Name(s)
  }

  /** Every PHP integer, printed, is read back as the same integer key. */
  lemma KeyOfShown(n: int)
    requires LongMin <= n <= LongMax
    ensures KeyOf(ParleLexer.ShowInt(n)) == Index(n)
  {
    var s := ParleLexer.ShowInt(n);
    if n == 0 {
      assert Decimal.ShowNat(0) == "0";
    } else if n > 0 {
      assert s == Decimal.ShowNat(n) && s[0] != '-';
      assert Canonical(s);
    } else {
      assert s[1..] == Decimal.ShowNat(-n);
      assert Canonical(s);
    }
  }

  // ---------------------------------------------------------------------------------------
  // Ordered arrays

  function Keys(es: seq<Entry>): (ks: seq<Key>)
    ensures |ks| == |es|
    ensures forall i :: 0 <= i < |es| ==> ks[i] == es[i].key
  {
    if es == [] then [] else [es[0].key] + Keys(es[1..])
  }

  /** No key twice, as in every PHP array. */
  predicate UniqueKeys(es: seq<Entry>) {
    var ks := Keys(es);
    forall i, j :: 0 <= i < j < |ks| ==> ks[i] != ks[j]
  }

  /** `$a[$k]`: the value under `k`, if any. */
  function Find(es: seq<Entry>, k: Key): (o: Option<Value>)
    ensures o.None? <==> k !in Keys(es)
    ensures o.Some? ==> exists i :: 0 <= i < |es| && es[i] == Entry(k, o.value)
  {
    if es == [] then None
    else if es[0].key == k then Some(es[0].value)
    else Find(es[1..], k)
  }

  /** `$a[$k] = $v`: an existing key keeps its place and takes the new value; a new key goes
      at the end. */
  function Assign(es: seq<Entry>, k: Key, v: Value): (r: seq<Entry>)
    ensures k in Keys(es) ==> Keys(r) == Keys(es)
    ensures k !in Keys(es) ==> Keys(r) == Keys(es) + [k]
  {
    if es == [] then [Entry(k, v)]
    else if es[0].key == k then [Entry(k, v)] + es[1..]
    else [es[0]] + Assign(es[1..], k, v)
  }

  /** After an assignment the key reads the new value and every other key reads what it
      read before. */
  lemma {:induction false} AssignThenFind(es: seq<Entry>, k: Key, v: Value, j: Key)
    ensures Find(Assign(es, k, v), k) == Some(v)
    ensures j != k ==> Find(Assign(es, k, v), j) == Find(es, j)
  {
    if es != [] && es[0].key != k {
      AssignThenFind(es[1..], k, v, j);
      assert Assign(es, k, v)[1..] == Assign(es[1..], k, v);
    }
  }

  /** Assignment keeps the keys unique. */
  lemma AssignKeepsUnique(es: seq<Entry>, k: Key, v: Value)
    requires UniqueKeys(es)
    ensures UniqueKeys(Assign(es, k, v))
  {
  }

  /** The same for every other key at once. */
  lemma AssignFrame(es: seq<Entry>, k: Key, v: Value)
    ensures Find(Assign(es, k, v), k) == Some(v)
    ensures forall j :: j != k ==> Find(Assign(es, k, v), j) == Find(es, j)
  {
    forall j {
      AssignThenFind(es, k, v, j);
    }
  }

  /** A value can be falsy as a key: NULL, the empty string and `"0"`. */
  predicate Truthy(k: Option<string>) {
    k.Some? && k.value != "" && k.value != "0"
  }

  /** `$tmp = array(); if ($k) $tmp[$k] = $v; else $tmp[] = $v;`: a one-entry array, the
      entry appended (so at 0, the array being empty) when the key is falsy. */
  function Single(k: Option<string>, v: Value): (a: Value)
    ensures a.Arr? && |a.entries| == 1 && a.entries[0].value == v
    ensures !Truthy(k) ==> a.entries[0].key == Index(0)
    ensures Truthy(k) ==> a.entries[0].key == KeyOf(k.value)
  {
    if Truthy(k) then Arr([Entry(KeyOf(k.value), v)]) else Arr([Entry(Index(0), v)])
  }

  /** For a non-empty string key the falsy test changes nothing: `"0"` would have become the
      integer key 0 anyway. Only NULL, which as a direct key would be the empty string, is
      steered into the append slot. */
  lemma FalsyOnlyForNull(s: string, v: Value)
    ensures s != "" ==> Single(Some(s), v) == Arr([Entry(KeyOf(s), v)])
    ensures Single(None, v) != Arr([Entry(KeyOf(""), v)])
  {
    if s == "0" {
      assert Canonical(s) && IntOf(s) == Decimal.Value("0") == 0;
    }
    assert !Canonical("");
  }

  // ---------------------------------------------------------------------------------------
  // The semantic actions

  /** The parser's own state: the result being built and the stack of array keys. */
  datatype State = State(result: seq<Entry>, keys: Stack<Option<string>>)

  /** `$this->stack->top`: the top key, or NULL on an empty stack. */
  function TopKey(s: Stack<Option<string>>): (k: Option<string>)
    ensures IsEmpty(s) ==> k.None?
    ensures !IsEmpty(s) ==> k == s.items[|s.items| - 1]
  {
    match Top(s)
    case None => None
    case Some(k) => k
  }

  /** `handleEmptyDimensionKey`: `[]` pushes NULL. */
  function EmptyDimensionKey(st: State): (r: State)
    ensures r.result == st.result && r.keys.items == st.keys.items + [None]
  {
    st.(keys := Push(st.keys, None))
  }

  /** `handleDimensionKey`: `[key]` pushes the key's text. */
  function DimensionKey(st: State, key: string): (r: State)
    ensures r.result == st.result && r.keys.items == st.keys.items + [Some(key)]
  {
    st.(keys := Push(st.keys, Some(key)))
  }

  /** `handleScalar`: `result[name]` becomes the decoded value, whatever it held before. */
  function Scalar(st: State, name: string, val: string, decode: string -> string): (r: State)
    ensures r.keys == st.keys
    ensures Find(r.result, KeyOf(name)) == Some(Str(decode(val)))
    ensures forall j :: j != KeyOf(name) ==> Find(r.result, j) == Find(st.result, j)
  {
    AssignFrame(st.result, KeyOf(name), Str(decode(val)));
    st.(result := Assign(st.result, KeyOf(name), Str(decode(val))))
  }

  /** The reference nesting: the bottom (first pushed) key outermost, each later key one
      level further in, the value at the innermost level. */
  function Path(ks: seq<Option<string>>, leaf: Value): Value
    decreases |ks|
  {
    if ks == [] then leaf else Single(ks[0], Path(ks[1..], leaf))
  }

  /** The key pushed last wraps the value directly. */
  lemma {:induction false} PathSnoc(ks: seq<Option<string>>, k: Option<string>, leaf: Value)
    ensures Path(ks + [k], leaf) == Path(ks, Single(k, leaf))
    decreases |ks|
  {
    if ks == [] {
      assert [k][1..] == [];
    } else {
      assert (ks + [k])[1..] == ks[1..] + [k];
      PathSnoc(ks[1..], k, leaf);
    }
  }

  /** What `handleArray` builds from the key stack: the nesting of every key on it, or a
      single append slot when the stack is empty. */
  function Nested(ks: seq<Option<string>>, leaf: Value): (a: Value)
    ensures a.Arr?
  {
    if ks == [] then Single(None, leaf) else Path(ks, leaf)
  }

  /** The merge into `result[name]` (created as an empty array first when missing); the
      key stack is left empty. */
  function Merge(st: State, name: string, tmp: Value, merge: (Value, Value) -> Result<Value>): (r: Result<State>)
    ensures r.Failure? <==> merge(Find(st.result, KeyOf(name)).GetOr(Arr([])), tmp).Failure?
    ensures r.Success? ==>
              IsEmpty(r.value.keys) &&
              Find(r.value.result, KeyOf(name)) == Some(merge(Find(st.result, KeyOf(name)).GetOr(Arr([])), tmp).value) &&
              forall j :: j != KeyOf(name) ==> Find(r.value.result, j) == Find(st.result, j)
  {
    var k := KeyOf(name);
    var created := if Find(st.result, k).None? then Assign(st.result, k, Arr([])) else st.result;
    AssignThenFind(st.result, k, Arr([]), k);
    match merge(Find(created, k).value, tmp)
    case Failure(e) => Failure(e)
    case Success(m) =>
      AssignFrame(st.result, k, Arr([]));
      AssignFrame(created, k, m);
      Success(State(Assign(created, k, m), Stack([])))
  }

  /** `handleArray`: the functional reading. */
  function ArrayAction(st: State, name: string, val: string, decode: string -> string,
                       merge: (Value, Value) -> Result<Value>): Result<State>
  {
    Merge(st, name, Nested(st.keys.items, Str(decode(val))), merge)
  }

  /** `handleArray` as written: wrap the value in the top key, then pop the stack key by
      key, each popped key wrapping what was built so far, and merge the result. */
  method HandleArray(st: State, name: string, val: string, decode: string -> string,
                     merge: (Value, Value) -> Result<Value>) returns (r: Result<State>)
    ensures r == ArrayAction(st, name, val, decode, merge)
    ensures r.Success? ==> IsEmpty(r.value.keys)
  {
    var ks := st.keys.items;
    var leaf := Str(decode(val));
    var s := st.keys;
    var tmp := Single(TopKey(s), leaf);
    s := Pop(s);
    while !IsEmpty(s)
      invariant |s.items| <= |ks| && s.items == ks[..|s.items|]
      invariant ks != [] ==> tmp == Path(ks[|s.items|..], leaf)
      invariant ks == [] ==> tmp == Single(None, leaf)
      decreases Size(s)
    {
      var n := |s.items|;
      assert ks[n - 1..][1..] == ks[n..];
      tmp := Single(TopKey(s), tmp);
      s := Pop(s);
    }
    assert ks[0..] == ks;
    r := Merge(st, name, tmp, merge);
  }

  /** `a[x][y]=v`: the keys x and y pushed in turn give `[x => [y => v]]`. */
  lemma TwoLevels(x: string, y: string, leaf: Value)
    requires Truthy(Some(x)) && Truthy(Some(y))
    ensures Nested([Some(x), Some(y)], leaf) ==
              Arr([Entry(KeyOf(x), Arr([Entry(KeyOf(y), leaf)]))])
  {
    assert [Some(x), Some(y)][1..] == [Some(y)];
    assert [Some(y)][1..] == [];
    assert Path([Some(y)], leaf) == Single(Some(y), leaf);
  }

  // ---------------------------------------------------------------------------------------
  // Setting the parser up

  /** The handlers `production` may register. */
  datatype Handler = OnEmptyKey | OnKey | OnScalar | OnArray

  /** The subclass's tables: the directives and productions pushed into the parser, the
      lexer rules pushed into the lexer, the token maps and the handler of each production. */
  datatype Setup = Setup(declared: seq<(Grammar.Assoc, string)>, productions: seq<(string, string)>,
                         lexRules: seq<(string, nat)>, nameToId: map<string, nat>,
                         idToName: map<nat, string>, handlers: map<nat, Handler>)

  const Empty: Setup := Setup([], [], [], map[], map[], map[])

  /** The associativity words `terminal` accepts. */
  function AssocOf(word: string): (a: Option<Grammar.Assoc>)
    ensures a.Some? <==> word in {"left", "right", "token", "nonassoc"}
  {
    match word
    case "left" => Some(Grammar.LeftAssoc)
    case "right" => Some(Grammar.RightAssoc)
    case "token" => Some(Grammar.TokenAssoc)
    case "nonassoc" => Some(Grammar.NonAssoc)
    case _ => None
  }

  function UnknownAssoc(word: string): string {
    "Unknown associativity '" + word + "'."
  }

  /** `terminal($assoc, $sym, $reg)`: declare the token with its associativity, push its
      regex into the lexer under the token's parser id (`idOf` plays `tokenId`), and record
      the name and id both ways. An unknown associativity throws before anything happens. */
  function Terminal(s: Setup, assoc: string, sym: string, reg: string, idOf: string -> nat): (r: Result<Setup>)
    ensures r.Failure? <==> AssocOf(assoc).None?
    ensures r.Failure? ==> r.error == UnknownAssoc(assoc)
    ensures r.Success? ==>
              r.value.declared == s.declared + [(AssocOf(assoc).value, sym)] &&
              r.value.lexRules == s.lexRules + [(reg, idOf(sym))] &&
              r.value.nameToId.Keys == s.nameToId.Keys + {sym} && r.value.nameToId[sym] == idOf(sym) &&
              r.value.idToName.Keys == s.idToName.Keys + {idOf(sym)} && r.value.idToName[idOf(sym)] == sym &&
              (forall n :: n in s.nameToId && n != sym ==> r.value.nameToId[n] == s.nameToId[n]) &&
              (forall i :: i in s.idToName && i != idOf(sym) ==> r.value.idToName[i] == s.idToName[i]) &&
              r.value.productions == s.productions && r.value.handlers == s.handlers
  {
    match AssocOf(assoc)
    case None => Failure(UnknownAssoc(assoc))
    case Some(a) =>
      var id := idOf(sym);
      Success(s.(declared := s.declared + [(a, sym)], lexRules := s.lexRules + [(reg, id)],
                 nameToId := s.nameToId[sym := id], idToName := s.idToName[id := sym]))
  }

  /** `production($name, $rule, $handler)`: push the production (`pushId` plays `push`, which
      returns the production's id) and file the handler under that id only when one is given. */
  function Production(s: Setup, name: string, rule: string, handler: Option<Handler>,
                      pushId: (string, string) -> nat): (r: Setup)
    ensures r.productions == s.productions + [(name, rule)]
    ensures handler.None? ==> r.handlers == s.handlers
    ensures handler.Some? ==> r.handlers.Keys == s.handlers.Keys + {pushId(name, rule)} &&
                              r.handlers[pushId(name, rule)] == handler.value
    ensures forall i :: i in s.handlers && i != pushId(name, rule) ==> i in r.handlers && r.handlers[i] == s.handlers[i]
    ensures r.declared == s.declared && r.lexRules == s.lexRules && r.nameToId == s.nameToId && r.idToName == s.idToName
  {
    var id := pushId(name, rule);
    var s' := s.(productions := s.productions + [(name, rule)]);
    match handler
    case None => s'
    case Some(h) => s'.(handlers := s.handlers[id := h])
  }

  /** The terminals `init` declares: associativity, name, regex. */
  const Terminals: seq<(string, string, string)> := [
    ("left", "'='", "[=]"),
    ("token", "']'", "[\\]]"),
    ("right", "'['", "[\\[]"),
    ("left", "'&'", "[&]"),
    ("token", "T_STR", "[^=\\[\\]&\\s]+")
  ]

  /** The productions `init` pushes, with their handlers. */
  const Productions: seq<(string, string, Option<Handler>)> := [
    ("START", "PAIRS", None),
    ("PAIRS", "PAIR", None),
    ("PAIRS", "PAIRS '&' PAIR", None),
    ("VALUE", "", None),
    ("VALUE", "T_STR", None),
    ("ARRKEY", "", Some(OnEmptyKey)),
    ("ARRKEY", "T_STR", Some(OnKey)),
    ("ARRDIM", "'[' ARRKEY ']'", None),
    ("ARRDIM", "'[' ARRKEY ']' ARRDIM", None),
    ("PAIR", "T_STR ARRDIM '=' VALUE", Some(OnArray)),
    ("PAIR", "T_STR '=' VALUE", Some(OnScalar))
  ]

  function DeclareTerminals(s: Setup, ts: seq<(string, string, string)>, idOf: string -> nat): Result<Setup>
    decreases |ts|
  {
    if ts == [] then Success(s)
    else
      var s' :- Terminal(s, ts[0].0, ts[0].1, ts[0].2, idOf);
      DeclareTerminals(s', ts[1..], idOf)
  }

  function PushProductions(s: Setup, ps: seq<(string, string, Option<Handler>)>, pushId: (string, string) -> nat): Setup
    decreases |ps|
  {
    if ps == [] then s else PushProductions(Production(s, ps[0].0, ps[0].1, ps[0].2, pushId), ps[1..], pushId)
  }

  /** `init()` up to the two `build` calls, whose generators are not part of this model. */
  function Init(idOf: string -> nat, pushId: (string, string) -> nat): Result<Setup> {
    var s :- DeclareTerminals(Empty, Terminals, idOf);
    Success(PushProductions(s, Productions, pushId))
  }

  /** The bench's terminals use only associativity words `terminal` knows. */
  lemma TerminalsKnown()
    ensures forall i :: 0 <= i < |Terminals| ==> AssocOf(Terminals[i].0).Some?
  {
    forall i | 0 <= i < |Terminals| ensures AssocOf(Terminals[i].0).Some? {
      assert Terminals[i].0 in {"left", "right", "token"};
    }
  }

  /** Terminals with known associativity words all declare: the handlers and productions
      stay, and each pushes one lexer rule. */
  lemma {:induction false} DeclareTerminalsOk(s: Setup, ts: seq<(string, string, string)>, idOf: string -> nat)
    requires forall i :: 0 <= i < |ts| ==> AssocOf(ts[i].0).Some?
    ensures DeclareTerminals(s, ts, idOf).Success?
    ensures DeclareTerminals(s, ts, idOf).value.handlers == s.handlers
    ensures |DeclareTerminals(s, ts, idOf).value.lexRules| == |s.lexRules| + |ts|
    decreases |ts|
  {
    if ts != [] {
      var s' := Terminal(s, ts[0].0, ts[0].1, ts[0].2, idOf).value;
      DeclareTerminalsOk(s', ts[1..], idOf);
    }
  }

  /** The handlers productions `i` onwards file over `m`, later ones overwriting earlier. */
  function FiledFrom(m: map<nat, Handler>, ps: seq<(string, string, Option<Handler>)>, i: nat,
                     pushId: (string, string) -> nat): map<nat, Handler>
    decreases |ps| - i
  {
    if i >= |ps| then m
    else
      var m' := match ps[i].2
        case None => m
        case Some(h) => m[pushId(ps[i].0, ps[i].1) := h];
      FiledFrom(m', ps, i + 1, pushId)
  }

  /** Pushing productions files their handlers and nothing else. */
  lemma {:induction false} PushProductionsFiles(s: Setup, ps: seq<(string, string, Option<Handler>)>, i: nat,
                                                pushId: (string, string) -> nat)
    requires i <= |ps|
    ensures PushProductions(s, ps[i..], pushId).handlers == FiledFrom(s.handlers, ps, i, pushId)
    ensures PushProductions(s, ps[i..], pushId).lexRules == s.lexRules
    decreases |ps| - i
  {
    if i < |ps| {
      assert ps[i..][0] == ps[i] && ps[i..][1..] == ps[i + 1..];
      PushProductionsFiles(Production(s, ps[i].0, ps[i].1, ps[i].2, pushId), ps, i + 1, pushId);
    }
  }

  /** `init` never throws, pushes one lexer rule per terminal, and leaves exactly the four
      handler productions with handlers, once the parser numbers them apart. */
  lemma InitTables(idOf: string -> nat, pushId: (string, string) -> nat)
    requires var ids := [pushId("ARRKEY", ""), pushId("ARRKEY", "T_STR"),
                         pushId("PAIR", "T_STR ARRDIM '=' VALUE"), pushId("PAIR", "T_STR '=' VALUE")];
             forall i, j :: 0 <= i < j < |ids| ==> ids[i] != ids[j]
    ensures Init(idOf, pushId).Success?
    ensures Init(idOf, pushId).value.handlers ==
              map[pushId("ARRKEY", "") := OnEmptyKey, pushId("ARRKEY", "T_STR") := OnKey,
                  pushId("PAIR", "T_STR ARRDIM '=' VALUE") := OnArray, pushId("PAIR", "T_STR '=' VALUE") := OnScalar]
    ensures |Init(idOf, pushId).value.lexRules| == |Terminals|
  {
    TerminalsKnown();
    DeclareTerminalsOk(Empty, Terminals, idOf);
    var s := DeclareTerminals(Empty, Terminals, idOf).value;
    PushProductionsFiles(s, Productions, 0, pushId);
    assert Productions[0..] == Productions;
    FiledProductions(pushId);
  }

  /** The handlers of the bench's own productions. */
  lemma FiledProductions(pushId: (string, string) -> nat)
    requires var ids := [pushId("ARRKEY", ""), pushId("ARRKEY", "T_STR"),
                         pushId("PAIR", "T_STR ARRDIM '=' VALUE"), pushId("PAIR", "T_STR '=' VALUE")];
             forall i, j :: 0 <= i < j < |ids| ==> ids[i] != ids[j]
    ensures FiledFrom(map[], Productions, 0, pushId) ==
              map[pushId("ARRKEY", "") := OnEmptyKey, pushId("ARRKEY", "T_STR") := OnKey,
                  pushId("PAIR", "T_STR ARRDIM '=' VALUE") := OnArray, pushId("PAIR", "T_STR '=' VALUE") := OnScalar]
  {
    var ps := Productions;
    var m1 := map[pushId("ARRKEY", "") := OnEmptyKey];
    var m2 := m1[pushId("ARRKEY", "T_STR") := OnKey];
    FiledSkips(map[], ps, 0, 5, pushId);
    assert FiledFrom(map[], ps, 5, pushId) == FiledFrom(m2, ps, 7, pushId);
    FiledSkips(m2, ps, 7, 9, pushId);
    var m3 := m2[pushId("PAIR", "T_STR ARRDIM '=' VALUE") := OnArray];
    assert FiledFrom(m2, ps, 9, pushId) == FiledFrom(m3[pushId("PAIR", "T_STR '=' VALUE") := OnScalar], ps, 11, pushId);
  }

  /** Productions without handlers file nothing. */
  lemma {:induction false} FiledSkips(m: map<nat, Handler>, ps: seq<(string, string, Option<Handler>)>, i: nat, j: nat,
                                      pushId: (string, string) -> nat)
    requires i <= j <= |ps| && forall k :: i <= k < j ==> ps[k].2.None?
    ensures FiledFrom(m, ps, i, pushId) == FiledFrom(m, ps, j, pushId)
    decreases j - i
  {
    if i < j {
      FiledSkips(m, ps, i + 1, j, pushId);
    }
  }

  // ---------------------------------------------------------------------------------------
  // The parse loop

  /** The parse errors `errorInfo()` reports. */
  datatype ErrorKind = SyntaxError | NonAssociative | UnknownToken

  /** One value of `$this->action` between `consume` and accept, with what the loop reads
      about it: the reduced production's id and the texts of its rhs symbols (`sigil`), or
      the error's kind, position and offending token. */
  datatype Step =
    | Shifted
    | WentTo
    | Reduced(id: nat, sigils: seq<string>)
    | Failed(kind: ErrorKind, position: nat, tokenId: nat, tokenValue: string)
    | Accepted

  /** `sigil($k)` for the production being reduced. */
  function Sigil(sigils: seq<string>, k: nat): (r: Result<string>)
    ensures r.Success? <==> k < |sigils|
    ensures r.Success? ==> r.value == sigils[k]
    ensures r.Failure? ==> r.error == ParleParser.InvalidIndex
  {
    if k < |sigils| then Success(sigils[k]) else Failure(ParleParser.InvalidIndex)
  }

  /** The reduce branch: call the production's handler, when it has one. */
  function OnReduce(st: State, handlers: map<nat, Handler>, id: nat, sigils: seq<string>,
                    decode: string -> string, merge: (Value, Value) -> Result<Value>): (r: Result<State>)
    ensures id !in handlers ==> r == Success(st)
    ensures id in handlers && handlers[id] == OnEmptyKey ==> r == Success(EmptyDimensionKey(st))
    ensures id in handlers && handlers[id] == OnKey ==>
              (r.Success? <==> |sigils| > 0) && (r.Success? ==> r.value == DimensionKey(st, sigils[0]))
    ensures id in handlers && handlers[id] == OnScalar && |sigils| > 2 ==> r == Success(Scalar(st, sigils[0], sigils[2], decode))
    ensures id in handlers && handlers[id] == OnArray && |sigils| > 3 ==> r == ArrayAction(st, sigils[0], sigils[3], decode, merge)
  {
    if id !in handlers then Success(st)
    else match handlers[id]
      case OnEmptyKey => Success(EmptyDimensionKey(st))
      case OnKey =>
        var key :- Sigil(sigils, 0);
        Success(DimensionKey(st, key))
      case OnScalar =>
        var name :- Sigil(sigils, 0);
        var val :- Sigil(sigils, 2);
        Success(Scalar(st, name, val, decode))
      case OnArray =>
        var name :- Sigil(sigils, 0);
        var val :- Sigil(sigils, 3);
        ArrayAction(st, name, val, decode, merge)
  }

  /** The non-associative token's message as written: no space between the token name and
      "is". */
  function NonAssociativeAsWritten(name: string): string {
    "Token " + name + "is not associative"
  }

  /** The message with the space the sentence needs. */
  function NonAssociativeMessage(name: string): string {
    "Token " + name + " is not associative"
  }

  /** Split on spaces, the message as written glues the token name to "is": the two
      messages differ for every name. */
  lemma NonAssociativeRunsTogether(name: string)
    requires ' ' !in name
    ensures Debug.Split(NonAssociativeAsWritten(name), ' ') == ["Token", name + "is", "not", "associative"]
    ensures NonAssociativeAsWritten(name) != NonAssociativeMessage(name)
  {
    var w := name + "is";
    var ws := ["Token", w, "not", "associative"];
    assert ' ' !in w;
    assert Debug.Free(ws, ' ');
    JoinTail(w, ["not", "associative"]);
    JoinTail("Token", [w, "not", "associative"]);
    assert Debug.Join(ws, ' ') == NonAssociativeAsWritten(name);
    Debug.SplitJoin(ws, ' ');
    var e := |"Token " + name|;
    assert NonAssociativeAsWritten(name)[e] == 'i' && NonAssociativeMessage(name)[e] == ' ';
  }

  /** In the corrected message a token name without spaces stands as its own word. */
  lemma NonAssociativeWords(name: string)
    requires ' ' !in name
    ensures Debug.Split(NonAssociativeMessage(name), ' ') == ["Token", name, "is", "not", "associative"]
  {
    var ws := ["Token", name, "is", "not", "associative"];
    assert Debug.Free(ws, ' ');
    JoinTail("is", ["not", "associative"]);
    JoinTail(name, ["is", "not", "associative"]);
    JoinTail("Token", [name, "is", "not", "associative"]);
    assert Debug.Join(ws, ' ') == NonAssociativeMessage(name);
    Debug.SplitJoin(ws, ' ');
  }

  /** One more word in front, a space after it; the last two words of the messages. */
  lemma JoinTail(w: string, ws: seq<string>)
    requires ws != []
    ensures Debug.Join([w] + ws, ' ') == w + " " + Debug.Join(ws, ' ')
    ensures Debug.Join(["not", "associative"], ' ') == "not associative"
  {
    assert ([w] + ws)[1..] == ws;
    assert ["not", "associative"][1..] == ["associative"];
  }

  /** The exception an error action throws, with the non-associative message as written. An
      id with no recorded name reads as the empty string. */
  function ErrorMessage(s: Setup, kind: ErrorKind, position: nat, tokenId: nat, tokenValue: string): string {
    match kind
    case SyntaxError => "Syntax error at " + Decimal.ShowNat(position)
    case NonAssociative =>
      NonAssociativeAsWritten(if tokenId in s.idToName then s.idToName[tokenId] else "")
    case UnknownToken => "Unknown token '" + tokenValue + "' at " + Decimal.ShowNat(position)
  }

  /** The loop `while (ACCEPT != action) { ...; advance(); }` over the actions the parser
      reports; running out of them means the loop has not finished. */
  function Run(s: Setup, st: State, steps: seq<Step>, decode: string -> string,
               merge: (Value, Value) -> Result<Value>): (o: Outcome<seq<Entry>>)
    ensures o != Crashed
    decreases |steps|
  {
    if steps == [] then OutOfFuel
    else match steps[0]
      case Accepted => Returned(st.result)
      case Failed(kind, pos, id, value) => Threw(ErrorMessage(s, kind, pos, id, value))
      case Shifted => Run(s, st, steps[1..], decode, merge)
      case WentTo => Run(s, st, steps[1..], decode, merge)
      case Reduced(id, sigils) =>
        match OnReduce(st, s.handlers, id, sigils, decode, merge)
        case Failure(e) => Threw(e)
        case Success(st') => Run(s, st', steps[1..], decode, merge)
  }

  /** `parse($in)`: a fresh result and key stack, then the loop. */
  function Parse(s: Setup, steps: seq<Step>, decode: string -> string,
                 merge: (Value, Value) -> Result<Value>): Outcome<seq<Entry>>
  {
    Run(s, State([], Stack([])), steps, decode, merge)
  }

  /** `parse_str($in)`: a new parser, `init`, then `parse`. */
  function ParseString(idOf: string -> nat, pushId: (string, string) -> nat, steps: seq<Step>,
                       decode: string -> string, merge: (Value, Value) -> Result<Value>): Outcome<seq<Entry>>
  {
    match Init(idOf, pushId)
    case Failure(e) => Threw(e)
    case Success(s) => Parse(s, steps, decode, merge)
  }

  /** The actions before accept or an error, applied in turn. */
  predicate Ongoing(steps: seq<Step>) {
    forall i :: 0 <= i < |steps| ==> !steps[i].Accepted? && !steps[i].Failed?
  }

  function Apply(handlers: map<nat, Handler>, st: State, steps: seq<Step>, decode: string -> string,
                 merge: (Value, Value) -> Result<Value>): Result<State>
    decreases |steps|
  {
    if steps == [] then Success(st)
    else
      var st' :- if steps[0].Reduced? then OnReduce(st, handlers, steps[0].id, steps[0].sigils, decode, merge)
                 else Success(st);
      Apply(handlers, st', steps[1..], decode, merge)
  }

  /** The loop is the running of its actions in turn: after a stretch of shifts, gotos and
      reduces it goes on from the state they leave, or throws what a handler threw. */
  lemma {:induction false} RunSplits(s: Setup, st: State, pre: seq<Step>, post: seq<Step>,
                                     decode: string -> string, merge: (Value, Value) -> Result<Value>)
    requires Ongoing(pre)
    ensures Apply(s.handlers, st, pre, decode, merge).Success? ==>
              Run(s, st, pre + post, decode, merge) == Run(s, Apply(s.handlers, st, pre, decode, merge).value, post, decode, merge)
    ensures Apply(s.handlers, st, pre, decode, merge).Failure? ==>
              Run(s, st, pre + post, decode, merge) == Threw(Apply(s.handlers, st, pre, decode, merge).error)
    decreases |pre|
  {
    if pre != [] {
      assert (pre + post)[0] == pre[0] && (pre + post)[1..] == pre[1..] + post;
      assert !pre[0].Accepted? && !pre[0].Failed?;
      assert Ongoing(pre[1..]) by {
        forall i | 0 <= i < |pre[1..]| ensures !pre[1..][i].Accepted? && !pre[1..][i].Failed? {
          assert pre[1..][i] == pre[i + 1];
        }
      }
      if pre[0].Reduced? {
        var r := OnReduce(st, s.handlers, pre[0].id, pre[0].sigils, decode, merge);
        if r.Success? {
          RunSplits(s, r.value, pre[1..], post, decode, merge);
        }
      } else {
        RunSplits(s, st, pre[1..], post, decode, merge);
      }
    } else {
      assert pre + post == post;
    }
  }

  /** `parse` returns the result the handlers built by the time the parser accepts, and
      throws the message of an error action that comes first. */
  lemma ParseEnds(s: Setup, pre: seq<Step>, last: Step, post: seq<Step>,
                  decode: string -> string, merge: (Value, Value) -> Result<Value>)
    requires Ongoing(pre) && (last.Accepted? || last.Failed?)
    ensures var a := Apply(s.handlers, State([], Stack([])), pre, decode, merge);
      && (a.Failure? ==> Parse(s, pre + [last] + post, decode, merge) == Threw(a.error))
      && (a.Success? && last.Accepted? ==> Parse(s, pre + [last] + post, decode, merge) == Returned(a.value.result))
      && (a.Success? && last.Failed? ==>
            Parse(s, pre + [last] + post, decode, merge) ==
              Threw(ErrorMessage(s, last.kind, last.position, last.tokenId, last.tokenValue)))
    ensures var a := Apply(s.handlers, State([], Stack([])), pre, decode, merge);
      a.Success? && last.Failed? && last.kind == NonAssociative && last.tokenId in s.idToName ==>
        Parse(s, pre + [last] + post, decode, merge) == Threw(NonAssociativeAsWritten(s.idToName[last.tokenId]))
  {
    assert pre + [last] + post == pre + ([last] + post);
    RunSplits(s, State([], Stack([])), pre, [last] + post, decode, merge);
  }

  /** Only an accept returns: a returned result means an accept came before any error. */
  lemma {:induction false} ReturnsOnlyAfterAccept(s: Setup, st: State, steps: seq<Step>,
                                                  decode: string -> string, merge: (Value, Value) -> Result<Value>)
    ensures Run(s, st, steps, decode, merge).Returned? ==>
              exists i :: 0 <= i < |steps| && steps[i].Accepted? && Ongoing(steps[..i])
    decreases |steps|
  {
    if steps != [] && !steps[0].Accepted? && !steps[0].Failed? && Run(s, st, steps, decode, merge).Returned? {
      var st' := if steps[0].Reduced? then OnReduce(st, s.handlers, steps[0].id, steps[0].sigils, decode, merge).value else st;
      ReturnsOnlyAfterAccept(s, st', steps[1..], decode, merge);
      var i :| 0 <= i < |steps[1..]| && steps[1..][i].Accepted? && Ongoing(steps[1..][..i]);
      assert steps[..i + 1] == [steps[0]] + steps[1..][..i];
      var pre := steps[..i + 1];
      assert Ongoing(pre) by {
        forall j | 0 <= j < |pre| ensures !pre[j].Accepted? && !pre[j].Failed? {
          if j > 0 {
            assert pre[j] == steps[1..][..i][j - 1];
          }
        }
      }
      assert steps[i + 1] == steps[1..][i];
    } else if steps != [] && steps[0].Accepted? {
      assert steps[..0] == [];
    }
  }

  /** `a=1`: the scalar pair's reduce stores the decoded value under `a`. */
  lemma ScalarPair(s: Setup, id: nat, decode: string -> string, merge: (Value, Value) -> Result<Value>)
    requires id in s.handlers && s.handlers[id] == OnScalar
    ensures Parse(s, [Shifted, Reduced(id, ["a", "=", "1"]), Accepted], decode, merge) ==
              Returned([Entry(Name("a"), Str(decode("1")))])
  {
    var steps := [Shifted, Reduced(id, ["a", "=", "1"]), Accepted];
    assert steps[1..] == [Reduced(id, ["a", "=", "1"]), Accepted] && steps[1..][1..] == [Accepted];
    assert KeyOf("a") == Name("a") by {
      assert !Canonical("a");
    }
    var st0 := State([], Stack([]));
    var st := Scalar(st0, "a", "1", decode);
    assert st.result == [Entry(Name("a"), Str(decode("1")))];
    assert OnReduce(st0, s.handlers, id, ["a", "=", "1"], decode, merge) == Success(st);
    assert Run(s, st0, steps, decode, merge) == Run(s, st0, steps[1..], decode, merge);
    assert Run(s, st0, steps[1..], decode, merge) == Run(s, st, [Accepted], decode, merge);
  }

  /** `a[x]=1`: the key handler pushes `x`, then the array pair's reduce nests the value under
      it and merges the nesting into the fresh `a` entry. */
  lemma ArrayPair(s: Setup, keyId: nat, pairId: nat, decode: string -> string, merge: (Value, Value) -> Result<Value>)
    requires keyId in s.handlers && s.handlers[keyId] == OnKey
    requires pairId in s.handlers && s.handlers[pairId] == OnArray
    requires var t := Arr([Entry(Name("x"), Str(decode("1")))]); merge(Arr([]), t) == Success(t)
    ensures Parse(s, [Reduced(keyId, ["x"]), Reduced(pairId, ["a", "[x]", "=", "1"]), Accepted], decode, merge) ==
              Returned([Entry(Name("a"), Arr([Entry(Name("x"), Str(decode("1")))]))])
  {
    var steps := [Reduced(keyId, ["x"]), Reduced(pairId, ["a", "[x]", "=", "1"]), Accepted];
    assert steps[1..] == [Reduced(pairId, ["a", "[x]", "=", "1"]), Accepted] && steps[1..][1..] == [Accepted];
    assert KeyOf("a") == Name("a") && KeyOf("x") == Name("x") by {
      assert !Canonical("a") && !Canonical("x");
    }
    var st0 := State([], Stack([]));
    var st := DimensionKey(st0, "x");
    assert st.keys.items == [Some("x")];
    var t := Arr([Entry(Name("x"), Str(decode("1")))]);
    assert Nested(st.keys.items, Str(decode("1"))) == t by {
      assert [Some("x")][1..] == [];
    }
    assert Find(st.result, Name("a")) == None;
    assert Assign([Entry(Name("a"), Arr([]))], Name("a"), t) == [Entry(Name("a"), t)];
    var r := ArrayAction(st, "a", "1", decode, merge);
    assert r == Success(State([Entry(Name("a"), t)], Stack([])));
    assert OnReduce(st0, s.handlers, keyId, ["x"], decode, merge) == Success(st);
    assert Run(s, st0, steps, decode, merge) == Run(s, st, steps[1..], decode, merge);
    assert Run(s, st, steps[1..], decode, merge) == Run(s, r.value, [Accepted], decode, merge);
  }
}
