/** lexertl's `basic_re_tokeniser_state`: the cursor the regex tokeniser reads a rule's
    pattern with. The pattern is the text between `_start` and `_end`; the cursor is
    kept as an offset from `_start`, so `index` is the offset itself. */
module ReTokeniserState {
  import opened Wrappers
  import opened Decimal

  datatype State = State(
    text: string,
    curr: nat,
    id: nat,
    flags: nat,
    flagsStack: seq<nat>,
    macroName: Option<string>,
    parenCount: int,
    inString: bool,
    nlId: nat)

  /** `2^bits`. */
  function Pow2(bits: nat): (p: nat)
    ensures p >= 1
  {
    if bits == 0 then 1 else 2 * Pow2(bits - 1)
  }

  /** `static_cast<id_type>(~0)` for an id type of `bits` bits. */
  function AllOnes(bits: nat): (n: nat)
    ensures n + 1 == Pow2(bits)
  {
    Pow2(bits) - 1
  }

  /** The constructor: the cursor at the start, no open parentheses, not inside a string,
      and no newline id (all ones). */
  function Make(text: string, id: nat, flags: nat, macroName: Option<string>, idBits: nat): (s: State)
    ensures s.text == text && s.curr == 0 && s.id == id && s.flags == flags
    ensures s.flagsStack == [] && s.macroName == macroName
    ensures s.parenCount == 0 && !s.inString && s.nlId + 1 == Pow2(idBits)
  {
    State(text, 0, id, flags, [], macroName, 0, false, AllOnes(idBits))
  }

  /** `eos`: the cursor is at or past the end. */
  predicate Eos(s: State) {
    s.curr >= |s.text|
  }

  /** `index`: how far the cursor is from the start. */
  function Index(s: State): nat {
    s.curr
  }

  /** `increment`: one character on. */
  function Increment(s: State): (r: State)
    ensures Index(r) == Index(s) + 1 && r.text == s.text
  {
    s.(curr := s.curr + 1)
  }

  /** What `next` reports: whether the end was reached, and the character read (NUL at the
      end). */
  datatype Read = Read(state: State, atEnd: bool, ch: char)

  /** `next`: at or past the end, report the end with a NUL and stay put; otherwise read the
      current character and step over it. */
  function Next(s: State): (r: Read)
    ensures r.atEnd <==> Eos(s)
    ensures r.atEnd ==> r.ch == '\0' && r.state == s
    ensures !r.atEnd ==> r.ch == s.text[Index(s)] && r.state == Increment(s)
  {
    if s.curr >= |s.text| then Read(s, true, '\0') else Read(Increment(s), false, s.text[s.curr])
  }

  /** Reading with `next` until it reports the end. */
  method ReadAll(s0: State) returns (read: string, s: State)
    ensures read == if Eos(s0) then [] else s0.text[Index(s0)..]
    ensures Eos(s) && s.text == s0.text
    ensures Index(s) == if Eos(s0) then Index(s0) else |s0.text|
  {
    s := s0;
    read := [];
    var done := false;
    while !done
      invariant s.text == s0.text && s == s0.(curr := s.curr)
      invariant !Eos(s0) ==> Index(s0) <= Index(s) <= |s.text| && read == s0.text[Index(s0)..Index(s)]
      invariant Eos(s0) ==> s == s0 && read == []
      invariant done ==> Eos(s)
      decreases |s.text| - s.curr, !done
    {
      var r := Next(s);
      if r.atEnd {
        done := true;
      } else {
        read := read + [r.ch];
        s := r.state;
      }
    }
  }

  /** Within the pattern every `next` moves exactly one character: `k` reads that stay
      within it move the cursor by `k` and change nothing else. */
  lemma {:induction false} NextReadsInOrder(s: State, k: nat)
    requires s.curr + k <= |s.text|
    ensures Steps(s, k) == s.(curr := s.curr + k)
    decreases k
  {
    if k > 0 {
      NextReadsInOrder(Next(s).state, k - 1);
    }
  }

  /** `k` calls of `next`. */
  function Steps(s: State, k: nat): State
    decreases k
  {
    if k == 0 then s else Steps(Next(s).state, k - 1)
  }

  /** Once at the end, `next` is stuck: any number of further calls changes nothing. */
  lemma {:induction false} NextAtEndStays(s: State, k: nat)
    requires Eos(s)
    ensures Steps(s, k) == s
    decreases k
  {
    if k > 0 {
      NextAtEndStays(s, k - 1);
    }
  }

  /** `unexpected_end`. */
  const UnexpectedEnd: string := "Unexpected end of regex"

  /** `error`: where the regex was, by macro name when there is one, else by rule id. */
  function ErrorSuffix(s: State): (m: string)
    ensures |m| >= 5 && m[..4] == " in " && m[|m| - 1] == '.'
    ensures s.macroName.Some? ==> m == " in MACRO '" + s.macroName.value + "'."
    ensures s.macroName.None? ==> |m| > 12 && m[4..12] == "rule id " && m[12..|m| - 1] == ShowNat(s.id)
  {
    match s.macroName
    case Some(name) => " in MACRO '" + name + "'."
    case None =>
      var m := " in rule id " + ShowNat(s.id) + ".";
      assert m[4..12] == "rule id ";
      m
  }

  /** A rule-id error names the rule unambiguously: two states without a macro name give
      the same message only for the same rule id. */
  lemma ErrorSuffixIdentifiesRule(a: State, b: State)
    requires a.macroName.None? && b.macroName.None?
    requires ErrorSuffix(a) == ErrorSuffix(b)
    ensures a.id == b.id
  {
    ShowNatInjective(a.id, b.id);
  }
}
