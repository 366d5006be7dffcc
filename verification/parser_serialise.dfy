/** parsertl's text serialisation of a parser state machine (`save`/`load`), for the
    `uint16_t` machine. It reuses lexertl's vector format for each rule's rhs. */
module ParserSerialise {
  import opened Wrappers
  import opened Decimal
  import opened ParserStateMachine
  import LexerSerialise

  const IdSize: nat := 2
  const IdMismatch: string := "id_type mismatch in parsertl::load()"

  /** `static_cast<std::size_t>(action)`: the position in the enumeration. */
  function ActionCode(a: Action): (n: nat)
    ensures n < 5
  {
    match a
    case Error => 0
    case Shift => 1
    case Reduce => 2
    case GoTo => 3
    case Accept => 4
  }

  /** `static_cast<action>(n)`; a number past the last enumerator names no action. */
  function DecodeAction(n: nat): (a: Option<Action>)
    ensures a.Some? <==> n < 5
    ensures a.Some? ==> ActionCode(a.value) == n
  {
    if n == 0 then Some(Error)
    else if n == 1 then Some(Shift)
    else if n == 2 then Some(Reduce)
    else if n == 3 then Some(GoTo)
    else if n == 4 then Some(Accept)
    else None
  }

  /** The action codes are a bijection between the actions and 0 to 4. */
  lemma DecodeActionCode(a: Action)
    ensures DecodeAction(ActionCode(a)) == Some(a)
  {
  }

  // ---- Lists ----

  /** The texts of `xs`, one after the other. */
  function SaveMany<T>(xs: seq<T>, show: T -> string): string
    decreases |xs|
  {
    if xs == [] then "" else show(xs[0]) + SaveMany(xs[1..], show)
  }

  /** `k` items, each read by `item`. */
  function ReadMany<T>(s: string, k: nat, item: string -> Option<(T, string)>): (o: Option<(seq<T>, string)>)
    ensures o.Some? ==> |o.value.0| == k
    decreases k
  {
    if k == 0 then Some(([], s))
    else
      var a :- item(s);
      var b :- ReadMany(a.1, k - 1, item);
      Some(([a.0] + b.0, b.1))
  }

  lemma ReadManyStep<T>(s: string, k: nat, k': nat, item: string -> Option<(T, string)>,
                        x: T, mid: string, xs: seq<T>, end: string)
    requires k == k' + 1 && item(s) == Some((x, mid)) && ReadMany(mid, k', item) == Some((xs, end))
    ensures ReadMany(s, k, item) == Some(([x] + xs, end))
  {
  }

  /** An item reader inverts an item writer on `xs` when it reads back each item's text,
      with leading white space skipped, whatever follows. */
  ghost predicate Inverts<T>(xs: seq<T>, show: T -> string, item: string -> Option<(T, string)>) {
    forall i, rest :: 0 <= i < |xs| ==> item(SkipSpace(show(xs[i]) + rest)) == Some((xs[i], SkipSpace(rest)))
  }

  /** Reading back a list: each item's reader inverts its writer. */
  lemma {:induction false} ReadSaveMany<T>(xs: seq<T>, show: T -> string, item: string -> Option<(T, string)>, rest: string)
    requires Inverts(xs, show, item)
    ensures ReadMany(SkipSpace(SaveMany(xs, show) + rest), |xs|, item) == Some((xs, SkipSpace(rest)))
    decreases |xs|
  {
    if xs == [] {
      assert SaveMany(xs, show) + rest == rest;
    } else {
      var s := SkipSpace(SaveMany(xs, show) + rest);
      var tail := SaveMany(xs[1..], show) + rest;
      var mid := SkipSpace(tail);
      assert SaveMany(xs, show) + rest == show(xs[0]) + tail;
      assert item(s) == Some((xs[0], mid));
      assert Inverts(xs[1..], show, item) by {
        forall i, r | 0 <= i < |xs[1..]|
          ensures item(SkipSpace(show(xs[1..][i]) + r)) == Some((xs[1..][i], SkipSpace(r)))
        {
          assert xs[1..][i] == xs[i + 1];
        }
      }
      ReadSaveMany(xs[1..], show, item, rest);
      ReadManyStep(s, |xs|, |xs[1..]|, item, xs[0], mid, xs[1..], SkipSpace(rest));
      LexerSerialise.ConsHeadTail(xs);
    }
  }

  /** A count line, then the items. */
  function SaveCounted<T>(xs: seq<T>, show: T -> string): string {
    LexerSerialise.Line(|xs|) + SaveMany(xs, show)
  }

  function ReadCounted<T>(s: string, item: string -> Option<(T, string)>): (o: Option<(seq<T>, string)>) {
    var n :- ReadNat(s);
    ReadMany(n.1, n.0, item)
  }

  lemma ReadSaveCounted<T>(xs: seq<T>, show: T -> string, item: string -> Option<(T, string)>, rest: string)
    requires Inverts(xs, show, item)
    ensures ReadCounted(SaveCounted(xs, show) + rest, item) == Some((xs, SkipSpace(rest)))
  {
    var tail := SaveMany(xs, show) + rest;
    assert SaveCounted(xs, show) + rest == LexerSerialise.Line(|xs|) + tail;
    LexerSerialise.ReadLine(|xs|, tail);
    ReadSaveMany(xs, show, item, rest);
  }

  lemma ReadCountedSkipsSpace<T>(s: string, item: string -> Option<(T, string)>)
    ensures ReadCounted(SkipSpace(s), item) == ReadCounted(s, item)
  {
    ReadNatSkipsSpace(s);
  }

  // ---- Items ----

  /** A rule: its lhs on a line, then its rhs with `output_vec`. */
  function SaveRule(r: Rule): string {
    LexerSerialise.Line(r.lhs) + LexerSerialise.OutputVec(r.rhs)
  }

  function ReadRule(s: string): (o: Option<(Rule, string)>) {
    var lhs :- LexerSerialise.ReadId(s);
    var rhs :- LexerSerialise.InputVec([], lhs.1);
    Some((Rule(lhs.0, rhs.0), rhs.1))
  }

  predicate RuleFits(r: Rule) {
    r.lhs < LexerSerialise.IdRange && LexerSerialise.FitsId(r.rhs)
  }

  lemma ReadSaveRule(r: Rule, rest: string)
    requires RuleFits(r)
    ensures ReadRule(SkipSpace(SaveRule(r) + rest)) == Some((r, SkipSpace(rest)))
  {
    var tail := LexerSerialise.OutputVec(r.rhs) + rest;
    assert SaveRule(r) + rest == LexerSerialise.Line(r.lhs) + tail;
    LexerSerialise.ReadIdSkipsSpace(SaveRule(r) + rest);
    LexerSerialise.ReadIdLine(r.lhs, tail);
    LexerSerialise.InputVecSkipsSpace([], tail);
    LexerSerialise.InputOutputVec([], r.rhs, rest);
    assert [] + r.rhs == r.rhs;
  }

  /** A capture pair: `first second` on a line. */
  function SavePair(p: (nat, nat)): string {
    ShowNat(p.0) + (" " + LexerSerialise.Line(p.1))
  }

  /** Each number is cast to `uint16_t`. */
  function ReadPair(s: string): (o: Option<((nat, nat), string)>) {
    var a :- ReadNat(s);
    var b :- ReadNat(a.1);
    Some(((LexerSerialise.Cast(a.0), LexerSerialise.Cast(b.0)), b.1))
  }

  predicate PairFits(p: (nat, nat)) {
    p.0 < LexerSerialise.IdRange && p.1 < LexerSerialise.IdRange
  }

  lemma ReadSavePair(p: (nat, nat), rest: string)
    requires PairFits(p)
    ensures ReadPair(SkipSpace(SavePair(p) + rest)) == Some((p, SkipSpace(rest)))
  {
    var tail := LexerSerialise.Line(p.1) + rest;
    assert SavePair(p) + rest == ShowNat(p.0) + (" " + tail);
    ReadNatSkipsSpace(SavePair(p) + rest);
    LexerSerialise.ReadWord(p.0, tail);
    ReadNatSkipsSpace(tail);
    LexerSerialise.ReadLine(p.1, rest);
  }

  /** A capture row: its first slot on a line, then its pairs, counted. */
  function SaveCapture(c: CaptureRow): string {
    LexerSerialise.Line(c.first) + SaveCounted(c.pairs, SavePair)
  }

  function ReadCapture(s: string): (o: Option<(CaptureRow, string)>) {
    var first :- LexerSerialise.ReadId(s);
    var pairs :- ReadCounted(first.1, ReadPair);
    Some((CaptureRow(first.0, pairs.0), pairs.1))
  }

  predicate CaptureFits(c: CaptureRow) {
    c.first < LexerSerialise.IdRange && forall i :: 0 <= i < |c.pairs| ==> PairFits(c.pairs[i])
  }

  lemma ReadSaveCapture(c: CaptureRow, rest: string)
    requires CaptureFits(c)
    ensures ReadCapture(SkipSpace(SaveCapture(c) + rest)) == Some((c, SkipSpace(rest)))
  {
    var tail := SaveCounted(c.pairs, SavePair) + rest;
    assert SaveCapture(c) + rest == LexerSerialise.Line(c.first) + tail;
    LexerSerialise.ReadIdSkipsSpace(SaveCapture(c) + rest);
    LexerSerialise.ReadIdLine(c.first, tail);
    ReadCountedSkipsSpace(tail, ReadPair);
    forall i, r | 0 <= i < |c.pairs|
      ensures ReadPair(SkipSpace(SavePair(c.pairs[i]) + r)) == Some((c.pairs[i], SkipSpace(r)))
    {
      ReadSavePair(c.pairs[i], r);
    }
    ReadSaveCounted(c.pairs, SavePair, ReadPair, rest);
  }

  /** A table cell: `column action param` on a line. */
  function SaveCell(c: Cell): string {
    ShowNat(c.column) + (" " + (ShowNat(ActionCode(c.entry.action)) + (" " + LexerSerialise.Line(c.entry.param))))
  }

  /** The column and param are cast to `uint16_t`, the action code to the enumeration. */
  function ReadCell(s: string): (o: Option<(Cell, string)>) {
    var column :- ReadNat(s);
    var code :- ReadNat(column.1);
    var action :- DecodeAction(code.0);
    var param :- ReadNat(code.1);
    Some((Cell(LexerSerialise.Cast(column.0), Entry(action, LexerSerialise.Cast(param.0))), param.1))
  }

  predicate CellFits(c: Cell) {
    c.column < LexerSerialise.IdRange && c.entry.param < LexerSerialise.IdRange
  }

  lemma ReadSaveCell(c: Cell, rest: string)
    requires CellFits(c)
    ensures ReadCell(SkipSpace(SaveCell(c) + rest)) == Some((c, SkipSpace(rest)))
  {
    var t2 := LexerSerialise.Line(c.entry.param) + rest;
    var t1 := ShowNat(ActionCode(c.entry.action)) + (" " + t2);
    assert SaveCell(c) + rest == ShowNat(c.column) + (" " + t1);
    ReadNatSkipsSpace(SaveCell(c) + rest);
    LexerSerialise.ReadWord(c.column, t1);
    ReadNatSkipsSpace(t1);
    LexerSerialise.ReadWord(ActionCode(c.entry.action), t2);
    DecodeActionCode(c.entry.action);
    ReadNatSkipsSpace(t2);
    LexerSerialise.ReadLine(c.entry.param, rest);
  }

  /** A table row: its cells, counted. */
  function SaveRow(row: seq<Cell>): string {
    SaveCounted(row, SaveCell)
  }

  function ReadRow(s: string): (o: Option<(seq<Cell>, string)>) {
    ReadCounted(s, ReadCell)
  }

  predicate RowFits(row: seq<Cell>) {
    forall i :: 0 <= i < |row| ==> CellFits(row[i])
  }

  lemma ReadSaveRow(row: seq<Cell>, rest: string)
    requires RowFits(row)
    ensures ReadRow(SkipSpace(SaveRow(row) + rest)) == Some((row, SkipSpace(rest)))
  {
    ReadCountedSkipsSpace(SaveRow(row) + rest, ReadCell);
    forall i, r | 0 <= i < |row|
      ensures ReadCell(SkipSpace(SaveCell(row[i]) + r)) == Some((row[i], SkipSpace(r)))
    {
      ReadSaveCell(row[i], r);
    }
    ReadSaveCounted(row, SaveCell, ReadCell, rest);
  }

  // ---- The state machine ----

  /** Every value the format stores as a `uint16_t` fits one. */
  predicate Fits(sm: Machine) {
    (forall i :: 0 <= i < |sm.rules| ==> RuleFits(sm.rules[i])) &&
    (forall i :: 0 <= i < |sm.captures| ==> CaptureFits(sm.captures[i])) &&
    (forall i :: 0 <= i < |sm.table| ==> RowFits(sm.table[i]))
  }

  /** Everything after the header. */
  function SaveBody(sm: Machine): string {
    LexerSerialise.Line(sm.columns) + (LexerSerialise.Line(sm.rows) + (SaveCounted(sm.rules, SaveRule) +
    (SaveCounted(sm.captures, SaveCapture) + SaveCounted(sm.table, SaveRow))))
  }

  /** `save`: version 1, `sizeof(id_type)`, columns, rows, then the rules, the capture rows
      and the table rows, each list preceded by its size. */
  function Save(sm: Machine): string {
    LexerSerialise.Line(1) + (LexerSerialise.Line(IdSize) + SaveBody(sm))
  }

  function LoadBody(s: string): (o: Option<Machine>) {
    var columns :- ReadNat(s);
    var rows :- ReadNat(columns.1);
    var rules :- ReadCounted(rows.1, ReadRule);
    var captures :- ReadCounted(rules.1, ReadCapture);
    var table :- ReadCounted(captures.1, ReadRow);
    Some(Machine(columns.0, rows.0, rules.0, captures.0, table.0))
  }

  /** What `load` leaves behind: the machine, and the message of the exception it threw. */
  datatype Loaded = Loaded(sm: Machine, error: Option<string>)

  /** `load` into a machine that held `prior`: clear it, read and ignore the version, check
      the id size, then read the rest. `None` is a stream whose extraction fails (a missing
      or non-numeric field, an out-of-range `uint16_t`, or an action code past `accept`). */
  function LoadInto(prior: Machine, s: string): (o: Option<Loaded>)
    ensures o.Some? && o.value.error.Some? ==> o.value.sm == Clear(prior) && o.value.error.value == IdMismatch
  {
    var version :- ReadNat(s);
    var idSize :- ReadNat(version.1);
    if idSize.0 != IdSize then Some(Loaded(Clear(prior), Some(IdMismatch)))
    else
      var sm :- LoadBody(idSize.1);
      Some(Loaded(sm, None))
  }

  lemma LoadBodySteps(s: string, columns: nat, s1: string, rows: nat, s2: string,
                      rules: seq<Rule>, s3: string, captures: seq<CaptureRow>, s4: string,
                      table: seq<seq<Cell>>, s5: string)
    requires ReadNat(s) == Some((columns, s1)) && ReadNat(s1) == Some((rows, s2))
    requires ReadCounted(s2, ReadRule) == Some((rules, s3))
    requires ReadCounted(s3, ReadCapture) == Some((captures, s4))
    requires ReadCounted(s4, ReadRow) == Some((table, s5))
    ensures LoadBody(s) == Some(Machine(columns, rows, rules, captures, table))
  {
  }

  lemma LoadSaveBody(sm: Machine, rest: string)
    requires Fits(sm)
    ensures LoadBody(SaveBody(sm) + rest) == Some(sm)
  {
    var r4 := SaveCounted(sm.table, SaveRow) + rest;
    var r3 := SaveCounted(sm.captures, SaveCapture) + r4;
    var r2 := SaveCounted(sm.rules, SaveRule) + r3;
    var r1 := LexerSerialise.Line(sm.rows) + r2;
    assert SaveBody(sm) + rest == LexerSerialise.Line(sm.columns) + r1;
    LexerSerialise.ReadLine(sm.columns, r1);
    ReadNatSkipsSpace(r1);
    LexerSerialise.ReadLine(sm.rows, r2);
    ReadCountedSkipsSpace(r2, ReadRule);
    forall i, r | 0 <= i < |sm.rules|
      ensures ReadRule(SkipSpace(SaveRule(sm.rules[i]) + r)) == Some((sm.rules[i], SkipSpace(r)))
    {
      ReadSaveRule(sm.rules[i], r);
    }
    ReadSaveCounted(sm.rules, SaveRule, ReadRule, r3);
    ReadCountedSkipsSpace(r3, ReadCapture);
    forall i, r | 0 <= i < |sm.captures|
      ensures ReadCapture(SkipSpace(SaveCapture(sm.captures[i]) + r)) == Some((sm.captures[i], SkipSpace(r)))
    {
      ReadSaveCapture(sm.captures[i], r);
    }
    ReadSaveCounted(sm.captures, SaveCapture, ReadCapture, r4);
    ReadCountedSkipsSpace(r4, ReadRow);
    forall i, r | 0 <= i < |sm.table|
      ensures ReadRow(SkipSpace(SaveRow(sm.table[i]) + r)) == Some((sm.table[i], SkipSpace(r)))
    {
      ReadSaveRow(sm.table[i], r);
    }
    ReadSaveCounted(sm.table, SaveRow, ReadRow, rest);
    LoadBodySteps(SaveBody(sm) + rest, sm.columns, SkipSpace(r1), sm.rows, SkipSpace(r2),
                  sm.rules, SkipSpace(r3), sm.captures, SkipSpace(r4), sm.table, SkipSpace(rest));
  }

  lemma LoadBodySkipsSpace(s: string)
    ensures LoadBody(SkipSpace(s)) == LoadBody(s)
  {
    ReadNatSkipsSpace(s);
  }

  /** The round trip: loading what `save` wrote reproduces the columns, rows, rules,
      capture rows and table, whatever the machine held before and whatever follows. */
  lemma LoadSave(prior: Machine, sm: Machine, rest: string)
    requires Fits(sm)
    ensures LoadInto(prior, Save(sm) + rest) == Some(Loaded(sm, None))
  {
    var r2 := SaveBody(sm) + rest;
    var r1 := LexerSerialise.Line(IdSize) + r2;
    assert Save(sm) + rest == LexerSerialise.Line(1) + r1;
    LexerSerialise.ReadLine(1, r1);
    ReadNatSkipsSpace(r1);
    LexerSerialise.ReadLine(IdSize, r2);
    LoadSaveBody(sm, rest);
    LoadBodySkipsSpace(r2);
  }

  /** A stored id size other than 2 throws, leaving the machine cleared, whatever the
      version number says. */
  lemma LoadIdMismatch(prior: Machine, version: nat, idSize: nat, rest: string)
    requires idSize != IdSize
    ensures LoadInto(prior, LexerSerialise.Line(version) + (LexerSerialise.Line(idSize) + rest)) ==
      Some(Loaded(Clear(prior), Some(IdMismatch)))
  {
    LexerSerialise.ReadLine(version, LexerSerialise.Line(idSize) + rest);
    ReadNatSkipsSpace(LexerSerialise.Line(idSize) + rest);
    LexerSerialise.ReadLine(idSize, rest);
  }
}
