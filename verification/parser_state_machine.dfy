/** The parser state machine produced by the table generator: an action table indexed by
    (state, symbol id), the rule list the runtime reduces by, and the capture description. */
module ParserStateMachine {
  import opened Wrappers

  /** `static_cast<std::size_t>(~0)` on a 64-bit target: the "no such id" marker. */
  const Npos: nat := 0xFFFF_FFFF_FFFF_FFFF

  /** The five table actions, in the order of the C++ enumeration. */
  datatype Action = Error | Shift | Reduce | GoTo | Accept

  /** The `error_type` codes stored in the param of an `error` entry. */
  const SyntaxError: nat := 0
  const NonAssociative: nat := 1
  const UnknownToken: nat := 2

  /** One table cell: an action and its parameter (target state, rule index or error code). */
  datatype Entry = Entry(action: Action, param: nat)

  /** The default-constructed (and cleared) entry: a syntax error. */
  const DefaultEntry: Entry := Entry(Error, SyntaxError)

  /** A grammar rule as the runtime sees it: the lhs symbol id and the rhs symbol ids. */
  datatype Rule = Rule(lhs: nat, rhs: seq<nat>)

  /** A capture row: the number of capture slots used by earlier rules and the
      (first, last) rhs-index pairs of each capture of this rule. */
  datatype CaptureRow = CaptureRow(first: nat, pairs: seq<(nat, nat)>)

  /** Every capture row starts where the previous one ends. */
  predicate Contiguous(cs: seq<CaptureRow>) {
    forall i :: 0 <= i < |cs| - 1 ==> cs[i + 1].first == cs[i].first + |cs[i].pairs|
  }

  /** A stored cell of a compressed table row: the column it belongs to and its entry. */
  datatype Cell = Cell(column: nat, entry: Entry)

  datatype Machine = Machine(
    columns: nat,
    rows: nat,
    rules: seq<Rule>,
    captures: seq<CaptureRow>,
    table: seq<seq<Cell>>)

  /** A freshly constructed machine: no table, no rules, zero columns and rows. */
  const EmptyMachine: Machine := Machine(0, 0, [], [], [])

  /** `state_machine::empty`: a machine is empty exactly when it has no table. */
  predicate IsEmpty(sm: Machine) {
    |sm.table| == 0
  }

  /** `state_machine::clear`. */
  function Clear(sm: Machine): (r: Machine)
    ensures IsEmpty(r)
    ensures r.columns == 0 && r.rows == 0
    ensures r.rules == [] && r.captures == []
  {
    EmptyMachine
  }

  /** The first stored cell of `row` for `column`, if any. */
  function FindCell(row: seq<Cell>, column: nat): (r: Option<Entry>)
    ensures r.Some? <==> exists i :: 0 <= i < |row| && row[i].column == column
    ensures r.Some? ==> exists i :: 0 <= i < |row| && row[i].column == column && row[i].entry == r.value
  {
    if |row| == 0 then None
    else if row[0].column == column then Some(row[0].entry)
    else
      var r := FindCell(row[1..], column);
      assert r.Some? ==> exists i :: 0 <= i < |row[1..]| && row[1..][i].column == column && row[1..][i].entry == r.value;
      assert r.Some? ==> exists i :: 0 <= i < |row| && row[i].column == column && row[i].entry == r.value by {
        if r.Some? {
          var i :| 0 <= i < |row[1..]| && row[1..][i].column == column && row[1..][i].entry == r.value;
          assert row[i + 1] == row[1..][i];
        }
      }
      assert (exists i :: 0 <= i < |row| && row[i].column == column) ==> r.Some? by {
        if exists i :: 0 <= i < |row| && row[i].column == column {
          var i :| 0 <= i < |row| && row[i].column == column;
          assert i != 0;
          assert row[1..][i - 1] == row[i];
        }
      }
      r
  }

  /** The table read `at(row, column)`: total, yielding the default syntax-error entry for a
      cell that is not stored (including a row past the end of the table). */
  function At(sm: Machine, row: nat, column: nat): (e: Entry)
    ensures row >= |sm.table| ==> e == DefaultEntry
    ensures row < |sm.table| && (forall i :: 0 <= i < |sm.table[row]| ==> sm.table[row][i].column != column)
            ==> e == DefaultEntry
  {
    if row < |sm.table| then
      match FindCell(sm.table[row], column)
      case Some(e) => e
      case None => DefaultEntry
    else DefaultEntry
  }

  /** The length of a rule's rhs (`production_size`), when the rule exists. */
  function RhsSize(sm: Machine, rule: nat): (n: nat)
    requires rule < |sm.rules|
  {
    |sm.rules[rule].rhs|
  }
}
