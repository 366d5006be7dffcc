/** The bison tables of the earlier EBNF grammar (one rule fewer than the newer
    grammar), which shares its `yytranslate`. */
module EbnfTablesOld {
  import opened BisonLookup
  import EbnfTables
  import opened Wrappers
  import opened ParserStateMachine
  import opened MatchResults


  const R1: seq<int> :=
    [0, 18, 19, 20, 20, 21, 21, 21, 22, 22, 23, 23, 23, 23, 23, 23, 23, 23, 23, 24, 24, 24]

  const R2: seq<int> :=
    [0, 2, 1, 1, 3, 0, 1, 2, 1, 2, 1, 1, 3, 2, 3, 2, 4, 2, 3, 0, 2, 2]

  const Defact: seq<int> :=
    [5, 6, 10, 11, 5, 5, 5, 0, 2, 3, 19, 8, 0, 0, 0, 1, 5, 0, 9, 7, 13, 15, 17, 12, 14,
     18, 4, 20, 21, 16]

  const Defgoto: seq<int> :=
    [-1, 7, 8, 9, 10, 11, 19]

  const Pact: seq<int> :=
    [-3, -7, -7, -7, -3, -3, -3, 2, 11, -7, 6, -6, 12, 8, -1, -7, -3, 22, -6, -7, -7, -7,
     -7, -7, 13, -7, -7, -7, -7, -7]

  const Pgoto: seq<int> :=
    [-7, -7, 19, 14, -7, 21, -7]

  const Table: seq<int> :=
    [1, 2, 15, 3, 20, 4, 16, 21, 5, 22, 2, 17, 3, 6, 4, 16, 25, 5, 16, 16, 24, 23, 6, 12,
     13, 14, 27, 29, 28, 0, 26, 18]

  const Check: seq<int> :=
    [3, 4, 0, 6, 10, 8, 7, 13, 11, 15, 4, 5, 6, 16, 8, 7, 17, 11, 7, 7, 12, 9, 16, 4, 5,
     6, 4, 14, 6, -1, 16, 10]

  const Tables: BisonLookup.Tables := BisonLookup.Tables(
    15, 31, 18, -7, -1,
    seq(262, (i: int) requires 0 <= i < 262 => EbnfTables.Translate(i)),
    R1, R2, Defact, Defgoto, Pact, Pgoto, Table, Check)


  lemma R1Range()
    ensures forall i :: 1 <= i < |R1| ==> 18 <= R1[i] < 25
  {
    forall i | 1 <= i < |R1| ensures 18 <= R1[i] < 25 {
      assert i in {0, 1, 2, 3, 4, 5, 6, 7, 8, 9, 10, 11, 12, 13, 14, 15, 16, 17, 18, 19, 20, 21};
    }
  }

  lemma R2Range()
    ensures forall i :: 0 <= i < |R2| ==> 0 <= R2[i]
  {
    forall i | 0 <= i < |R2| ensures 0 <= R2[i] {
      assert i in {0, 1, 2, 3, 4, 5, 6, 7, 8, 9, 10, 11, 12, 13, 14, 15, 16, 17, 18, 19, 20, 21};
    }
  }

  lemma DefactRange()
    ensures forall i :: 0 <= i < |Defact| ==> 0 <= Defact[i] < 22
  {
    forall i | 0 <= i < |Defact| ensures 0 <= Defact[i] < 22 {
      assert i in {0, 1, 2, 3, 4, 5, 6, 7, 8, 9, 10, 11, 12, 13, 14, 15, 16, 17, 18, 19, 20, 21, 22, 23, 24, 25, 26, 27, 28, 29};
    }
  }

  lemma TableRange()
    ensures forall i :: 0 <= i < |Table| ==> 0 <= Table[i] < 30
  {
    forall i | 0 <= i < |Table| ensures 0 <= Table[i] < 30 {
      assert i in {0, 1, 2, 3, 4, 5, 6, 7, 8, 9, 10, 11, 12, 13, 14, 15, 16, 17, 18, 19, 20, 21, 22, 23, 24, 25, 26, 27, 28, 29, 30, 31};
    }
  }

  lemma TranslateRange()
    ensures forall i :: 0 <= i < |Tables.translate| ==> 0 <= Tables.translate[i] < Tables.ntokens
  {
  }

  /** The embedded tables have the shape and value ranges the decoder relies on, so
      `NextAction` and `Step` never read outside them. */
  lemma TablesWellFormed()
    ensures WellFormed(Tables)
  {
    R1Range();
    R2Range();
    DefactRange();
    TableRange();
    TranslateRange();
  }



  /** The signed tables are declared as vectors of plain `char`, whose signedness is left to
      the platform. Where `char` is unsigned, and the narrowing initialisation is let through,
      every negative entry reads as its value mod 256. */
  function AsUnsignedChar(s: seq<int>): (u: seq<int>)
    ensures |u| == |s|
    ensures forall i :: 0 <= i < |s| ==> 0 <= u[i] < 256 && (0 <= s[i] < 256 ==> u[i] == s[i])
  {
    seq(|s|, (i: int) requires 0 <= i < |s| => s[i] % 256)
  }

  const TablesUnsignedChar: BisonLookup.Tables :=
    Tables.(defgoto := AsUnsignedChar(Defgoto), pact := AsUnsignedChar(Pact),
            pgoto := AsUnsignedChar(Pgoto), check := AsUnsignedChar(Check))

  /** In the start state an IDENTIFIER (lexeme 259) is shifted into state 2. */
  lemma IdentifierShiftedFirst()
    ensures NextAction(Tables, 259, MatchResults([0], 0, DefaultEntry)).value.entry == Entry(Shift, 2)
  {
    assert Tables.translate[259] == 4;
    assert Pact[0] == -3 && Check[1] == 4 && Table[1] == 2;
  }

  /** Where `char` is unsigned the list-initialisation of the tables from negative constants
      narrows, which is ill-formed: compilers reject it unless narrowing errors are turned off.
      In a build that lets it through, yypact[0] = -3 reads as 253, so the same input falls to
      the default reduction by rule 5 instead of the shift. */
  lemma UnsignedCharChangesFirstAction()
    ensures NextAction(TablesUnsignedChar, 259, MatchResults([0], 0, DefaultEntry)).value.entry == Entry(Reduce, 5)
  {
    assert TablesUnsignedChar.translate[259] == 4;
    assert TablesUnsignedChar.pact[0] == 253;
    assert Defact[0] == 5;
  }
}
