/** The bison tables of the EBNF grammar for rule right-hand sides used by `rules::push`. */
module EbnfTables {
  import opened BisonLookup

  /** `yytranslate`: bison's internal token number of each lexeme id below 262 (the EBNF
      lexer's ids: the single characters, end of input, and 258..261 for EMPTY, IDENTIFIER,
      PREC and TERMINAL); every other character is the undefined token 2. */
  function Translate(id: nat): (tok: int)
    ensures 0 <= tok < 18
  {
    match id
    case 0 => 0
    case 40 => 16  case 41 => 17  case 42 => 13  case 43 => 15  case 45 => 14
    case 63 => 10  case 91 => 8   case 93 => 9
    case 123 => 11 case 124 => 7  case 125 => 12
    case 256 => 1  case 258 => 3  case 259 => 4  case 260 => 5  case 261 => 6
    case _ => 2
  }

  const R1: seq<int> :=
    [0, 18, 19, 20, 20, 21, 22, 22, 22, 23, 23, 24, 24, 24, 24, 24, 24, 24, 24, 24, 25,
     25, 25]

  const R2: seq<int> :=
    [0, 2, 1, 1, 3, 2, 0, 1, 1, 1, 2, 1, 1, 3, 2, 3, 2, 4, 2, 3, 0, 2, 2]

  const Defact: seq<int> :=
    [6, 7, 11, 12, 6, 6, 6, 0, 2, 3, 20, 8, 9, 0, 0, 0, 1, 6, 0, 5, 10, 14, 16, 18, 13,
     15, 19, 4, 21, 22, 17]

  const Defgoto: seq<int> :=
    [-1, 7, 8, 9, 10, 11, 12, 19]

  const Pact: seq<int> :=
    [-3, -4, -4, -4, -3, -3, -3, 19, 18, -4, 22, -2, 5, 3, 4, 0, -4, -3, 20, -4, 5, -4,
     -4, -4, -4, 14, -4, -4, -4, -4, -4]

  const Pgoto: seq<int> :=
    [-4, -4, 17, 12, -4, -4, 21, -4]

  const Table: seq<int> :=
    [1, 2, 2, 3, 3, 4, 4, 17, 5, 5, 17, 17, 24, 6, 6, 21, 25, 26, 22, 16, 23, 13, 14, 15,
     28, 17, 29, 18, 30, 27, 0, 0, 20]

  const Check: seq<int> :=
    [3, 4, 4, 6, 6, 8, 8, 7, 11, 11, 7, 7, 9, 16, 16, 10, 12, 17, 13, 0, 15, 4, 5, 6, 4,
     7, 6, 5, 14, 17, -1, -1, 11]

  const Tables: BisonLookup.Tables := BisonLookup.Tables(
    16, 32, 18, -4, -1,
    seq(262, (i: int) requires 0 <= i < 262 => Translate(i)),
    R1, R2, Defact, Defgoto, Pact, Pgoto, Table, Check)


  lemma R1Range()
    ensures forall i :: 1 <= i < |R1| ==> 18 <= R1[i] < 26
  {
    forall i | 1 <= i < |R1| ensures 18 <= R1[i] < 26 {
      assert i in {0, 1, 2, 3, 4, 5, 6, 7, 8, 9, 10, 11, 12, 13, 14, 15, 16, 17, 18, 19, 20, 21, 22};
    }
  }

  lemma R2Range()
    ensures forall i :: 0 <= i < |R2| ==> 0 <= R2[i]
  {
    forall i | 0 <= i < |R2| ensures 0 <= R2[i] {
      assert i in {0, 1, 2, 3, 4, 5, 6, 7, 8, 9, 10, 11, 12, 13, 14, 15, 16, 17, 18, 19, 20, 21, 22};
    }
  }

  lemma DefactRange()
    ensures forall i :: 0 <= i < |Defact| ==> 0 <= Defact[i] < 23
  {
    forall i | 0 <= i < |Defact| ensures 0 <= Defact[i] < 23 {
      assert i in {0, 1, 2, 3, 4, 5, 6, 7, 8, 9, 10, 11, 12, 13, 14, 15, 16, 17, 18, 19, 20, 21, 22, 23, 24, 25, 26, 27, 28, 29, 30};
    }
  }

  lemma TableRange()
    ensures forall i :: 0 <= i < |Table| ==> 0 <= Table[i] < 31
  {
    forall i | 0 <= i < |Table| ensures 0 <= Table[i] < 31 {
      assert i in {0, 1, 2, 3, 4, 5, 6, 7, 8, 9, 10, 11, 12, 13, 14, 15, 16, 17, 18, 19, 20, 21, 22, 23, 24, 25, 26, 27, 28, 29, 30, 31, 32};
    }
  }

  lemma TranslateRange()
    ensures forall i :: 0 <= i < |Tables.translate| ==> 0 <= Tables.translate[i] < Tables.ntokens
  {
  }

  /** The embedded tables have the shape and value ranges the decoder relies on, so
      `NextAction` and `Step` never read outside them. */
  lemma TablesWellFormed()
    ensures WellFormed(Tables)
  {
    R1Range();
    R2Range();
    DefactRange();
    TableRange();
    TranslateRange();
  }


}
