/** lexertl's text serialisation of a lexer state machine (`save`/`load`), and the vector
    format (`output_vec`/`input_vec`) that the parser serialiser shares. A stream is its
    text; every number goes through `<<` and `>>` as `Decimal` models them. The state
    machine is the `char`, `uint16_t` one that parle builds. */
module LexerSerialise {
  import opened Wrappers
  import opened Decimal
  import opened Internals

  /** `sizeof(char)` and `sizeof(uint16_t)`, written into the header. */
  const CharSize: nat := 1
  const IdSize: nat := 2

  /** The number of values of `uint16_t`. */
  const IdRange: nat := 0x1_0000

  /** The width `output_vec` keeps its lines to. */
  const LineWidth: nat := 80

  const CharMismatch: string := "char_type mismatch in lexertl::load()"
  const IdMismatch: string := "id_type mismatch in lexertl::load()"

  /** `stream << n << '\n'`. */
  function Line(n: nat): string {
    ShowNat(n) + "\n"
  }

  /** The decimal text of each element, as `ss_ << l_` renders it. */
  function Render(v: seq<nat>): (ws: seq<string>)
    ensures |ws| == |v| && forall i :: 0 <= i < |v| ==> ws[i] == ShowNat(v[i])
    decreases |v|
  {
    if v == [] then [] else [ShowNat(v[0])] + Render(v[1..])
  }

  /** The words, each followed by a space, starting on a line that already holds `col`
      characters: a word that would take the line past `LineWidth` starts a new line. */
  function Layout(ws: seq<string>, col: nat): string
    decreases |ws|
  {
    if ws == [] then ""
    else if col + |ws[0]| + 1 > LineWidth then "\n" + (ws[0] + (" " + Layout(ws[1..], |ws[0]| + 1)))
    else ws[0] + (" " + Layout(ws[1..], col + |ws[0]| + 1))
  }

  /** The element part of `output_vec`. */
  function Elems(v: seq<nat>, col: nat): string {
    Layout(Render(v), col)
  }

  /** `output_vec`: the count on its own line, the elements, a newline. */
  function OutputVec(v: seq<nat>): string {
    Line(|v|) + (Elems(v, 0) + "\n")
  }

  /** `static_cast<uint16_t>`: the low 16 bits. */
  function Cast(n: nat): (c: nat)
    ensures c < IdRange && (n < IdRange ==> c == n)
  {
    n % IdRange
  }

  /** `k` numbers, each cast to `uint16_t`. */
  function ReadN(s: string, k: nat): (o: Option<(seq<nat>, string)>)
    ensures o.Some? ==> |o.value.0| == k && forall i :: 0 <= i < k ==> o.value.0[i] < IdRange
    decreases k
  {
    if k == 0 then Some(([], s))
    else
      var a :- ReadNat(s);
      var b :- ReadN(a.1, k - 1);
      Some(([Cast(a.0)] + b.0, b.1))
  }

  /** `input_vec`: read a count, then that many numbers, appending them to `prefix`. */
  function InputVec(prefix: seq<nat>, s: string): (o: Option<(seq<nat>, string)>)
    ensures o.Some? ==> |o.value.0| >= |prefix| && o.value.0[..|prefix|] == prefix
  {
    var n :- ReadNat(s);
    var b :- ReadN(n.1, n.0);
    Some((prefix + b.0, b.1))
  }

  /** `stream >> x` into a `uint16_t`: a number that does not fit fails the extraction. */
  function ReadId(s: string): (o: Option<(nat, string)>)
    ensures o.Some? ==> o.value.0 < IdRange
  {
    var a :- ReadNat(s);
    if a.0 < IdRange then Some(a) else None
  }

  predicate FitsId(v: seq<nat>) {
    forall i :: 0 <= i < |v| ==> v[i] < IdRange
  }

  // ---- Line width ----

  /** Starting on a line that already holds `col` characters, no line of `s` is longer
      than `LineWidth`. */
  predicate FitsFrom(s: string, col: nat)
    decreases |s|
  {
    s == [] || (if s[0] == '\n' then FitsFrom(s[1..], 0) else col < LineWidth && FitsFrom(s[1..], col + 1))
  }

  /** A piece without a line break that fits on the current line. */
  lemma {:induction false} FitsFromPiece(t: string, rest: string, col: nat)
    requires forall i :: 0 <= i < |t| ==> t[i] != '\n'
    requires col + |t| <= LineWidth && FitsFrom(rest, col + |t|)
    ensures FitsFrom(t + rest, col)
    decreases |t|
  {
    if t == [] {
      assert t + rest == rest;
    } else {
      assert (t + rest)[0] == t[0];
      assert (t + rest)[1..] == t[1..] + rest;
      FitsFromPiece(t[1..], rest, col + 1);
    }
  }

  lemma FitsNewline(rest: string, col: nat)
    requires FitsFrom(rest, 0)
    ensures FitsFrom("\n" + rest, col)
  {
    assert ("\n" + rest)[1..] == rest;
  }

  lemma FitsSpace(rest: string, col: nat)
    requires col < LineWidth && FitsFrom(rest, col + 1)
    ensures FitsFrom(" " + rest, col)
  {
    assert (" " + rest)[1..] == rest;
  }

  /** A word `Layout` can always place: no line break, and short enough for a line of its
      own with its space. */
  predicate Placeable(w: string) {
    |w| + 1 <= LineWidth && forall i :: 0 <= i < |w| ==> w[i] != '\n'
  }

  /** The wrapping keeps every line within `LineWidth` whenever every word is placeable. */
  lemma {:induction false} LayoutFits(ws: seq<string>, col: nat)
    requires col <= LineWidth
    requires forall i :: 0 <= i < |ws| ==> Placeable(ws[i])
    ensures FitsFrom(Layout(ws, col), col)
    decreases |ws|
  {
    if ws != [] {
      var w := ws[0];
      assert Placeable(w);
      assert forall i :: 0 <= i < |ws[1..]| ==> Placeable(ws[1..][i]) by {
        forall i | 0 <= i < |ws[1..]| ensures Placeable(ws[1..][i]) {
          assert ws[1..][i] == ws[i + 1];
        }
      }
      if col + |w| + 1 > LineWidth {
        LayoutFits(ws[1..], |w| + 1);
        FitsSpace(Layout(ws[1..], |w| + 1), |w|);
        FitsFromPiece(w, " " + Layout(ws[1..], |w| + 1), 0);
        FitsNewline(w + (" " + Layout(ws[1..], |w| + 1)), col);
      } else {
        LayoutFits(ws[1..], col + |w| + 1);
        FitsSpace(Layout(ws[1..], col + |w| + 1), col + |w|);
        FitsFromPiece(w, " " + Layout(ws[1..], col + |w| + 1), col);
      }
    }
  }

  /** A `uint16_t` takes at most five digits. */
  lemma ShortNumber(n: nat)
    requires n < IdRange
    ensures Placeable(ShowNat(n))
  {
    assert Pow10(5) == 100000;
    ShowNatLength(n, 5);
    var w := ShowNat(n);
    forall i | 0 <= i < |w| ensures w[i] != '\n' {
      assert IsDigit(w[i]);
    }
  }

  /** `output_vec` of `uint16_t` values never writes an element line longer than 80
      characters. */
  lemma OutputVecFits(v: seq<nat>)
    requires FitsId(v)
    ensures FitsFrom(Elems(v, 0) + "\n", 0)
  {
    var ws := Render(v);
    forall i | 0 <= i < |ws| ensures Placeable(ws[i]) {
      ShortNumber(v[i]);
    }
    LayoutFits(ws, 0);
    assert FitsFrom("\n", EndCol(Elems(v, 0), 0)) by {
      FitsNewline([], EndCol(Elems(v, 0), 0));
      assert "\n" + [] == "\n";
    }
    FitsAppend(Elems(v, 0), "\n", 0);
  }

  /** A text that fits ends on some column; what follows fits from there. */
  function EndCol(s: string, col: nat): nat
    decreases |s|
  {
    if s == [] then col else if s[0] == '\n' then EndCol(s[1..], 0) else EndCol(s[1..], col + 1)
  }

  lemma {:induction false} FitsAppend(a: string, b: string, col: nat)
    requires FitsFrom(a, col) && FitsFrom(b, EndCol(a, col))
    ensures FitsFrom(a + b, col)
    decreases |a|
  {
    if a == [] {
      assert a + b == b;
    } else {
      assert (a + b)[0] == a[0];
      assert (a + b)[1..] == a[1..] + b;
      if a[0] == '\n' {
        FitsAppend(a[1..], b, 0);
      } else {
        FitsAppend(a[1..], b, col + 1);
      }
    }
  }

  // ---- Reading back ----

  /** A line of a number reads back as that number. */
  lemma ReadLine(n: nat, rest: string)
    ensures ReadNat(Line(n) + rest) == Some((n, SkipSpace(rest)))
  {
    var t := "\n" + rest;
    assert Line(n) + rest == ShowNat(n) + t;
    ReadShowNat(n, t);
    SkipSpaceCons('\n', rest);
  }

  lemma ReadIdLine(n: nat, rest: string)
    requires n < IdRange
    ensures ReadId(Line(n) + rest) == Some((n, SkipSpace(rest)))
  {
    ReadLine(n, rest);
  }

  /** One element and its space read back as the element. */
  lemma ReadWord(n: nat, rest: string)
    ensures ReadNat(ShowNat(n) + (" " + rest)) == Some((n, SkipSpace(rest)))
  {
    ReadShowNat(n, " " + rest);
    SkipSpaceCons(' ', rest);
  }

  /** The column after the first element is placed. */
  function NextCol(w: string, col: nat): nat {
    if col + |w| + 1 > LineWidth then |w| + 1 else col + |w| + 1
  }

  /** Reading the first element leaves the layout of the others. */
  lemma ReadFirstElem(v: seq<nat>, col: nat, rest: string)
    requires v != []
    ensures ReadNat(SkipSpace(Elems(v, col) + rest)) ==
      Some((v[0], SkipSpace(Elems(v[1..], NextCol(ShowNat(v[0]), col)) + rest)))
  {
    var ws := Render(v);
    var w := ws[0];
    assert w == ShowNat(v[0]);
    assert ws[1..] == Render(v[1..]);
    var tail := Elems(v[1..], NextCol(w, col));
    var body := w + (" " + (tail + rest));
    if col + |w| + 1 > LineWidth {
      assert Elems(v, col) + rest == "\n" + body;
      SkipSpaceCons('\n', body);
    } else {
      assert Elems(v, col) + rest == body;
    }
    assert SkipSpace(body) == body by {
      assert IsDigit(w[0]);
      assert body[0] == w[0];
    }
    ReadWord(v[0], tail + rest);
    ReadNatSkipsSpace(body);
  }

  lemma HeadTail(v: seq<nat>)
    requires v != [] && v[0] < IdRange
    ensures [Cast(v[0])] + v[1..] == v
  {
  }

  /** The elements read back as themselves, whatever the line breaks. */
  lemma {:induction false} ReadElems(v: seq<nat>, col: nat, rest: string)
    requires FitsId(v)
    ensures ReadN(SkipSpace(Elems(v, col) + rest), |v|) == Some((v, SkipSpace(rest)))
    decreases |v|
  {
    if v == [] {
      assert Elems(v, col) + rest == rest;
    } else {
      var next := NextCol(ShowNat(v[0]), col);
      ReadFirstElem(v, col, rest);
      assert FitsId(v[1..]) by {
        forall i | 0 <= i < |v[1..]| ensures v[1..][i] < IdRange {
          assert v[1..][i] == v[i + 1];
        }
      }
      ReadElems(v[1..], next, rest);
      HeadTail(v);
    }
  }

  /** `input_vec` reads back what `output_vec` wrote, appended to what was there. */
  lemma InputOutputVec(prefix: seq<nat>, v: seq<nat>, rest: string)
    requires FitsId(v)
    ensures InputVec(prefix, OutputVec(v) + rest) == Some((prefix + v, SkipSpace(rest)))
  {
    var e := Elems(v, 0);
    assert OutputVec(v) + rest == Line(|v|) + (e + ("\n" + rest));
    ReadLine(|v|, e + ("\n" + rest));
    ReadElems(v, 0, "\n" + rest);
    SkipSpaceCons('\n', rest);
  }

  // ---- The state machine ----

  /** The vectors of `vs`, one `output_vec` each. */
  function SaveVecs(vs: seq<seq<nat>>): string
    decreases |vs|
  {
    if vs == [] then "" else OutputVec(vs[0]) + SaveVecs(vs[1..])
  }

  /** `k` vectors, each read into a fresh vector. */
  function ReadVecs(s: string, k: nat): (o: Option<(seq<seq<nat>>, string)>)
    ensures o.Some? ==> |o.value.0| == k
    decreases k
  {
    if k == 0 then Some(([], s))
    else
      var a :- InputVec([], s);
      var b :- ReadVecs(a.1, k - 1);
      Some(([a.0] + b.0, b.1))
  }

  /** `input_vec` does not care about white space in front. */
  lemma InputVecSkipsSpace(prefix: seq<nat>, s: string)
    ensures InputVec(prefix, SkipSpace(s)) == InputVec(prefix, s)
  {
    ReadNatSkipsSpace(s);
  }

  lemma ReadFirstVec(vs: seq<seq<nat>>, rest: string)
    requires vs != [] && FitsId(vs[0])
    ensures InputVec([], SkipSpace(SaveVecs(vs) + rest)) == Some((vs[0], SkipSpace(SaveVecs(vs[1..]) + rest)))
  {
    var tail := SaveVecs(vs[1..]) + rest;
    assert SaveVecs(vs) + rest == OutputVec(vs[0]) + tail;
    InputOutputVec([], vs[0], tail);
    InputVecSkipsSpace([], OutputVec(vs[0]) + tail);
    assert [] + vs[0] == vs[0];
  }

  lemma ReadVecsStep(s: string, k: nat, k': nat, v: seq<nat>, mid: string, vs: seq<seq<nat>>, end: string)
    requires k == k' + 1 && InputVec([], s) == Some((v, mid)) && ReadVecs(mid, k') == Some((vs, end))
    ensures ReadVecs(s, k) == Some(([v] + vs, end))
  {
  }

  lemma ConsHeadTail<T>(v: seq<T>)
    requires v != []
    ensures [v[0]] + v[1..] == v
  {
  }

  /** The vectors read back as themselves. */
  lemma {:induction false} ReadSaveVecs(vs: seq<seq<nat>>, rest: string)
    requires forall i :: 0 <= i < |vs| ==> FitsId(vs[i])
    ensures ReadVecs(SkipSpace(SaveVecs(vs) + rest), |vs|) == Some((vs, SkipSpace(rest)))
    decreases |vs|
  {
    if vs == [] {
      assert SaveVecs(vs) + rest == rest;
    } else {
      ReadFirstVec(vs, rest);
      assert forall i :: 0 <= i < |vs[1..]| ==> FitsId(vs[1..][i]) by {
        forall i | 0 <= i < |vs[1..]| ensures FitsId(vs[1..][i]) {
          assert vs[1..][i] == vs[i + 1];
        }
      }
      var s := SkipSpace(SaveVecs(vs) + rest);
      var mid := SkipSpace(SaveVecs(vs[1..]) + rest);
      ReadSaveVecs(vs[1..], rest);
      ReadVecsStep(s, |vs|, |vs[1..]|, vs[0], mid, vs[1..], SkipSpace(rest));
      ConsHeadTail(vs);
    }
  }

  /** Every value the format stores as a `uint16_t` fits one. */
  predicate Fits(x: Internals) {
    x.eoi < IdRange && x.features < IdRange && FitsId(x.alphabet) &&
    (forall i :: 0 <= i < |x.lookup| ==> FitsId(x.lookup[i])) &&
    (forall i :: 0 <= i < |x.dfa| ==> FitsId(x.dfa[i]))
  }

  /** A count line, then that many vectors. */
  function SaveCounted(vs: seq<seq<nat>>): string {
    Line(|vs|) + SaveVecs(vs)
  }

  /** A count, then that many vectors. */
  function ReadCounted(s: string): (o: Option<(seq<seq<nat>>, string)>) {
    var n :- ReadNat(s);
    ReadVecs(n.1, n.0)
  }

  lemma ReadSaveCounted(vs: seq<seq<nat>>, rest: string)
    requires forall i :: 0 <= i < |vs| ==> FitsId(vs[i])
    ensures ReadCounted(SaveCounted(vs) + rest) == Some((vs, SkipSpace(rest)))
  {
    var tail := SaveVecs(vs) + rest;
    assert SaveCounted(vs) + rest == Line(|vs|) + tail;
    ReadLine(|vs|, tail);
    ReadSaveVecs(vs, rest);
  }

  /** The tables after the header. */
  function SaveTables(x: Internals): string {
    Line(x.eoi) + (SaveCounted(x.lookup) + (OutputVec(x.alphabet) + (Line(x.features) + SaveCounted(x.dfa))))
  }

  /** `save`: version 1, the two type sizes, then `_eoi`, the lookup rows, the alphabet,
      `_features` and the transition tables. */
  function Save(x: Internals): string {
    Line(1) + (Line(CharSize) + (Line(IdSize) + SaveTables(x)))
  }

  /** Reading the tables after a header that matched. */
  function LoadTables(s: string): (o: Option<Internals>)
    ensures o.Some? ==> o.value.eoi < IdRange && o.value.features < IdRange
  {
    var eoi :- ReadId(s);
    var lookup :- ReadCounted(eoi.1);
    var alphabet :- InputVec([], lookup.1);
    var features :- ReadId(alphabet.1);
    var dfa :- ReadCounted(features.1);
    Some(Internals(eoi.0, lookup.0, alphabet.0, features.0, dfa.0))
  }

  /** What `load` leaves behind: the tables, and the message of the exception it threw. */
  datatype Loaded = Loaded(tables: Internals, error: Option<string>)

  /** `load` into tables that held `x`: clear them, then read the header and the tables.
      `None` is a stream whose extraction fails (a missing or non-numeric field, or an
      out-of-range `uint16_t`). */
  function LoadInto(x: Internals, s: string): (o: Option<Loaded>)
    ensures o.Some? && o.value.error.Some? ==>
      o.value.tables == Clear(x) && o.value.error.value in {CharMismatch, IdMismatch}
    ensures o.Some? && o.value.error.None? ==> o.value.tables.eoi < IdRange && o.value.tables.features < IdRange
  {
    var version :- ReadNat(s);
    var charSize :- ReadNat(version.1);
    if charSize.0 != CharSize then Some(Loaded(Clear(x), Some(CharMismatch)))
    else
      var idSize :- ReadNat(charSize.1);
      if idSize.0 != IdSize then Some(Loaded(Clear(x), Some(IdMismatch)))
      else
        var t :- LoadTables(idSize.1);
        Some(Loaded(t, None))
  }

  lemma LoadTablesSteps(s: string, eoi: nat, s1: string, lookup: seq<seq<nat>>, s2: string,
                        alphabet: seq<nat>, s3: string, features: nat, s4: string,
                        dfa: seq<seq<nat>>, s5: string)
    requires ReadId(s) == Some((eoi, s1)) && ReadCounted(s1) == Some((lookup, s2))
    requires InputVec([], s2) == Some((alphabet, s3)) && ReadId(s3) == Some((features, s4))
    requires ReadCounted(s4) == Some((dfa, s5))
    ensures LoadTables(s) == Some(Internals(eoi, lookup, alphabet, features, dfa))
  {
  }

  lemma LoadSaveTables(t: Internals, rest: string)
    requires Fits(t)
    ensures LoadTables(SaveTables(t) + rest) == Some(t)
  {
    var r4 := SaveCounted(t.dfa) + rest;
    var r3 := Line(t.features) + r4;
    var r2 := OutputVec(t.alphabet) + r3;
    var r1 := SaveCounted(t.lookup) + r2;
    assert SaveTables(t) + rest == Line(t.eoi) + r1;
    ReadIdLine(t.eoi, r1);
    ReadCountedSkipsSpace(r1);
    ReadSaveCounted(t.lookup, r2);
    InputVecSkipsSpace([], r2);
    InputOutputVec([], t.alphabet, r3);
    assert [] + t.alphabet == t.alphabet;
    ReadIdSkipsSpace(r3);
    ReadIdLine(t.features, r4);
    ReadCountedSkipsSpace(r4);
    ReadSaveCounted(t.dfa, rest);
    LoadTablesSteps(Line(t.eoi) + r1, t.eoi, SkipSpace(r1), t.lookup, SkipSpace(r2),
                    t.alphabet, SkipSpace(r3), t.features, SkipSpace(r4), t.dfa, SkipSpace(rest));
  }

  lemma ReadCountedSkipsSpace(s: string)
    ensures ReadCounted(SkipSpace(s)) == ReadCounted(s)
  {
    ReadNatSkipsSpace(s);
  }

  lemma ReadIdSkipsSpace(s: string)
    ensures ReadId(SkipSpace(s)) == ReadId(s)
  {
    ReadNatSkipsSpace(s);
  }

  /** The round trip: loading what `save` wrote reproduces every table, whatever the
      target held before and whatever follows in the stream. */
  lemma LoadSave(x: Internals, t: Internals, rest: string)
    requires Fits(t)
    ensures LoadInto(x, Save(t) + rest) == Some(Loaded(t, None))
  {
    var r3 := SaveTables(t) + rest;
    var r2 := Line(IdSize) + r3;
    var r1 := Line(CharSize) + r2;
    assert Save(t) + rest == Line(1) + r1;
    ReadLine(1, r1);
    ReadNatSkipsSpace(r1);
    ReadLine(CharSize, r2);
    ReadNatSkipsSpace(r2);
    ReadLine(IdSize, r3);
    LoadSaveTables(t, rest);
    LoadTablesSkipsSpace(r3);
  }

  lemma LoadTablesSkipsSpace(s: string)
    ensures LoadTables(SkipSpace(s)) == LoadTables(s)
  {
    ReadIdSkipsSpace(s);
  }

  /** The header decides the exceptions: a char size other than 1 throws the char_type
      message, otherwise an id size other than 2 throws the id_type one, and either way
      the tables are left cleared. */
  lemma LoadHeaderMismatch(x: Internals, version: nat, charSize: nat, idSize: nat, rest: string)
    requires charSize != CharSize || idSize != IdSize
    ensures LoadInto(x, Line(version) + (Line(charSize) + (Line(idSize) + rest))) ==
      Some(Loaded(Clear(x), Some(if charSize != CharSize then CharMismatch else IdMismatch)))
  {
    ReadLine(version, Line(charSize) + (Line(idSize) + rest));
    ReadNatSkipsSpace(Line(charSize) + (Line(idSize) + rest));
    ReadLine(charSize, Line(idSize) + rest);
    ReadNatSkipsSpace(Line(idSize) + rest);
    ReadLine(idSize, rest);
  }
}
