/** Restoring a dump of internal/database/dump_sqlite.go: the driver reads the script up to
    its first NUL, and SQLite stores each value by the affinity of its column. */
module SqlRestore {
  import opened Text
  import opened SqlDump

  // --------------------------------------------------- the script ends at a NUL

  /** The restore hands the script to the driver as a C string. */
  function AsCString(s: string): (r: string)
    ensures r <= s && Free(r, NUL)
    ensures Free(s, NUL) ==> r == s
  {
    if s == "" || s[0] == NUL then "" else [s[0]] + AsCString(s[1..])
  }

  predicate NulFree(v: Value) {
    v.Text? ==> Free(v.text, NUL)
  }

  /** The value has a literal, and its literal reaches the database. */
  predicate Reaches(utf8: seq<Byte> -> bool, v: Value) {
    HasLiteral(v) && NulFree(Stored(utf8, v))
  }

  /** There is a value, and every one reaches the database. */
  predicate RowReaches(utf8: seq<Byte> -> bool, row: Row) {
    row != [] && forall i :: 0 <= i < |row| ==> Reaches(utf8, row[i])
  }

  predicate Restorable(utf8: seq<Byte> -> bool, rows: seq<Row>) {
    forall i :: 0 <= i < |rows| ==> RowReaches(utf8, rows[i])
  }

  lemma FreeParts(s: string, t: string, c: char)
    ensures Free(s + t, c) <==> Free(s, c) && Free(t, c)
  {
  }

  lemma {:induction false} DoubledKeepsFree(t: string, q: char, c: char)
    requires Free(t, c) && c != q
    ensures Free(Doubled(t, q), c)
  {
    if t != "" {
      DoubledKeepsFree(t[1..], q, c);
    }
  }

  lemma {:induction false} HexFree(x: seq<Byte>)
    ensures Free(Hex(x), NUL)
  {
    if x != [] {
      HexDigitReadsBack(x[0] / 16);
      HexDigitReadsBack(x[0] % 16);
      HexFree(x[1..]);
    }
  }

  lemma DigitsFree(d: string)
    requires AllDigits(d)
    ensures Free(d, NUL)
  {
  }

  lemma PartsAreDigits(digits: string, point: int)
    requires AllDigits(digits)
    ensures AllDigits(WholePart(digits, point)) && AllDigits(FractionPart(digits, point))
  {
  }

  lemma UnsignedFree(digits: string, point: int)
    requires AllDigits(digits)
    ensures Free(Unsigned(digits, point), NUL)
  {
    if UsesExponent(point) && digits != "" {
      var e: nat := if point - 1 < 0 then 1 - point else point - 1;
      ExponentNumber(e);
      DigitsFree(Padded(e));
      DigitsFree(digits[1..]);
      FreeParts([digits[0]] + Fraction(digits[1..]), Exponent(point - 1), NUL);
    } else {
      PartsAreDigits(digits, point);
      DigitsFree(WholePart(digits, point));
      DigitsFree(FractionPart(digits, point));
      FreeParts(WholePart(digits, point), Fraction(FractionPart(digits, point)), NUL);
    }
  }

  lemma FloatFree(f: Float64)
    ensures Free(FormatFloat(f), NUL)
  {
    if f.Finite? {
      UnsignedFree(f.digits, f.point);
      FreeParts(if f.neg then "-" else "", Unsigned(f.digits, f.point), NUL);
    }
  }

  lemma LiteralFree(utf8: seq<Byte> -> bool, v: Value)
    requires NulFree(Stored(utf8, v))
    ensures Free(Literal(utf8, v), NUL)
  {
    match v
    case Null =>
    case Int(i) =>
      assert forall k :: 0 <= k < |Itoa(i)| ==> Itoa(i)[k] != NUL;
    case Real(f) => FloatFree(f);
    case Bool(b) =>
    case Text(t) => DoubledKeepsFree(t, QUOTE, NUL);
    case Bytes(x) =>
      if utf8(x) {
        DoubledKeepsFree(AsText(x), QUOTE, NUL);
      } else {
        HexFree(x);
      }
    case Shown(t) => DoubledKeepsFree(t, QUOTE, NUL);
  }

  lemma CStringStep(c: char, s: string)
    requires c != NUL
    ensures AsCString([c] + s) == [c] + AsCString(s)
  {
    assert ([c] + s)[1..] == s;
  }

  lemma {:induction false} CStringAfter(s: string, t: string)
    requires Free(s, NUL)
    ensures AsCString(s + t) == s + AsCString(t)
  {
    if s == "" {
      assert s + t == t && "" + AsCString(t) == AsCString(t);
    } else {
      var c, rest := s[0], s[1..];
      assert s == [c] + rest;
      CStringAfter(rest, t);
      Reassociate([c], rest, t);
      CStringStep(c, rest + t);
      Reassociate([c], rest, AsCString(t));
    }
  }

  lemma {:induction false} CStringCut(s: string, t: string)
    requires !Free(s, NUL)
    ensures AsCString(s + t) == AsCString(s)
  {
    if s[0] != NUL {
      assert s == [s[0]] + s[1..];
      CStringCut(s[1..], t);
      assert (s + t)[1..] == s[1..] + t;
    }
  }

  lemma {:induction false} DoubledCut(t: string, q: char)
    requires q != NUL
    ensures AsCString(Doubled(t, q)) == Doubled(AsCString(t), q)
    ensures Free(t, NUL) <==> Free(Doubled(t, q), NUL)
  {
    if t != "" {
      var head := if t[0] == q then [q, q] else [t[0]];
      assert t == [t[0]] + t[1..];
      DoubledCut(t[1..], q);
      FreeParts(head, Doubled(t[1..], q), NUL);
      FreeParts([t[0]], t[1..], NUL);
      if t[0] == NUL {
        assert (head + Doubled(t[1..], q))[0] == NUL;
      } else {
        CStringAfter(head, Doubled(t[1..], q));
        assert ([t[0]] + AsCString(t[1..]))[1..] == AsCString(t[1..]);
      }
    }
  }

  /** A quoted text that was cut off has no end. */
  lemma {:induction false} Unclosed(t: string, q: char)
    ensures ReadQuoted(Doubled(t, q), q).None?
  {
    if t != "" {
      Unclosed(t[1..], q);
      if t[0] == q {
        QuotedPair(Doubled(t[1..], q), q);
      } else {
        QuotedPlain(t[0], Doubled(t[1..], q), q);
      }
    }
  }

  lemma CutText(t: string, rest: string)
    requires !Free(t, NUL)
    ensures ReadValue(AsCString(QuoteText(t) + rest)).None?
  {
    var d := Doubled(t, QUOTE);
    DoubledCut(t, QUOTE);
    Reassociate([QUOTE], d, [QUOTE]);
    Reassociate([QUOTE], d + [QUOTE], rest);
    Reassociate(d, [QUOTE], rest);
    CStringAfter([QUOTE], d + ([QUOTE] + rest));
    CStringCut(d, [QUOTE] + rest);
    Unclosed(AsCString(t), QUOTE);
    assert ([QUOTE] + AsCString(d))[1..] == AsCString(d);
  }

  /** A literal in the script that reaches the database is read to its value, and one
      that does not cannot be read. */
  lemma LiteralCut(utf8: seq<Byte> -> bool, v: Value, rest: string)
    requires AfterValue(rest)
    ensures AfterValue(AsCString(rest))
    ensures ReadValue(AsCString(Literal(utf8, v) + rest))
         == if Reaches(utf8, v) then Some((Stored(utf8, v), AsCString(rest))) else None
  {
    if NulFree(Stored(utf8, v)) {
      LiteralFree(utf8, v);
      CStringAfter(Literal(utf8, v), rest);
      LiteralReadsBack(utf8, v, AsCString(rest));
    } else {
      CutText(Stored(utf8, v).text, rest);
    }
  }

  /** The first literal of a list, cut off or not. */
  lemma FirstValue(utf8: seq<Byte> -> bool, v: Value, rest: string)
    requires AfterValue(rest)
    ensures var s := AsCString(Literal(utf8, v) + rest);
      && s != "" && !IsSpace(s[0])
      && ReadValue(s) == (if Reaches(utf8, v) then Some((Stored(utf8, v), AsCString(rest))) else None)
      && (!Reaches(utf8, v) ==> ReadList(s).None?)
  {
    LiteralStart(utf8, v);
    LiteralCut(utf8, v, rest);
    SkipNothing(AsCString(Literal(utf8, v) + rest));
  }

  /** The list reader at a literal of the script and the token behind it. */
  lemma ValueCut(utf8: seq<Byte> -> bool, v: Value, next: char, rest: string)
    requires next == ',' || next == ')'
    ensures ReadList(AsCString(Literal(utf8, v) + ([next] + rest)))
         == if !Reaches(utf8, v) then None
            else if next == ',' then Before(Stored(utf8, v), ReadList(AsCString(rest)))
            else Some(([Stored(utf8, v)], AsCString(rest)))
  {
    FirstValue(utf8, v, [next] + rest);
    CStringStep(next, rest);
    if Reaches(utf8, v) {
      ListStep(AsCString(Literal(utf8, v) + ([next] + rest)), Stored(utf8, v), next, AsCString(rest));
    }
  }

  lemma {:induction false} ListCut(utf8: seq<Byte> -> bool, row: Row, rest: string)
    requires row != []
    ensures ReadList(AsCString(Values(utf8, row) + (")" + rest)))
         == if RowReaches(utf8, row) then Some((StoredRow(utf8, row), AsCString(rest))) else None
  {
    FirstAndMore(utf8, row);
    ListTail(utf8, row, rest);
    if |row| == 1 {
      ValueCut(utf8, row[0], ')', rest);
      assert StoredRow(utf8, row) == [Stored(utf8, row[0])];
    } else {
      ListCut(utf8, row[1..], rest);
      ValueCut(utf8, row[0], ',', Values(utf8, row[1..]) + (")" + rest));
    }
  }

  lemma FirstAndMore(utf8: seq<Byte> -> bool, row: Row)
    requires row != []
    ensures RowReaches(utf8, row) <==> Reaches(utf8, row[0]) && (|row| == 1 || RowReaches(utf8, row[1..]))
  {
    assert forall i :: 0 <= i < |row[1..]| ==> row[1..][i] == row[i + 1];
    if Reaches(utf8, row[0]) && (|row| == 1 || RowReaches(utf8, row[1..])) {
      forall i | 0 <= i < |row| ensures Reaches(utf8, row[i]) {
        assert i > 0 ==> Reaches(utf8, row[1..][i - 1]);
      }
    }
    if RowReaches(utf8, row) {
      forall i | 0 <= i < |row[1..]| ensures Reaches(utf8, row[1..][i]) {
        assert Reaches(utf8, row[i + 1]);
      }
    }
  }

  /** The name of the table reaches the database as it is. */
  predicate PlainName(table: string) {
    Free(table, '"') && Free(table, NUL)
  }

  lemma StatementCut(utf8: seq<Byte> -> bool, table: string, row: Row, rest: string)
    requires PlainName(table) && row != []
    ensures ReadStatement(AsCString(Statement(utf8, table, row) + rest))
         == if RowReaches(utf8, row) then Some((Insert(table, StoredRow(utf8, row)), "\n" + AsCString(rest))) else None
  {
    var list := Values(utf8, row) + (")" + (";\n" + rest));
    StatementShape(utf8, table, row, rest);
    StatementText(table, list);
    OpeningRead(table + (['"'] + (" VALUES(" + AsCString(list))));
    NameReadsBack(table, " VALUES(" + AsCString(list));
    AfterNameRead(table, AsCString(list));
    ListCut(utf8, row, ";\n" + rest);
    CStringAfter(";\n", rest);
    EndRead(AsCString(rest));
  }

  lemma StatementText(table: string, list: string)
    requires PlainName(table)
    ensures AsCString(OPENING + (table + (['"'] + (" VALUES(" + list))))
         == OPENING + (table + (['"'] + (" VALUES(" + AsCString(list))))
    ensures StartsOff(" VALUES(" + AsCString(list), '"')
  {
    CStringAfter(OPENING, table + (['"'] + (" VALUES(" + list)));
    CStringAfter(table, ['"'] + (" VALUES(" + list));
    CStringAfter(['"'], " VALUES(" + list);
    CStringAfter(" VALUES(", list);
    assert (" VALUES(" + AsCString(list))[0] == ' ';
  }

  /** Reading a dumped table's script gives all its rows in order, when all of them reach
      the database; when one does not, the script cannot be run at all. */
  lemma {:induction false} RestoreIffRestorable(utf8: seq<Byte> -> bool, table: string, rows: seq<Row>)
    requires PlainName(table) && forall i :: 0 <= i < |rows| ==> rows[i] != []
    ensures ReadScript(AsCString(Script(utf8, table, rows)))
         == if Restorable(utf8, rows) then Some(Inserts(utf8, table, rows)) else None
  {
    if rows != [] {
      var rest := Script(utf8, table, rows[1..]);
      RestoreIffRestorable(utf8, table, rows[1..]);
      StatementCut(utf8, table, rows[0], rest);
      ScriptSkips(AsCString(rest));
      ScriptStart(utf8, table, rows);
      FirstAndRest(utf8, rows);
    }
  }

  lemma ScriptStart(utf8: seq<Byte> -> bool, table: string, rows: seq<Row>)
    requires rows != []
    ensures Skip(AsCString(Script(utf8, table, rows))) != ""
  {
    var s := Script(utf8, table, rows);
    assert s == Statement(utf8, table, rows[0]) + Script(utf8, table, rows[1..]);
    assert Statement(utf8, table, rows[0])[0] == OPENING[0];
    assert s[0] == OPENING[0] == 'I';
    SkipNothing(AsCString(s));
  }

  lemma FirstAndRest(utf8: seq<Byte> -> bool, rows: seq<Row>)
    requires rows != []
    ensures Restorable(utf8, rows) <==> RowReaches(utf8, rows[0]) && Restorable(utf8, rows[1..])
  {
    if RowReaches(utf8, rows[0]) && Restorable(utf8, rows[1..]) {
      forall i | 0 <= i < |rows| ensures RowReaches(utf8, rows[i]) {
        assert i > 0 ==> rows[i] == rows[1..][i - 1];
      }
    }
    if Restorable(utf8, rows) {
      forall i | 0 <= i < |rows[1..]| ensures RowReaches(utf8, rows[1..][i]) {
        assert rows[1..][i] == rows[i + 1];
      }
    }
  }

  const NUL_TEXT := "a\0b"

  /** Such a text stops the whole script. */
  lemma NulStopsRestore(utf8: seq<Byte> -> bool, table: string)
    requires PlainName(table)
    ensures ReadScript(AsCString(Script(utf8, table, [[Text(NUL_TEXT)]]))).None?
  {
    var row := [Text(NUL_TEXT)];
    assert NUL_TEXT[1] == NUL;
    assert !Reaches(utf8, row[0]);
    assert !RowReaches(utf8, [row][0]);
    RestoreIffRestorable(utf8, table, [row]);
  }

  lemma {:induction false} InsertsAt(utf8: seq<Byte> -> bool, table: string, rows: seq<Row>, i: nat)
    requires i < |rows|
    ensures |Inserts(utf8, table, rows)| == |rows|
    ensures Inserts(utf8, table, rows)[i] == Insert(table, StoredRow(utf8, rows[i]))
  {
    if i > 0 {
      InsertsAt(utf8, table, rows[1..], i - 1);
    } else if |rows| > 1 {
      InsertsAt(utf8, table, rows[1..], 0);
    }
  }
}
