/** What a restored dump holds: the dump starts each table with its own definition, so
    SQLite stores every value by the affinity of the column it was read from. */
module SqlColumns {
  import opened Text
  import opened SqlDump
  import opened SqlRestore

  /** Column affinities. */
  datatype Affinity = TextColumn | NumericColumn | IntegerColumn | RealColumn | BlobColumn

  /** SQLite's conversions: an integer to the nearest real, a real to the integer it is
      equal to, if there is one, a text to the number it spells in a numeric column, and
      a real to text. */
  datatype Engine = Engine(
    toReal: int -> Float64, whole: Float64 -> Option<int>,
    numeric: (Affinity, string) -> Option<Value>, toText: Float64 -> string)

  predicate IsNumber(v: Value) {
    v.Int? || v.Real?
  }

  /** How a column stores a value. */
  function Converted(e: Engine, column: Affinity, v: Value): Value {
    match v
    case Int(i) =>
      if column.RealColumn? then Real(e.toReal(i)) else if column.TextColumn? then Text(Itoa(i)) else v
    case Real(f) =>
      if column.TextColumn? then Text(e.toText(f))
      else if (column.IntegerColumn? || column.NumericColumn?) && e.whole(f).Some? then Int(e.whole(f).value)
      else v
    case Text(t) =>
      if column.TextColumn? || column.BlobColumn? || e.numeric(column, t).None? then v
      else e.numeric(column, t).value
    case _ => v
  }

  /** The number an integer below a million is as a real. */
  function ExactReal(i: int): Float64 {
    var d := Decimal(if i < 0 then -i else i);
    Scaled(i < 0, d, |d|)
  }

  /** Small integers are exact reals, reals printed as digits alone are equal to an
      integer, and a text that spells a number becomes one. */
  ghost predicate Sound(e: Engine) {
    && (forall i :: -1_000_000 < i < 1_000_000 ==> e.toReal(i) == ExactReal(i))
    && (forall f: Float64 :: PrintsAsInteger(f) ==> e.whole(f).Some?)
    && (forall c, t :: e.numeric(c, t).Some? ==> IsNumber(e.numeric(c, t).value))
  }

  /** A value as SQLite itself holds it in the column. */
  predicate Held(e: Engine, column: Affinity, v: Value) {
    !v.Bool? && !v.Shown? && Converted(e, column, v) == v
  }

  const NEGATIVE_ZERO := Finite(true, "", 0)

  /** The stored value is another one than was dumped: bytes that are valid UTF-8 become
      text, a whole real below a million becomes an integer in a column without a numeric
      type, and a negative zero loses its sign. */
  predicate Changes(utf8: seq<Byte> -> bool, column: Affinity, v: Value) {
    || (v.Bytes? && utf8(v.bytes))
    || (v.Real? && v.f == NEGATIVE_ZERO)
    || (v.Real? && column.BlobColumn? && PrintsAsInteger(v.f))
  }

  // ------------------------------------------------------------- numbers and reals

  lemma {:induction false} NumberBelow(s: string)
    requires AllDigits(s)
    ensures Number(s) < Pow10(|s|)
  {
    if s != "" {
      NumberBelow(s[..|s| - 1]);
    }
  }

  lemma {:induction false} DecimalOfNumber(s: string)
    requires AllDigits(s) && s != "" && s[0] != '0'
    ensures Number(s) > 0 && Decimal(Number(s)) == s
  {
    var p, c := s[..|s| - 1], s[|s| - 1];
    assert s == p + [c];
    if p == "" {
      assert Number(p) == 0;
      assert Number(s) == c as int - '0' as int;
      assert Decimal(Number(s)) == [Digit(Number(s))] == [c];
    } else {
      DecimalOfNumber(p);
      assert Number(s) == 10 * Number(p) + (c as int - '0' as int);
    }
  }

  lemma {:induction false} TrailingZeros(neg: bool, digits: string, k: nat, point: int)
    requires AllDigits(digits) && digits != "" && digits[0] != '0'
    ensures AllDigits(digits + Zeros(k)) && Scaled(neg, digits + Zeros(k), point) == Scaled(neg, digits, point)
  {
    if k == 0 {
      assert digits + Zeros(0) == digits;
    } else {
      ZerosSnoc(k - 1);
      Reassociate(digits, Zeros(k - 1), "0");
      var s := digits + Zeros(k);
      assert s[..|s| - 1] == digits + Zeros(k - 1) && s[0] == digits[0];
      TrailingZeros(neg, digits, k - 1, point);
    }
  }

  /** The digits of a real that is printed without a point. */
  lemma PrintedDigits(f: Float64)
    requires PrintsAsInteger(f) && f.digits != ""
    ensures var d := f.digits + Zeros(f.point - |f.digits|);
      && AllDigits(d) && IntegerOf(f) == Signed(f.neg, Number(d))
      && 0 < Number(d) < 1_000_000 && Decimal(Number(d)) == d && |d| == f.point
  {
    var k := f.point - |f.digits|;
    var d := f.digits + Zeros(k);
    ZerosMultiply(f.digits, k);
    assert d[0] == f.digits[0];
    DecimalOfNumber(d);
    NumberBelow(d);
    PowBelow(f.point);
  }

  lemma PowBelow(n: nat)
    requires n <= 6
    ensures Pow10(n) <= 1_000_000
  {
    assert Pow10(2) == 100 && Pow10(4) == 10_000 && Pow10(6) == 1_000_000;
    assert Pow10(1) == 10 && Pow10(3) == 1_000 && Pow10(5) == 100_000;
  }

  /** Reading the digits of a real and storing them in a REAL column gives it back. */
  lemma ExactBack(f: Float64)
    requires PrintsAsInteger(f)
    ensures -1_000_000 < IntegerOf(f) < 1_000_000
    ensures ExactReal(IntegerOf(f)) == if f == NEGATIVE_ZERO then Finite(false, "", 0) else f
  {
    if f.digits == "" {
      assert Decimal(0) == "0";
      assert "0"[1..] == "";
    } else {
      PrintedDigits(f);
      TrailingZeros(f.neg, f.digits, f.point - |f.digits|, f.point);
    }
  }

  // --------------------------------------------------------------------- the results

  /** A value that SQLite holds in a column comes back to it as itself, exactly when it is
      none of the three kinds that change. */
  lemma ComesBackIff(e: Engine, utf8: seq<Byte> -> bool, column: Affinity, v: Value)
    requires Sound(e) && Held(e, column, v)
    ensures Converted(e, column, Stored(utf8, v)) == v <==> !Changes(utf8, column, v)
  {
    match v
    case Real(f) =>
      if PrintsAsInteger(f) {
        ExactBack(f);
        assert e.whole(f).Some?;
      }
    case Bytes(x) =>
      if utf8(x) {
        assert e.numeric(column, AsText(x)).Some? ==> IsNumber(e.numeric(column, AsText(x)).value);
      }
    case _ =>
  }

  /** In a REAL column every finite real but negative zero comes back as itself. */
  lemma RealColumnsKeepReals(e: Engine, utf8: seq<Byte> -> bool, f: Float64)
    requires Sound(e) && f.Finite? && f != NEGATIVE_ZERO
    ensures Converted(e, RealColumn, Stored(utf8, Real(f))) == Real(f)
  {
    ComesBackIff(e, utf8, RealColumn, Real(f));
  }

  function StoredIn(e: Engine, columns: seq<Affinity>, row: Row): (r: Row)
    requires |row| == |columns|
    ensures |r| == |row|
  {
    seq(|row|, i requires 0 <= i < |row| => Converted(e, columns[i], row[i]))
  }

  /** The rows of a table with these columns after the script was run. None when it
      cannot be run: it does not read, or a row has another number of values. */
  function Restored(e: Engine, columns: seq<Affinity>, script: string): Option<seq<Row>> {
    var read := ReadScript(AsCString(script));
    if read.None? || exists i :: 0 <= i < |read.value| && |read.value[i].row| != |columns| then None
    else Some(seq(|read.value|, i requires 0 <= i < |read.value| => StoredIn(e, columns, read.value[i].row)))
  }

  /** A table as SQLite holds it. */
  predicate HeldTable(e: Engine, columns: seq<Affinity>, rows: seq<Row>) {
    columns != [] && forall i :: 0 <= i < |rows| ==> |rows[i]| == |columns| && HeldRow(e, columns, rows[i])
  }

  predicate HeldRow(e: Engine, columns: seq<Affinity>, row: Row)
    requires |row| == |columns|
  {
    forall j :: 0 <= j < |row| ==> Held(e, columns[j], row[j])
  }

  /** The value survives a dump and a restore. */
  predicate Survives(utf8: seq<Byte> -> bool, column: Affinity, v: Value) {
    Reaches(utf8, v) && !Changes(utf8, column, v)
  }

  predicate RowSurvives(utf8: seq<Byte> -> bool, columns: seq<Affinity>, row: Row)
    requires |row| == |columns|
  {
    forall j :: 0 <= j < |row| ==> Survives(utf8, columns[j], row[j])
  }

  lemma RowBackIff(e: Engine, utf8: seq<Byte> -> bool, columns: seq<Affinity>, row: Row)
    requires Sound(e) && |row| == |columns| && HeldRow(e, columns, row)
    ensures StoredIn(e, columns, StoredRow(utf8, row)) == row
       <==> forall j :: 0 <= j < |row| ==> !Changes(utf8, columns[j], row[j])
  {
    var back := StoredIn(e, columns, StoredRow(utf8, row));
    forall j | 0 <= j < |row| ensures back[j] == row[j] <==> !Changes(utf8, columns[j], row[j]) {
      assert Held(e, columns[j], row[j]);
      ComesBackIff(e, utf8, columns[j], row[j]);
    }
    if forall j :: 0 <= j < |row| ==> !Changes(utf8, columns[j], row[j]) {
      assert back == row;
    }
  }

  /** Dumping a table and restoring the dump gives the same table, exactly when every
      value survives: its text holds no NUL, as a real it is finite and not negative zero,
      as bytes it is not valid UTF-8, and as a whole real below a million it does not
      stand in a column without a numeric type. */
  lemma TableComesBackIff(e: Engine, utf8: seq<Byte> -> bool, table: string, columns: seq<Affinity>, rows: seq<Row>)
    requires Sound(e) && PlainName(table) && HeldTable(e, columns, rows)
    ensures Restored(e, columns, Script(utf8, table, rows)) == Some(rows)
       <==> forall i :: 0 <= i < |rows| ==> RowSurvives(utf8, columns, rows[i])
  {
    if Restorable(utf8, rows) {
      RestoredRows(e, utf8, table, columns, rows);
      var back := Restored(e, columns, Script(utf8, table, rows)).value;
      forall i | 0 <= i < |rows| ensures back[i] == rows[i] <==> RowSurvives(utf8, columns, rows[i]) {
        RowKeptIff(e, utf8, columns, rows[i]);
      }
      if forall i :: 0 <= i < |rows| ==> RowSurvives(utf8, columns, rows[i]) {
        assert back == rows;
      }
    } else {
      RestoreIffRestorable(utf8, table, rows);
      var i :| 0 <= i < |rows| && !RowReaches(utf8, rows[i]);
      RowParts(utf8, columns, rows[i]);
    }
  }

  lemma RowKeptIff(e: Engine, utf8: seq<Byte> -> bool, columns: seq<Affinity>, row: Row)
    requires Sound(e) && |row| == |columns| && HeldRow(e, columns, row) && RowReaches(utf8, row)
    ensures StoredIn(e, columns, StoredRow(utf8, row)) == row <==> RowSurvives(utf8, columns, row)
  {
    RowBackIff(e, utf8, columns, row);
    RowParts(utf8, columns, row);
  }

  lemma RowParts(utf8: seq<Byte> -> bool, columns: seq<Affinity>, row: Row)
    requires row != [] && |row| == |columns|
    ensures RowSurvives(utf8, columns, row)
       <==> RowReaches(utf8, row) && forall j :: 0 <= j < |row| ==> !Changes(utf8, columns[j], row[j])
  {
    if RowSurvives(utf8, columns, row) {
      forall j | 0 <= j < |row| ensures Reaches(utf8, row[j]) && !Changes(utf8, columns[j], row[j]) {
        assert Survives(utf8, columns[j], row[j]);
      }
    }
  }

  lemma RestoredRows(e: Engine, utf8: seq<Byte> -> bool, table: string, columns: seq<Affinity>, rows: seq<Row>)
    requires columns != [] && PlainName(table) && Restorable(utf8, rows)
    requires forall i :: 0 <= i < |rows| ==> |rows[i]| == |columns|
    ensures var back := Restored(e, columns, Script(utf8, table, rows));
      && back.Some? && |back.value| == |rows|
      && forall i :: 0 <= i < |rows| ==> back.value[i] == StoredIn(e, columns, StoredRow(utf8, rows[i]))
  {
    RestoreIffRestorable(utf8, table, rows);
    var read := Inserts(utf8, table, rows);
    forall i | 0 <= i < |rows| ensures |read| == |rows| && read[i] == Insert(table, StoredRow(utf8, rows[i])) {
      InsertsAt(utf8, table, rows, i);
    }
    assert rows == [] ==> read == [];
  }

  /** The literal of the real 1 is read as an integer; a REAL column, like the panel's
      traffic_multiplier, makes it the real 1 again. */
  lemma OneReturnsToItsColumn(e: Engine, utf8: seq<Byte> -> bool, rest: string)
    requires Sound(e) && AfterValue(rest)
    ensures ReadValue(Literal(utf8, Real(Finite(false, "1", 1))) + rest) == Some((Int(1), rest))
    ensures Converted(e, RealColumn, Int(1)) == Real(Finite(false, "1", 1))
  {
    var one := Finite(false, "1", 1);
    LiteralReadsBack(utf8, Real(one), rest);
    assert Number("1") == 1 && Pow10(0) == 1;
    RealColumnsKeepReals(e, utf8, one);
  }
}
