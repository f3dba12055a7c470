/** The SQL text dump of internal/database/dump_sqlite.go and a reader for it that follows
    SQL's literal rules. Text is a sequence of bytes, one character each. */
module SqlDump {
  import opened Text

  /** A scanned column value. Shown is any other Go value with its %v text, such as a
      time. */
  datatype Value =
    | Null
    | Int(i: int)
    | Real(f: Float64)
    | Bool(b: bool)
    | Text(text: string)
    | Bytes(bytes: seq<Byte>)
    | Shown(shown: string)

  /** A floating-point number stands for the shortest decimal that denotes it, 0.digits
      times ten to the point, which is how Go prints it and what reading it must find. */
  datatype Float = Finite(neg: bool, digits: string, point: int) | Infinite(neg: bool) | NotANumber

  predicate Shortest(f: Float) {
    f.Finite? ==>
      && AllDigits(f.digits)
      && (if f.digits == "" then f.point == 0 else f.digits[0] != '0' && f.digits[|f.digits| - 1] != '0')
  }

  type Float64 = f: Float | Shortest(f) witness NotANumber

  type Byte = b: nat | b < 256

  type Row = seq<Value>

  const QUOTE := '\''
  const NUL := '\0'

  // ------------------------------------------------------------------ printing

  /** strings.ReplaceAll(s, q, qq). */
  function Doubled(s: string, q: char): string {
    if s == "" then ""
    else (if s[0] == q then [q, q] else [s[0]]) + Doubled(s[1..], q)
  }

  function QuoteText(s: string): string {
    [QUOTE] + Doubled(s, QUOTE) + [QUOTE]
  }

  function HexDigit(n: nat): char
    requires n < 16
  {
    "0123456789abcdef"[n]
  }

  function Hex(bytes: seq<Byte>): string {
    if bytes == [] then ""
    else [HexDigit(bytes[0] / 16), HexDigit(bytes[0] % 16)] + Hex(bytes[1..])
  }

  function AsText(bytes: seq<Byte>): string {
    seq(|bytes|, i requires 0 <= i < |bytes| => bytes[i] as char)
  }

  function Zeros(n: nat): (z: string)
    ensures |z| == n && AllDigits(z) && forall i :: 0 <= i < n ==> z[i] == '0'
  {
    if n == 0 then "" else ['0'] + Zeros(n - 1)
  }

  /** Digits before the point, and those behind it. */
  function WholePart(digits: string, point: int): string {
    if point <= 0 then "0"
    else if point < |digits| then digits[..point]
    else digits + Zeros(point - |digits|)
  }

  function FractionPart(digits: string, point: int): string {
    if digits == "" then ""
    else if point <= 0 then Zeros(-point) + digits
    else if point < |digits| then digits[point..]
    else ""
  }

  function Fraction(digits: string): string {
    if digits == "" then "" else "." + digits
  }

  /** At least two digits. */
  function Padded(e: nat): string {
    (if e < 10 then "0" else "") + Decimal(e)
  }

  function Exponent(exp: int): string {
    if exp < 0 then "e-" + Padded(-exp) else "e+" + Padded(exp)
  }

  predicate UsesExponent(point: int) {
    point - 1 < -4 || point - 1 >= 6
  }

  /** The digits of a number without its sign. */
  function Unsigned(digits: string, point: int): string {
    if UsesExponent(point) && digits != "" then
      [digits[0]] + Fraction(digits[1..]) + Exponent(point - 1)
    else WholePart(digits, point) + Fraction(FractionPart(digits, point))
  }

  /** strconv.FormatFloat with format g and the shortest precision. */
  function FormatFloat(f: Float64): string {
    match f
    case Finite(neg, digits, point) => (if neg then "-" else "") + Unsigned(digits, point)
    case Infinite(neg) => if neg then "-Inf" else "+Inf"
    case NotANumber => "NaN"
  }

  /** sqliteLiteral; utf8 is utf8.Valid. */
  function Literal(utf8: seq<Byte> -> bool, v: Value): string {
    match v
    case Null => "NULL"
    case Int(i) => Itoa(i)
    case Real(f) => FormatFloat(f)
    case Bool(b) => if b then "1" else "0"
    case Text(s) => QuoteText(s)
    case Bytes(x) => if utf8(x) then QuoteText(AsText(x)) else "X'" + Hex(x) + [QUOTE]
    case Shown(s) => QuoteText(s)
  }

  /** The values after the first, each behind its comma. */
  function MoreValues(utf8: seq<Byte> -> bool, row: Row): string {
    if row == [] then "" else "," + Literal(utf8, row[0]) + MoreValues(utf8, row[1..])
  }

  function Values(utf8: seq<Byte> -> bool, row: Row): string {
    if row == [] then "" else Literal(utf8, row[0]) + MoreValues(utf8, row[1..])
  }

  const OPENING := "INSERT INTO \""
  const VALUES := "\" VALUES("
  const CLOSING := ");\n"

  function Statement(utf8: seq<Byte> -> bool, table: string, row: Row): string {
    OPENING + table + VALUES + Values(utf8, row) + CLOSING
  }

  function Script(utf8: seq<Byte> -> bool, table: string, rows: seq<Row>): string {
    if rows == [] then "" else Statement(utf8, table, rows[0]) + Script(utf8, table, rows[1..])
  }

  /** strings.Builder. */
  class Builder {
    var text: string

    constructor ()
      ensures text == ""
    {
      text := "";
    }

    method WriteString(s: string)
      modifies this
      ensures text == old(text) + s
    {
      text := text + s;
    }
  }

  /** The part of the list still to be written at index i. */
  function ValuesFrom(utf8: seq<Byte> -> bool, row: Row, i: nat): string
    requires i <= |row|
  {
    if i == 0 then Values(utf8, row) else MoreValues(utf8, row[i..])
  }

  lemma ValuesStep(utf8: seq<Byte> -> bool, row: Row, i: nat)
    requires i < |row|
    ensures ValuesFrom(utf8, row, i)
         == (if i > 0 then "," else "") + Literal(utf8, row[i]) + ValuesFrom(utf8, row, i + 1)
  {
    if i == 0 {
      assert "" + Literal(utf8, row[0]) == Literal(utf8, row[0]);
    } else {
      assert row[i..][1..] == row[i + 1..];
    }
  }

  method WriteValues(utf8: seq<Byte> -> bool, row: Row, b: Builder)
    modifies b
    ensures b.text == old(b.text) + Values(utf8, row)
  {
    for i := 0 to |row|
      invariant b.text + ValuesFrom(utf8, row, i) == old(b.text) + Values(utf8, row)
    {
      ValuesStep(utf8, row, i);
      ghost var before, rest := b.text, ValuesFrom(utf8, row, i + 1);
      var comma, literal := if i > 0 then "," else "", Literal(utf8, row[i]);
      b.WriteString(comma);
      b.WriteString(literal);
      Reassociate(before, comma + literal, rest);
      Reassociate(before, comma, literal);
    }
    assert ValuesFrom(utf8, row, |row|) == "";
  }

  /** dumpTableData: one INSERT per row, in order. */
  method DumpTableData(utf8: seq<Byte> -> bool, rows: seq<Row>, table: string, b: Builder)
    modifies b
    ensures b.text == old(b.text) + Script(utf8, table, rows)
  {
    var prefix := OPENING + table + VALUES;
    assert rows[0..] == rows;
    for i := 0 to |rows|
      invariant b.text + Script(utf8, table, rows[i..]) == old(b.text) + Script(utf8, table, rows)
    {
      ghost var before, rest := b.text, Script(utf8, table, rows[i + 1..]);
      assert rows[i..][1..] == rows[i + 1..];
      b.WriteString(prefix);
      WriteValues(utf8, rows[i], b);
      b.WriteString(CLOSING);
      Reassociate(before, prefix, Values(utf8, rows[i]));
      Reassociate(before, prefix + Values(utf8, rows[i]), CLOSING);
      Reassociate(before, Statement(utf8, table, rows[i]), rest);
    }
  }

  // ------------------------------------------------------------------- reading

  /** A text up to its closing quote, where a doubled quote stands for one (SQL-92,
      section 5.3); then what follows. */
  function ReadQuoted(s: string, q: char): (r: Option<(string, string)>)
    ensures r.Some? ==> |r.value.1| < |s|
    decreases |s|
  {
    if s == "" then None
    else if s[0] != q then Before(s[0], ReadQuoted(s[1..], q))
    else if |s| > 1 && s[1] == q then Before(q, ReadQuoted(s[2..], q))
    else Some(("", s[1..]))
  }

  function Before<T, R>(x: T, read: Option<(seq<T>, R)>): Option<(seq<T>, R)> {
    match read
    case Some((more, rest)) => Some(([x] + more, rest))
    case None => None
  }

  function HexValue(c: char): (n: Option<nat>)
    ensures n.Some? ==> n.value < 16
  {
    if '0' <= c <= '9' then Some((c - '0') as nat)
    else if 'a' <= c <= 'f' then Some((c - 'a') as nat + 10)
    else if 'A' <= c <= 'F' then Some((c - 'A') as nat + 10)
    else None
  }

  function FromHex(c: char, d: char): Byte
    requires HexValue(c).Some? && HexValue(d).Some?
  {
    16 * HexValue(c).value + HexValue(d).value
  }

  /** Pairs of hexadecimal digits up to the closing quote. */
  function ReadHex(s: string): (r: Option<(seq<Byte>, string)>)
    ensures r.Some? ==> |r.value.1| < |s|
    decreases |s|
  {
    if s == "" then None
    else if s[0] == '\'' then Some(([], s[1..]))
    else if |s| > 1 && HexValue(s[0]).Some? && HexValue(s[1]).Some? then
      Before(FromHex(s[0], s[1]), ReadHex(s[2..]))
    else None
  }

  function DigitRun(s: string): (n: nat)
    ensures n <= |s| && AllDigits(s[..n]) && (n < |s| ==> !IsDigit(s[n]))
  {
    if s == "" || !IsDigit(s[0]) then 0
    else
      var n := DigitRun(s[1..]);
      assert s[..n + 1] == [s[0]] + s[1..][..n];
      1 + n
  }

  function Signed(neg: bool, n: nat): int {
    var i: int := n;
    if neg then -i else i
  }

  /** The digits behind a point, when there is one, and what follows. */
  function ReadFraction(s: string): (r: (Option<string>, string))
    ensures |r.1| <= |s| && (r.0.Some? ==> AllDigits(r.0.value))
  {
    if s != "" && s[0] == '.' then
      var n := DigitRun(s[1..]);
      (Some(s[1..][..n]), s[1..][n..])
    else (None, s)
  }

  predicate StartsExponent(s: string) {
    s != "" && (s[0] == 'e' || s[0] == 'E')
  }

  /** A decimal exponent, when there is one, and what follows. */
  function ReadExponent(s: string): (r: (Option<int>, string))
    ensures |r.1| <= |s|
  {
    if !StartsExponent(s) then (None, s)
    else
      var signed := |s| > 1 && (s[1] == '+' || s[1] == '-');
      var t := if signed then s[2..] else s[1..];
      var n := DigitRun(t);
      if n == 0 then (None, s)
      else (Some(Signed(signed && s[1] == '-', Number(t[..n]))), t[n..])
  }

  /** The number 0.digits times ten to the point, in its shortest form. */
  function Scaled(neg: bool, digits: string, point: int): (f: Float64)
    requires AllDigits(digits)
    ensures f.Finite?
    decreases |digits|
  {
    if digits == "" then Finite(neg, "", 0)
    else if digits[0] == '0' then Scaled(neg, digits[1..], point - 1)
    else if digits[|digits| - 1] == '0' then Scaled(neg, digits[..|digits| - 1], point)
    else Finite(neg, digits, point)
  }

  /** A number without its sign: an integer unless it has a point or an exponent. */
  function ReadNumber(neg: bool, s: string): (r: Option<(Value, string)>)
    ensures r.Some? ==> |r.value.1| < |s|
  {
    var n := DigitRun(s);
    if n == 0 then None else Some(ReadAfterWhole(neg, s[..n], s[n..]))
  }

  function ReadAfterWhole(neg: bool, whole: string, s: string): (r: (Value, string))
    requires AllDigits(whole)
    ensures |r.1| <= |s|
  {
    var (fraction, rest) := ReadFraction(s);
    var (exponent, after) := ReadExponent(rest);
    if fraction.None? && exponent.None? then (Int(Signed(neg, Number(whole))), after)
    else
      var behind := if fraction.Some? then fraction.value else "";
      (Real(Scaled(neg, whole + behind, |whole| + if exponent.Some? then exponent.value else 0)), after)
  }

  /** One literal and what follows it. */
  function ReadValue(s: string): (r: Option<(Value, string)>)
    ensures r.Some? ==> |r.value.1| < |s|
  {
    if s == "" then None
    else if s[0] == '\'' then
      match ReadQuoted(s[1..], '\'')
      case Some((t, rest)) => Some((Text(t), rest))
      case None => None
    else if Begins(s, "X'") then
      match ReadHex(s[2..])
      case Some((x, rest)) => Some((Bytes(x), rest))
      case None => None
    else if Begins(s, "NULL") then Some((Null, s[4..]))
    else if s[0] == '-' then ReadNumber(true, s[1..])
    else ReadNumber(false, s)
  }

  predicate IsSpace(c: char) {
    c == ' ' || c == '\t' || c == '\n' || c == '\r'
  }

  function Skip(s: string): (r: string)
    ensures |r| <= |s| && (r == "" || !IsSpace(r[0]))
  {
    if s != "" && IsSpace(s[0]) then Skip(s[1..]) else s
  }

  /** What may stand inside a name or a keyword. */
  predicate IsNameChar(c: char) {
    'a' <= c <= 'z' || 'A' <= c <= 'Z' || IsDigit(c) || c == '_' || c == '$' || c >= 128 as char
  }

  /** A keyword, and what follows it. */
  function Word(w: string, s: string): (r: Option<string>)
    ensures r.Some? ==> |r.value| <= |s|
  {
    var t := Skip(s);
    if Begins(t, w) && (|t| == |w| || !IsNameChar(t[|w|])) then Some(t[|w|..]) else None
  }

  /** A single character that is a token, and what follows it. */
  function Symbol(c: char, s: string): (r: Option<string>)
    ensures r.Some? ==> |r.value| < |s|
  {
    var t := Skip(s);
    if t != "" && t[0] == c then Some(t[1..]) else None
  }

  /** Literals separated by commas, through the closing bracket. */
  function ReadList(s: string): (r: Option<(Row, string)>)
    ensures r.Some? ==> |r.value.1| < |s|
    decreases |s|
  {
    match ReadValue(Skip(s))
    case None => None
    case Some((v, rest)) =>
      var comma, close := Symbol(',', rest), Symbol(')', rest);
      if comma.Some? then Before(v, ReadList(comma.value))
      else if close.Some? then Some(([v], close.value))
      else None
  }

  datatype Insert = Insert(table: string, row: Row)

  /** INSERT INTO, a name in double quotes, VALUES, a list in brackets and a semicolon,
      and what follows them. */
  function ReadStatement(s: string): (r: Option<(Insert, string)>)
    ensures r.Some? ==> |r.value.1| < |s|
  {
    var insert := Word("INSERT", s);
    if insert.None? then None else
    var into := Word("INTO", insert.value);
    if into.None? then None else
    var name := Symbol('"', into.value);
    if name.None? then None else
    match ReadQuoted(name.value, '"')
    case None => None
    case Some((table, rest)) => ReadAfterName(table, rest)
  }

  function ReadAfterName(table: string, s: string): (r: Option<(Insert, string)>)
    ensures r.Some? ==> |r.value.1| < |s| && r.value.0.table == table
  {
    var values := Word("VALUES", s);
    if values.None? then None else
    var open := Symbol('(', values.value);
    if open.None? then None else
    match ReadList(open.value)
    case None => None
    case Some((row, rest)) =>
      var end := Symbol(';', rest);
      if end.None? then None else Some((Insert(table, row), end.value))
  }

  function ReadScript(s: string): Option<seq<Insert>>
    decreases |s|
  {
    if Skip(s) == "" then Some([])
    else
      match ReadStatement(s)
      case None => None
      case Some((insert, rest)) =>
        match ReadScript(rest)
        case Some(more) => Some([insert] + more)
        case None => None
  }

  // ------------------------------------------------------- values read back

  function Pow10(n: nat): nat {
    if n == 0 then 1 else 10 * Pow10(n - 1)
  }

  /** A real that is printed as its digits alone. */
  predicate PrintsAsInteger(f: Float64) {
    f.Finite? && (f.digits == "" || (|f.digits| <= f.point && !UsesExponent(f.point)))
  }

  function IntegerOf(f: Float64): int
    requires PrintsAsInteger(f)
  {
    if f.digits == "" then 0
    else Signed(f.neg, Number(f.digits) * Pow10(f.point - |f.digits|))
  }

  /** The value a literal stands for: booleans are numbers, reals printed as digits alone
      are integers of the same value, and bytes that are valid UTF-8 are text. */
  function Stored(utf8: seq<Byte> -> bool, v: Value): Value {
    match v
    case Bool(b) => Int(if b then 1 else 0)
    case Real(f) => if PrintsAsInteger(f) then Int(IntegerOf(f)) else v
    case Bytes(x) => if utf8(x) then Text(AsText(x)) else v
    case Shown(s) => Text(s)
    case _ => v
  }

  function StoredRow(utf8: seq<Byte> -> bool, row: Row): (r: Row)
    ensures |r| == |row| && forall i :: 0 <= i < |row| ==> r[i] == Stored(utf8, row[i])
  {
    if row == [] then [] else [Stored(utf8, row[0])] + StoredRow(utf8, row[1..])
  }

  predicate StartsOff(rest: string, q: char) {
    rest != "" && rest[0] != q
  }

  lemma QuotedPlain(c: char, more: string, q: char)
    requires c != q
    ensures ReadQuoted([c] + more, q) == Before(c, ReadQuoted(more, q))
  {
    assert ([c] + more)[1..] == more;
  }

  lemma QuotedPair(more: string, q: char)
    ensures ReadQuoted([q, q] + more, q) == Before(q, ReadQuoted(more, q))
  {
    assert ([q, q] + more)[2..] == more;
  }

  lemma QuotedEnd(rest: string, q: char)
    requires StartsOff(rest, q)
    ensures ReadQuoted([q] + rest, q) == Some(("", rest))
  {
    assert ([q] + rest)[1..] == rest;
  }

  lemma {:induction false} QuotedReadsBack(t: string, q: char, rest: string)
    requires StartsOff(rest, q)
    ensures ReadQuoted(Doubled(t, q) + ([q] + rest), q) == Some((t, rest))
  {
    var end := [q] + rest;
    if t == "" {
      assert "" + end == end;
      QuotedEnd(rest, q);
    } else {
      var more := Doubled(t[1..], q) + end;
      QuotedReadsBack(t[1..], q, rest);
      assert t == [t[0]] + t[1..];
      if t[0] == q {
        Reassociate([q, q], Doubled(t[1..], q), end);
        QuotedPair(more, q);
      } else {
        Reassociate([t[0]], Doubled(t[1..], q), end);
        QuotedPlain(t[0], more, q);
      }
    }
  }

  lemma HexDigitReadsBack(n: nat)
    requires n < 16
    ensures HexValue(HexDigit(n)) == Some(n) && HexDigit(n) != QUOTE
  {
    assert HexDigit(n) == if n < 10 then ('0' as int + n) as char else ('a' as int + n - 10) as char;
  }

  lemma HexPair(c: char, d: char, more: string)
    requires HexValue(c).Some? && HexValue(d).Some? && c != QUOTE
    ensures ReadHex([c, d] + more) == Before(FromHex(c, d), ReadHex(more))
  {
    assert ([c, d] + more)[2..] == more;
  }

  lemma {:induction false} HexReadsBack(x: seq<Byte>, rest: string)
    ensures ReadHex(Hex(x) + ([QUOTE] + rest)) == Some((x, rest))
  {
    var end := [QUOTE] + rest;
    if x == [] {
      assert "" + end == end && end[1..] == rest;
    } else {
      var c, d := HexDigit(x[0] / 16), HexDigit(x[0] % 16);
      HexDigitReadsBack(x[0] / 16);
      HexDigitReadsBack(x[0] % 16);
      HexReadsBack(x[1..], rest);
      HexPair(c, d, Hex(x[1..]) + end);
      Reassociate([c, d], Hex(x[1..]), end);
      assert x == [x[0]] + x[1..];
    }
  }

  /** What may follow a literal in a statement. */
  predicate AfterValue(rest: string) {
    rest != "" && (rest[0] == ',' || rest[0] == ')')
  }

  lemma {:induction false} RunOfDigits(d: string, rest: string)
    requires AllDigits(d) && (rest == "" || !IsDigit(rest[0]))
    ensures DigitRun(d + rest) == |d|
  {
    if d == "" {
      assert d + rest == rest;
    } else {
      RunOfDigits(d[1..], rest);
      assert (d + rest)[1..] == d[1..] + rest;
    }
  }

  lemma NoWord(s: string)
    requires s != "" && s[0] != 'X' && s[0] != 'N'
    ensures !Begins(s, "X'") && !Begins(s, "NULL")
  {
    assert |s| >= 2 ==> s[..2][0] == s[0];
    assert |s| >= 4 ==> s[..4][0] == s[0];
  }

  /** The first step of reading a number. */
  lemma WholeRead(d: string, rest: string)
    requires AllDigits(d) && d != "" && rest != "" && !IsDigit(rest[0])
    ensures forall neg :: ReadNumber(neg, d + rest) == Some(ReadAfterWhole(neg, d, rest))
  {
    var s := d + rest;
    RunOfDigits(d, rest);
    assert s[..|d|] == d && s[|d|..] == rest;
  }

  lemma IntegerRead(neg: bool, d: string, rest: string)
    requires AllDigits(d) && d != "" && AfterValue(rest)
    ensures ReadNumber(neg, d + rest) == Some((Int(Signed(neg, Number(d))), rest))
  {
    WholeRead(d, rest);
    NoExponent(rest);
  }

  /** The sign of a number, as ReadValue takes it. */
  lemma SignedRead(neg: bool, s: string)
    requires s != "" && IsDigit(s[0])
    ensures ReadValue((if neg then "-" else "") + s) == ReadNumber(neg, s)
  {
    var t := (if neg then "-" else "") + s;
    NoWord(t);
    if neg {
      assert t[1..] == s;
    } else {
      assert t == s;
    }
  }

  lemma IntReadsBack(i: int, rest: string)
    requires AfterValue(rest)
    ensures ReadValue(Itoa(i) + rest) == Some((Int(i), rest))
  {
    var n: nat := if i < 0 then -i else i;
    var s := Decimal(n) + rest;
    DecimalRoundTrip(n);
    IntegerRead(i < 0, Decimal(n), rest);
    assert s[0] == Decimal(n)[0];
    SignedRead(i < 0, s);
    if i < 0 {
      Reassociate("-", Decimal(n), rest);
    } else {
      assert "" + s == s;
    }
  }

  // Reals.

  lemma NumberSnoc(s: string, c: char)
    requires AllDigits(s) && IsDigit(c)
    ensures AllDigits(s + [c]) && Number(s + [c]) == 10 * Number(s) + (c as int - '0' as int)
  {
    assert (s + [c])[..|s|] == s;
  }

  lemma {:induction false} ZerosMultiply(digits: string, k: nat)
    requires AllDigits(digits)
    ensures AllDigits(digits + Zeros(k)) && Number(digits + Zeros(k)) == Number(digits) * Pow10(k)
  {
    if k == 0 {
      assert digits + Zeros(0) == digits;
    } else {
      ZerosMultiply(digits, k - 1);
      ZerosSnoc(k - 1);
      Reassociate(digits, Zeros(k - 1), "0");
      NumberSnoc(digits + Zeros(k - 1), '0');
      TenTimes(Number(digits), Pow10(k - 1));
    }
  }

  lemma TenTimes(n: nat, p: nat)
    ensures 10 * (n * p) == n * (10 * p)
  {
  }

  lemma {:induction false} ZerosSnoc(k: nat)
    ensures Zeros(k) + "0" == Zeros(k + 1)
  {
    if k > 0 {
      ZerosSnoc(k - 1);
      Reassociate("0", Zeros(k - 1), "0");
    }
  }

  lemma OneZero(neg: bool, digits: string, point: int)
    requires AllDigits(digits)
    ensures Scaled(neg, "0" + digits, point) == Scaled(neg, digits, point - 1)
  {
    assert ("0" + digits)[1..] == digits;
  }

  lemma {:induction false} LeadingZeros(neg: bool, k: nat, digits: string, point: int)
    requires AllDigits(digits)
    ensures Scaled(neg, Zeros(k) + digits, point) == Scaled(neg, digits, point - k)
  {
    if k == 0 {
      assert Zeros(0) + digits == digits;
    } else {
      LeadingZeros(neg, k - 1, digits, point - 1);
      Reassociate("0", Zeros(k - 1), digits);
      OneZero(neg, Zeros(k - 1) + digits, point);
    }
  }

  lemma FractionRead(digits: string, rest: string)
    requires AllDigits(digits) && rest != "" && !IsDigit(rest[0]) && rest[0] != '.'
    ensures ReadFraction(Fraction(digits) + rest) == (if digits == "" then None else Some(digits), rest)
  {
    var s := Fraction(digits) + rest;
    if digits == "" {
      assert s == rest;
    } else {
      assert s[1..] == digits + rest;
      RunOfDigits(digits, rest);
    }
  }

  lemma ExponentNumber(e: nat)
    ensures Padded(e) != "" && AllDigits(Padded(e)) && Number(Padded(e)) == e
  {
    DecimalRoundTrip(e);
    if e < 10 {
      NumberSnoc("0", Digit(e));
      assert "0" + Decimal(e) == "0" + [Digit(e)];
      assert Number("0") == 0;
    } else {
      assert "" + Decimal(e) == Decimal(e);
    }
  }

  lemma SignedExponentRead(neg: bool, d: string, rest: string)
    requires AllDigits(d) && d != "" && AfterValue(rest)
    ensures ReadExponent((if neg then "e-" else "e+") + (d + rest)) == (Some(Signed(neg, Number(d))), rest)
  {
    var s := (if neg then "e-" else "e+") + (d + rest);
    RunOfDigits(d, rest);
    assert s[2..] == d + rest;
    assert (d + rest)[..|d|] == d && (d + rest)[|d|..] == rest;
  }

  lemma ExponentRead(exp: int, rest: string)
    requires AfterValue(rest)
    ensures ReadExponent(Exponent(exp) + rest) == (Some(exp), rest)
  {
    var e: nat := if exp < 0 then -exp else exp;
    ExponentNumber(e);
    Reassociate(if exp < 0 then "e-" else "e+", Padded(e), rest);
    SignedExponentRead(exp < 0, Padded(e), rest);
  }

  lemma NoExponent(rest: string)
    requires AfterValue(rest)
    ensures ReadExponent(rest) == (None, rest) && ReadFraction(rest) == (None, rest)
  {
  }

  function ExponentIf(exp: Option<int>): string {
    if exp.Some? then Exponent(exp.value) else ""
  }

  /** A number with a fraction, an exponent, or both. */
  lemma RealRead(neg: bool, whole: string, fraction: string, exp: Option<int>, rest: string)
    requires AllDigits(whole) && whole != "" && AllDigits(fraction) && (fraction != "" || exp.Some?) && AfterValue(rest)
    ensures AllDigits(whole + fraction)
    ensures ReadNumber(neg, whole + (Fraction(fraction) + (ExponentIf(exp) + rest)))
         == Some((Real(Scaled(neg, whole + fraction, |whole| + if exp.Some? then exp.value else 0)), rest))
  {
    var tail := ExponentIf(exp) + rest;
    ExponentIfRead(exp, rest);
    FractionStart(fraction, tail);
    WholeRead(whole, Fraction(fraction) + tail);
    FractionRead(fraction, tail);
    PartsRead(neg, whole, fraction, exp, Fraction(fraction) + tail, tail, rest);
  }

  lemma PartsRead(neg: bool, whole: string, fraction: string, exp: Option<int>, s: string, tail: string, rest: string)
    requires AllDigits(whole) && AllDigits(fraction) && (fraction != "" || exp.Some?)
    requires ReadFraction(s) == (if fraction == "" then None else Some(fraction), tail)
    requires ReadExponent(tail) == (exp, rest)
    ensures AllDigits(whole + fraction)
    ensures ReadAfterWhole(neg, whole, s)
         == (Real(Scaled(neg, whole + fraction, |whole| + if exp.Some? then exp.value else 0)), rest)
  {
    assert fraction == "" ==> whole + "" == whole + fraction;
  }

  lemma ExponentIfRead(exp: Option<int>, rest: string)
    requires AfterValue(rest)
    ensures var s := ExponentIf(exp) + rest;
      s != "" && !IsDigit(s[0]) && s[0] != '.' && ReadExponent(s) == (exp, rest)
  {
    if exp.Some? {
      ExponentRead(exp.value, rest);
      assert Exponent(exp.value)[0] == 'e';
    } else {
      assert ExponentIf(exp) + rest == rest;
      NoExponent(rest);
    }
  }

  lemma FractionStart(digits: string, rest: string)
    requires rest != "" && !IsDigit(rest[0])
    ensures var s := Fraction(digits) + rest; s != "" && !IsDigit(s[0])
  {
    assert digits != "" ==> Fraction(digits)[0] == '.';
  }

  /** A shortest decimal reads back as itself, or as the integer it is printed as. */
  lemma UnsignedReadsBack(f: Float64, rest: string)
    requires f.Finite? && AfterValue(rest)
    ensures ReadNumber(f.neg, Unsigned(f.digits, f.point) + rest)
         == Some((if PrintsAsInteger(f) then Int(IntegerOf(f)) else Real(f), rest))
  {
    if PrintsAsInteger(f) {
      WholeReal(f, rest);
    } else if UsesExponent(f.point) {
      ExponentReal(f, rest);
    } else {
      FractionReal(f, rest);
    }
  }

  lemma WholeReal(f: Float64, rest: string)
    requires PrintsAsInteger(f) && AfterValue(rest)
    ensures ReadNumber(f.neg, Unsigned(f.digits, f.point) + rest) == Some((Int(IntegerOf(f)), rest))
  {
    var d := Unsigned(f.digits, f.point);
    assert AllDigits(d) && d != "" && Signed(f.neg, Number(d)) == IntegerOf(f) by { WholeDigits(f); }
    IntegerRead(f.neg, d, rest);
  }

  lemma WholeDigits(f: Float64)
    requires PrintsAsInteger(f)
    ensures var d := Unsigned(f.digits, f.point);
      AllDigits(d) && d != "" && Signed(f.neg, Number(d)) == IntegerOf(f)
  {
    if f.digits == "" {
      assert Unsigned(f.digits, f.point) == "0" && Number("0") == 0;
    } else {
      var k := f.point - |f.digits|;
      ZerosMultiply(f.digits, k);
      assert WholePart(f.digits, f.point) == f.digits + Zeros(k);
      assert Unsigned(f.digits, f.point) == f.digits + Zeros(k);
    }
  }

  lemma ExponentReal(f: Float64, rest: string)
    requires f.Finite? && f.digits != "" && UsesExponent(f.point) && AfterValue(rest)
    ensures ReadNumber(f.neg, Unsigned(f.digits, f.point) + rest) == Some((Real(f), rest))
  {
    var lead, behind, exp := [f.digits[0]], f.digits[1..], Exponent(f.point - 1);
    RealRead(f.neg, lead, behind, Some(f.point - 1), rest);
    Reassociate(lead + Fraction(behind), exp, rest);
    Reassociate(lead, Fraction(behind), exp + rest);
    assert lead + behind == f.digits;
  }

  lemma FractionReal(f: Float64, rest: string)
    requires f.Finite? && f.digits != "" && !UsesExponent(f.point) && f.point < |f.digits| && AfterValue(rest)
    ensures ReadNumber(f.neg, Unsigned(f.digits, f.point) + rest) == Some((Real(f), rest))
  {
    var whole, behind := WholePart(f.digits, f.point), FractionPart(f.digits, f.point);
    RealRead(f.neg, whole, behind, None, rest);
    assert "" + rest == rest;
    Reassociate(whole, Fraction(behind), rest);
    PointFound(f);
  }

  lemma PointFound(f: Float64)
    requires f.Finite? && f.digits != "" && f.point < |f.digits|
    ensures var whole, behind := WholePart(f.digits, f.point), FractionPart(f.digits, f.point);
      AllDigits(whole + behind) && Scaled(f.neg, whole + behind, |whole|) == f
  {
    if f.point <= 0 {
      var k := -f.point;
      LeadingZeros(f.neg, k + 1, f.digits, 1);
      assert Zeros(k + 1) == "0" + Zeros(k);
      Reassociate("0", Zeros(k), f.digits);
    } else {
      assert WholePart(f.digits, f.point) + FractionPart(f.digits, f.point) == f.digits;
    }
  }

  /** A real that is finite reads back, and one that is not cannot be read at all. */
  lemma RealReadsBack(f: Float64, rest: string)
    requires AfterValue(rest)
    ensures ReadValue(FormatFloat(f) + rest)
         == if f.Finite? then Some((if PrintsAsInteger(f) then Int(IntegerOf(f)) else Real(f), rest)) else None
  {
    match f
    case Finite(neg, digits, point) =>
      var d := Unsigned(digits, point);
      UnsignedReadsBack(f, rest);
      assert d != "" && IsDigit(d[0]) by { UnsignedStart(f); }
      SignedRead(neg, d + rest);
      Reassociate(if neg then "-" else "", d, rest);
    case Infinite(neg) => InfinityUnread(neg, rest);
    case NotANumber => NaNUnread(rest);
  }

  lemma UnsignedStart(f: Float64)
    requires f.Finite?
    ensures Unsigned(f.digits, f.point) != "" && IsDigit(Unsigned(f.digits, f.point)[0])
  {
  }

  lemma InfinityUnread(neg: bool, rest: string)
    ensures ReadValue((if neg then "-Inf" else "+Inf") + rest).None?
  {
    var s := (if neg then "-Inf" else "+Inf") + rest;
    NoWord(s);
    assert s[1..][0] == 'I';
  }

  lemma NaNUnread(rest: string)
    ensures ReadValue("NaN" + rest).None?
  {
    var s := "NaN" + rest;
    assert s[..2] == "Na";
    assert |s| >= 4 ==> s[..4][1] == 'a';
  }

  lemma TextReadsBack(t: string, rest: string)
    requires AfterValue(rest)
    ensures ReadValue(QuoteText(t) + rest) == Some((Text(t), rest))
  {
    var s := QuoteText(t) + rest;
    QuotedReadsBack(t, QUOTE, rest);
    assert s == [QUOTE] + (Doubled(t, QUOTE) + ([QUOTE] + rest));
    assert s[1..] == Doubled(t, QUOTE) + ([QUOTE] + rest);
  }

  lemma BlobReadsBack(x: seq<Byte>, rest: string)
    ensures ReadValue("X'" + Hex(x) + [QUOTE] + rest) == Some((Bytes(x), rest))
  {
    var s := "X'" + Hex(x) + [QUOTE] + rest;
    HexReadsBack(x, rest);
    assert s == "X'" + (Hex(x) + ([QUOTE] + rest));
    assert s[2..] == Hex(x) + ([QUOTE] + rest) && s[..2] == "X'";
  }

  /** Infinities and NaN have no literal. */
  predicate HasLiteral(v: Value) {
    v.Real? ==> v.f.Finite?
  }

  predicate HaveLiterals(row: Row) {
    forall i :: 0 <= i < |row| ==> HasLiteral(row[i])
  }

  lemma NullReadsBack(rest: string)
    ensures ReadValue("NULL" + rest) == Some((Null, rest))
  {
    var s := "NULL" + rest;
    assert s[..4] == "NULL" && s[4..] == rest && !Begins(s, "X'") by {
      assert s[..2][0] == 'N';
    }
  }

  /** Whatever quotes, commas, brackets, semicolons or newlines a value holds, its
      literal ends exactly where it was written to end; only a real that is not finite
      cannot be read at all. */
  lemma LiteralReadsBack(utf8: seq<Byte> -> bool, v: Value, rest: string)
    requires AfterValue(rest)
    ensures ReadValue(Literal(utf8, v) + rest) == if HasLiteral(v) then Some((Stored(utf8, v), rest)) else None
  {
    match v
    case Null => NullReadsBack(rest);
    case Int(i) => IntReadsBack(i, rest);
    case Real(f) => RealReadsBack(f, rest);
    case Bool(b) =>
      IntReadsBack(if b then 1 else 0, rest);
      assert Itoa(1) == "1" && Itoa(0) == "0";
    case Text(t) => TextReadsBack(t, rest);
    case Bytes(x) =>
      if utf8(x) {
        TextReadsBack(AsText(x), rest);
      } else {
        BlobReadsBack(x, rest);
      }
    case Shown(t) => TextReadsBack(t, rest);
  }

  lemma SkipNothing(s: string)
    requires s == "" || !IsSpace(s[0])
    ensures Skip(s) == s
  {
  }

  lemma SymbolRead(c: char, rest: string)
    requires !IsSpace(c)
    ensures Symbol(c, [c] + rest) == Some(rest)
    ensures forall d :: d != c ==> Symbol(d, [c] + rest).None?
  {
    SkipNothing([c] + rest);
    assert ([c] + rest)[1..] == rest;
  }

  lemma LiteralStart(utf8: seq<Byte> -> bool, v: Value)
    ensures Literal(utf8, v) != "" && !IsSpace(Literal(utf8, v)[0]) && Literal(utf8, v)[0] != NUL
  {
    match v
    case Real(f) => FloatStart(f);
    case _ =>
  }

  lemma FloatStart(f: Float64)
    ensures FormatFloat(f) != "" && !IsSpace(FormatFloat(f)[0]) && FormatFloat(f)[0] != NUL
  {
    if f.Finite? {
      UnsignedStart(f);
    }
  }

  lemma MoreIsValues(utf8: seq<Byte> -> bool, row: Row)
    requires row != []
    ensures MoreValues(utf8, row) == "," + Values(utf8, row)
  {
    Reassociate(",", Literal(utf8, row[0]), MoreValues(utf8, row[1..]));
  }

  /** What stands between two values, or behind the last one. */
  lemma ListTail(utf8: seq<Byte> -> bool, row: Row, rest: string)
    requires row != []
    ensures var literal := Literal(utf8, row[0]);
      Values(utf8, row) + (")" + rest) == literal + (
        if |row| == 1 then ")" + rest else "," + (Values(utf8, row[1..]) + (")" + rest)))
  {
    var literal, more := Literal(utf8, row[0]), MoreValues(utf8, row[1..]);
    if |row| == 1 {
      assert literal + "" == literal;
    } else {
      MoreIsValues(utf8, row[1..]);
      Reassociate(literal, more, ")" + rest);
      Reassociate(",", Values(utf8, row[1..]), ")" + rest);
    }
  }

  /** One step of the list reader, once the first literal is read. */
  lemma ListStep(s: string, v: Value, next: char, rest: string)
    requires s != "" && !IsSpace(s[0]) && ReadValue(s) == Some((v, [next] + rest))
    ensures next == ',' ==> ReadList(s) == Before(v, ReadList(rest))
    ensures next == ')' ==> ReadList(s) == Some(([v], rest))
  {
    SkipNothing(s);
    if next == ',' || next == ')' {
      SymbolRead(next, rest);
    }
  }

  lemma {:induction false} ListReadsBack(utf8: seq<Byte> -> bool, row: Row, rest: string)
    requires row != [] && HaveLiterals(row)
    ensures ReadList(Values(utf8, row) + (")" + rest)) == Some((StoredRow(utf8, row), rest))
  {
    var s, literal := Values(utf8, row) + (")" + rest), Literal(utf8, row[0]);
    ListTail(utf8, row, rest);
    LiteralStart(utf8, row[0]);
    if |row| == 1 {
      LiteralReadsBack(utf8, row[0], ")" + rest);
      ListStep(s, Stored(utf8, row[0]), ')', rest);
      assert StoredRow(utf8, row) == [Stored(utf8, row[0])];
    } else {
      var more := Values(utf8, row[1..]) + (")" + rest);
      ListReadsBack(utf8, row[1..], rest);
      LiteralReadsBack(utf8, row[0], "," + more);
      ListStep(s, Stored(utf8, row[0]), ',', more);
    }
  }

  // --------------------------------------------------- statements read back

  lemma {:induction false} DoubledFree(t: string, q: char)
    requires Free(t, q)
    ensures Doubled(t, q) == t
  {
    if t != "" {
      DoubledFree(t[1..], q);
      assert t == [t[0]] + t[1..];
    }
  }

  /** What was read is what stands there: the doubled text, its quote, the rest. */
  lemma {:induction false} QuotedStands(s: string, q: char)
    requires ReadQuoted(s, q).Some?
    ensures var (t, rest) := ReadQuoted(s, q).value; s == Doubled(t, q) + ([q] + rest)
    decreases |s|
  {
    var (t, rest) := ReadQuoted(s, q).value;
    if s[0] == q && !(|s| > 1 && s[1] == q) {
      assert s == "" + ([q] + rest);
    } else {
      var n := if s[0] == q then 2 else 1;
      QuotedStands(s[n..], q);
      var (u, _) := ReadQuoted(s[n..], q).value;
      assert t[1..] == u;
      assert s == s[..n] + s[n..];
      assert s[..n] == if s[0] == q then [q, q] else [s[0]];
      Reassociate(s[..n], Doubled(u, q), [q] + rest);
    }
  }

  function Quotes(q: char, n: nat): string {
    if n == 0 then "" else [q] + Quotes(q, n - 1)
  }

  lemma {:induction false} QuotesMore(q: char, n: nat)
    ensures Quotes(q, n) + [q] == Quotes(q, n + 1)
  {
    if n > 0 {
      QuotesMore(q, n - 1);
      Reassociate([q], Quotes(q, n - 1), [q]);
    } else {
      assert Quotes(q, 0) + [q] == [q] + Quotes(q, 0);
    }
  }

  /** Once a quote has been passed, the plain text and its doubling never fall back into
      step: the doubling is ahead by one more quote each time. */
  lemma {:induction false} OutOfStep(b: string, q: char, lead: nat, rest: string, tail: string)
    requires lead > 0 || !Free(b, q)
    requires StartsOff(rest, q) && tail != "" && tail[0] == q
    ensures b + ([q] + rest) != Quotes(q, lead) + (Doubled(b, q) + tail)
    decreases |b|
  {
    var left, right := b + ([q] + rest), Quotes(q, lead) + (Doubled(b, q) + tail);
    if b == "" {
      assert left == [q] + rest && "" + tail == tail;
      assert left[1] == rest[0] && (|right| > 1 ==> right[1] == (if lead > 1 then Quotes(q, lead)[1] else tail[0]));
      assert lead > 1 ==> Quotes(q, lead)[1] == Quotes(q, lead - 1)[0] == q;
    } else if b[0] == q {
      var more := Doubled(b[1..], q) + tail;
      OutOfStep(b[1..], q, lead + 1, rest, tail);
      assert left == [q] + (b[1..] + ([q] + rest));
      assert right == [q] + (Quotes(q, lead + 1) + more) by {
        QuotesMore(q, lead);
        QuotesMore(q, lead + 1);
        Reassociate([q, q], Doubled(b[1..], q), tail);
        Reassociate(Quotes(q, lead), [q], [q]);
        Reassociate(Quotes(q, lead), [q, q], more);
        Reassociate([q], Quotes(q, lead + 1), more);
        assert [q] + [q] == [q, q];
      }
      Differ([q], b[1..] + ([q] + rest), Quotes(q, lead + 1) + more);
    } else if lead > 0 {
      assert left[0] == b[0] && right[0] == q;
    } else {
      var more := Doubled(b[1..], q) + tail;
      OutOfStep(b[1..], q, 0, rest, tail);
      Reassociate([b[0]], Doubled(b[1..], q), tail);
      assert left == [b[0]] + (b[1..] + ([q] + rest));
      assert right == [b[0]] + more && "" + more == more;
      Differ([b[0]], b[1..] + ([q] + rest), more);
    }
  }

  lemma Differ(p: string, s: string, t: string)
    requires s != t
    ensures p + s != p + t
  {
    if p + s == p + t {
      Cancel(p, p, s, t);
    }
  }

  /** A table name reads back exactly when it holds no double quote: the dump does not
      double the ones inside a name. */
  lemma NameReadsBack(table: string, rest: string)
    requires StartsOff(rest, '"')
    ensures var read := ReadQuoted(table + (['"'] + rest), '"');
            if Free(table, '"') then read == Some((table, rest)) else read.None? || read.value.0 != table
  {
    var s := table + (['"'] + rest);
    if Free(table, '"') {
      DoubledFree(table, '"');
      QuotedReadsBack(table, '"', rest);
    } else if ReadQuoted(s, '"').Some? {
      var (t, after) := ReadQuoted(s, '"').value;
      QuotedStands(s, '"');
      OutOfStep(table, '"', 0, rest, ['"'] + after);
      assert Quotes('"', 0) + (Doubled(table, '"') + (['"'] + after))
          == Doubled(table, '"') + (['"'] + after);
    }
  }

  lemma WordRead(w: string, rest: string)
    requires w != "" && !IsSpace(w[0]) && rest != "" && !IsNameChar(rest[0])
    ensures Word(w, w + rest) == Some(rest)
    ensures Word(w, " " + (w + rest)) == Some(rest)
  {
    var t := w + rest;
    assert t[..|w|] == w && t[|w|..] == rest && t[|w|] == rest[0];
    SkipNothing(t);
    assert (" " + t)[1..] == t;
  }

  /** A statement reads back to its table and row, and ends right behind its semicolon,
      exactly when the table's name holds no double quote, there is a value, and every
      value has a literal. */
  lemma StatementReadsBack(utf8: seq<Byte> -> bool, table: string, row: Row, rest: string)
    ensures ReadStatement(Statement(utf8, table, row) + rest)
         == Some((Insert(table, StoredRow(utf8, row)), "\n" + rest))
       <==> Free(table, '"') && row != [] && HaveLiterals(row)
  {
    var after := " VALUES(" + (Values(utf8, row) + (")" + (";\n" + rest)));
    var s := table + (['"'] + after);
    StatementShape(utf8, table, row, rest);
    OpeningRead(s);
    assert after[0] == ' ';
    NameReadsBack(table, after);
    if row != [] && HaveLiterals(row) {
      ListReadsBack(utf8, row, ";\n" + rest);
      AfterNameRead(table, Values(utf8, row) + (")" + (";\n" + rest)));
      EndRead(rest);
    } else {
      StoredLiterals(utf8, row);
      if ReadStatement(Statement(utf8, table, row) + rest).Some? {
        StatementLiterals(Statement(utf8, table, row) + rest);
      }
    }
  }

  lemma EndRead(rest: string)
    ensures Symbol(';', ";\n" + rest) == Some("\n" + rest)
  {
    SymbolRead(';', "\n" + rest);
    assert ";\n" + rest == [';'] + ("\n" + rest);
  }

  lemma StoredLiterals(utf8: seq<Byte> -> bool, row: Row)
    ensures HaveLiterals(StoredRow(utf8, row)) <==> HaveLiterals(row)
  {
    forall i | 0 <= i < |row| ensures HasLiteral(StoredRow(utf8, row)[i]) <==> HasLiteral(row[i]) {
      assert StoredRow(utf8, row)[i] == Stored(utf8, row[i]);
    }
  }

  // Readers make up only values that have a literal.

  lemma ValueLiteral(s: string)
    requires ReadValue(s).Some?
    ensures HasLiteral(ReadValue(s).value.0)
  {
  }

  lemma {:induction false} ListLiterals(s: string)
    requires ReadList(s).Some?
    ensures ReadList(s).value.0 != [] && HaveLiterals(ReadList(s).value.0)
    decreases |s|
  {
    ValueLiteral(Skip(s));
    var (_, rest) := ReadValue(Skip(s)).value;
    if Symbol(',', rest).Some? {
      ListLiterals(Symbol(',', rest).value);
    }
  }

  lemma StatementLiterals(s: string)
    requires ReadStatement(s).Some?
    ensures ReadStatement(s).value.0.row != [] && HaveLiterals(ReadStatement(s).value.0.row)
  {
    var name := Symbol('"', Word("INTO", Word("INSERT", s).value).value).value;
    var rest := ReadQuoted(name, '"').value.1;
    ListLiterals(Symbol('(', Word("VALUES", rest).value).value);
  }

  lemma OpeningRead(s: string)
    ensures ReadStatement(OPENING + s) == match ReadQuoted(s, '"')
                                          case None => None
                                          case Some((table, rest)) => ReadAfterName(table, rest)
  {
    var name := " " + (['"'] + s);
    WordRead("INSERT", " " + ("INTO" + name));
    WordRead("INTO", name);
    SymbolRead('"', s);
    assert name[1..] == ['"'] + s;
    OpeningShape(s);
  }

  lemma OpeningShape(s: string)
    ensures OPENING + s == "INSERT" + (" " + ("INTO" + (" " + (['"'] + s))))
  {
    assert OPENING == "INSERT" + " " + "INTO" + " " + ['"'];
    Reassociate("INSERT" + " " + "INTO" + " ", ['"'], s);
    Reassociate("INSERT" + " " + "INTO", " ", ['"'] + s);
    Reassociate("INSERT" + " ", "INTO", " " + (['"'] + s));
    Reassociate("INSERT", " ", "INTO" + (" " + (['"'] + s)));
  }

  lemma AfterNameRead(table: string, list: string)
    ensures ReadAfterName(table, " VALUES(" + list)
         == match ReadList(list)
            case None => None
            case Some((row, rest)) =>
              if Symbol(';', rest).None? then None else Some((Insert(table, row), Symbol(';', rest).value))
  {
    WordRead("VALUES", ['('] + list);
    SymbolRead('(', list);
    assert " VALUES(" + list == " " + ("VALUES" + (['('] + list));
  }

  lemma StatementShape(utf8: seq<Byte> -> bool, table: string, row: Row, rest: string)
    ensures Statement(utf8, table, row) + rest
         == OPENING + (table + (['"'] + (" VALUES(" + (Values(utf8, row) + (")" + (";\n" + rest))))))
  {
    var v := Values(utf8, row);
    var list := v + (CLOSING + rest);
    ClosingShape(rest);
    Reassociate(OPENING + table + VALUES + v, CLOSING, rest);
    Reassociate(OPENING + table + VALUES, v, CLOSING + rest);
    Reassociate(OPENING + table, VALUES, list);
    Reassociate(OPENING, table, VALUES + list);
    ValuesShape(list);
  }

  lemma ClosingShape(rest: string)
    ensures CLOSING + rest == ")" + (";\n" + rest)
  {
    Reassociate(")", ";\n", rest);
  }

  lemma ValuesShape(list: string)
    ensures VALUES + list == ['"'] + (" VALUES(" + list)
  {
    assert VALUES == ['"'] + " VALUES(";
    Reassociate(['"'], " VALUES(", list);
  }

  // ------------------------------------------------------ a whole table back

  function Inserts(utf8: seq<Byte> -> bool, table: string, rows: seq<Row>): seq<Insert> {
    if rows == [] then []
    else [Insert(table, StoredRow(utf8, rows[0]))] + Inserts(utf8, table, rows[1..])
  }

  /** Space in front of a statement is nothing. */
  lemma ScriptSkips(s: string)
    ensures ReadScript("\n" + s) == ReadScript(s)
  {
    assert ("\n" + s)[1..] == s;
    assert Skip("\n" + s) == Skip(s);
  }

  lemma {:induction false} ScriptReadsBack(utf8: seq<Byte> -> bool, table: string, rows: seq<Row>)
    requires Free(table, '"') && forall i :: 0 <= i < |rows| ==> rows[i] != [] && HaveLiterals(rows[i])
    ensures ReadScript(Script(utf8, table, rows)) == Some(Inserts(utf8, table, rows))
  {
    if rows != [] {
      var rest := Script(utf8, table, rows[1..]);
      ScriptReadsBack(utf8, table, rows[1..]);
      StatementReadsBack(utf8, table, rows[0], rest);
      ScriptSkips(rest);
      StatementStart(utf8, table, rows[0], rest);
    }
  }

  lemma StatementStart(utf8: seq<Byte> -> bool, table: string, row: Row, rest: string)
    ensures Skip(Statement(utf8, table, row) + rest) != ""
  {
    StatementShape(utf8, table, row, rest);
    assert OPENING[0] == 'I';
    SkipNothing(Statement(utf8, table, row) + rest);
  }
}
