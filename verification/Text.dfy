/** Small pieces of text handling that the modelled Go code takes from its
    standard library: decimal numbers, joining and searching. */
module Text {

  datatype Option<+T> = None | Some(value: T)

  /** The next key of a map that is walked in no particular order. */
  method Pick<T(==)>(s: set<T>) returns (x: T)
    requires s != {}
    ensures x in s
  {
    x :| x in s;
  }

  function Members(xs: seq<string>): set<string> {
    set x | x in xs
  }

  predicate NoRepeats(xs: seq<string>) {
    forall i, j :: 0 <= i < j < |xs| ==> xs[i] != xs[j]
  }

  predicate Begins(s: string, p: string) {
    |p| <= |s| && s[..|p|] == p
  }

  predicate IsDigit(c: char) {
    '0' <= c <= '9'
  }

  predicate AllDigits(s: string) {
    forall i :: 0 <= i < |s| ==> IsDigit(s[i])
  }

  function Digit(d: nat): char
    requires d < 10
  {
    ('0' as int + d) as char
  }

  /** Decimal digits of a natural number, most significant first. */
  function Decimal(n: nat): (s: string)
    ensures s != [] && AllDigits(s)
  {
    if n < 10 then [Digit(n)] else Decimal(n / 10) + [Digit(n % 10)]
  }

  /** The number a digit string stands for; the inverse of Decimal. */
  function Number(s: string): nat
    requires AllDigits(s)
  {
    if s == [] then 0
    else 10 * Number(s[..|s| - 1]) + (s[|s| - 1] as int - '0' as int)
  }

  lemma {:induction false} DecimalRoundTrip(n: nat)
    ensures Number(Decimal(n)) == n
  {
    if n >= 10 {
      DecimalRoundTrip(n / 10);
      assert Decimal(n)[..|Decimal(n)| - 1] == Decimal(n / 10);
    }
  }

  /** strconv.Itoa, FormatInt in base ten, and the %d verb. */
  function Itoa(i: int): (s: string)
    ensures s != [] && (IsDigit(s[0]) || s[0] == '-')
    ensures forall k :: 0 <= k < |s| ==> IsDigit(s[k]) || s[k] == '-'
  {
    if i < 0 then "-" + Decimal(-i) else Decimal(i)
  }

  lemma ItoaInjective(a: int, b: int)
    requires Itoa(a) == Itoa(b)
    ensures a == b
  {
    DecimalRoundTrip(if a < 0 then -a else a);
    DecimalRoundTrip(if b < 0 then -b else b);
    if a < 0 || b < 0 {
      assert Itoa(a)[0] == Itoa(b)[0];
      assert Itoa(a)[1..] == Itoa(b)[1..];
      assert a < 0 ==> Itoa(a)[1..] == Decimal(-a);
      assert b < 0 ==> Itoa(b)[1..] == Decimal(-b);
    }
  }

  /** strings.Join. */
  function Join(parts: seq<string>, sep: string): string {
    if parts == [] then ""
    else if |parts| == 1 then parts[0]
    else parts[0] + sep + Join(parts[1..], sep)
  }

  predicate Free(s: string, c: char) {
    c !in s
  }

  lemma Reassociate<T>(a: seq<T>, b: seq<T>, c: seq<T>)
    ensures a + b + c == a + (b + c)
  {
  }

  /** The text p stands in s at index i. */
  predicate Occurs(s: string, p: string, i: nat) {
    i + |p| <= |s| && forall m :: 0 <= m < |p| ==> p[m] == s[i + m]
  }

  lemma OccursSlice(s: string, p: string, i: nat)
    ensures Occurs(s, p, i) <==> i + |p| <= |s| && s[i..i + |p|] == p
  {
    if i + |p| <= |s| {
      var q := s[i..i + |p|];
      assert forall m :: 0 <= m < |p| ==> q[m] == s[i + m];
      assert Occurs(s, p, i) <==> q == p;
    }
  }

  lemma OccursWithin(s: string, part: string, p: string, i: nat, j: nat)
    requires Occurs(s, part, i) && Occurs(part, p, j)
    ensures Occurs(s, p, i + j)
  {
    forall m | 0 <= m < |p| ensures p[m] == s[i + j + m] {
      assert p[m] == part[j + m] == s[i + (j + m)];
    }
  }

  lemma OccursInRest(s: string, n: nat, p: string, j: nat)
    requires n <= |s|
    ensures Occurs(s[n..], p, j) <==> Occurs(s, p, n + j)
  {
    var r := s[n..];
    forall m | 0 <= m < |p| && j + m < |r| ensures p[m] == r[j + m] <==> p[m] == s[n + j + m] {
    }
  }

  /** Equal texts with equally long beginnings agree piecewise. */
  lemma Cancel(p: string, q: string, s: string, t: string)
    requires p + s == q + t && |p| == |q|
    ensures p == q && s == t
  {
    assert p == (p + s)[..|p|] && s == (p + s)[|p|..];
    assert q == (q + t)[..|q|] && t == (q + t)[|q|..];
  }

  /** Cutting a text at its first separator is unambiguous. */
  lemma CutUnique(a: string, b: string, s: string, t: string, c: char)
    requires Free(a, c) && Free(b, c)
    requires a + [c] + s == b + [c] + t
    ensures a == b && s == t
  {
    var x, y := a + [c] + s, b + [c] + t;
    assert x[|a|] == c && y[|b|] == c;
    assert forall i :: 0 <= i < |a| ==> x[i] == a[i];
    assert forall i :: 0 <= i < |b| ==> y[i] == b[i];
    assert |a| == |b|;
    Cancel(a + [c], b + [c], s, t);
    Cancel(a, b, [c], [c]);
  }
}
