/** JSON values as the panel sees them after decoding, their canonical text,
    and the comparison of raw sections built on it. */
module Json {
  import opened Text
  import opened Values

  predicate IsNumberText(s: string) {
    && s != []
    && (IsDigit(s[0]) || s[0] == '-')
    && forall i :: 0 <= i < |s| ==> IsDigit(s[i]) || s[i] in "+-.eE"
  }

  predicate WellFormed(v: Value) {
    match v
    case Num(text) => IsNumberText(text)
    case Arr(elems) => forall i :: 0 <= i < |elems| ==> WellFormed(elems[i])
    case Obj(members) => forall k :: k in members ==> WellFormed(members[k])
    case _ => true
  }

  type Tree = v: Value | WellFormed(v) witness Null

  /** The part of encoding/json the panel relies on. The theorems hold for every
      choice of these functions, so they do not depend on how JSON is parsed.

      - decode: first value of the text, numbers kept verbatim (Decoder.Decode)
      - valid: the whole text is one JSON value
      - compact: how json.Marshal re-emits a valid raw section
      - elements: the raw elements of an array (Unmarshal into []RawMessage)
      - tagOf: member "tag" of an object, "" when absent (Unmarshal into a struct) */
  datatype Codec = Codec(
    decode: string -> Option<Tree>,
    valid: string -> bool,
    compact: string -> string,
    elements: string -> Option<seq<string>>,
    tagOf: string -> Option<string>)

  // ---------------------------------------------------------------- key order

  predicate LexLeq(a: string, b: string) {
    a == [] || (b != [] && (a[0] < b[0] || (a[0] == b[0] && LexLeq(a[1..], b[1..]))))
  }

  lemma {:induction false} LexTotal(a: string, b: string)
    ensures LexLeq(a, b) || LexLeq(b, a)
    ensures LexLeq(a, b) && LexLeq(b, a) ==> a == b
  {
    if a != [] && b != [] && a[0] == b[0] {
      LexTotal(a[1..], b[1..]);
      assert a == [a[0]] + a[1..] && b == [b[0]] + b[1..];
    }
  }

  lemma {:induction false} LexTransitive(a: string, b: string, c: string)
    requires LexLeq(a, b) && LexLeq(b, c)
    ensures LexLeq(a, c)
  {
    if a != [] && a[0] == b[0] && b[0] == c[0] {
      LexTransitive(a[1..], b[1..], c[1..]);
    }
  }

  predicate IsLeast(k: string, s: set<string>) {
    k in s && forall x :: x in s ==> LexLeq(k, x)
  }

  lemma {:induction false} LeastExists(s: set<string>)
    requires s != {}
    ensures exists k :: IsLeast(k, s)
  {
    var x :| x in s;
    LexTotal(x, x);
    if s == {x} {
      assert IsLeast(x, s);
    } else {
      LeastExists(s - {x});
      var m :| IsLeast(m, s - {x});
      LexTotal(x, m);
      var k := if LexLeq(x, m) then x else m;
      forall y | y in s ensures LexLeq(k, y) {
        if y != x && k == x {
          LexTransitive(x, m, y);
        }
      }
      assert IsLeast(k, s);
    }
  }

  lemma LeastUnique(s: set<string>)
    ensures forall j, k :: IsLeast(j, s) && IsLeast(k, s) ==> j == k
  {
    forall j, k | IsLeast(j, s) && IsLeast(k, s) ensures j == k {
      LexTotal(j, k);
    }
  }

  /** Object keys in the order json.Marshal prints them. */
  function SortedKeys(s: set<string>): (keys: seq<string>)
    ensures forall k :: k in keys <==> k in s
  {
    if s == {} then []
    else
      LeastExists(s);
      LeastUnique(s);
      var k :| IsLeast(k, s);
      [k] + SortedKeys(s - {k})
  }

  lemma {:induction false} SortedKeysAscend(s: set<string>)
    ensures var keys := SortedKeys(s);
      forall i, j :: 0 <= i < j < |keys| ==> keys[i] != keys[j] && LexLeq(keys[i], keys[j])
  {
    if s != {} {
      var keys := SortedKeys(s);
      SortedKeysAscend(s - {keys[0]});
      assert keys[1..] == SortedKeys(s - {keys[0]});
      forall i, j | 0 <= i < j < |keys| ensures keys[i] != keys[j] && LexLeq(keys[i], keys[j]) {
        assert keys[j] == keys[1..][j - 1] && keys[j] in s - {keys[0]};
        if i > 0 {
          assert keys[i] == keys[1..][i - 1];
        }
      }
    }
  }

  // ----------------------------------------------------------- canonical text

  function Hex(d: nat): char
    requires d < 16
  {
    if d < 10 then ('0' as int + d) as char else ('a' as int + d - 10) as char
  }

  /** One character inside a quoted string, HTML characters escaped as well. */
  function EscapeChar(c: char): string {
    if c == '"' then "\\\""
    else if c == '\\' then "\\\\"
    else if c == 8 as char then "\\b"
    else if c == 12 as char then "\\f"
    else if c == '\n' then "\\n"
    else if c == '\r' then "\\r"
    else if c == '\t' then "\\t"
    else if c < ' ' || c == '<' || c == '>' || c == '&' then
      "\\u00" + [Hex(c as int / 16), Hex(c as int % 16)]
    else if c == '\U{2028}' then "\\u2028"
    else if c == '\U{2029}' then "\\u2029"
    else [c]
  }

  /** The rest of a quoted string, its closing quote and the text after it. */
  function Quoted(s: string, rest: string): string {
    if s == [] then "\"" + rest else EscapeChar(s[0]) + Quoted(s[1..], rest)
  }

  function Comma(first: bool): string {
    if first then "" else ","
  }

  /** The encoder in the form the proofs need: the text of v followed by rest. */
  function Emit(v: Value, rest: string): string
    decreases v, 1, 0
  {
    match v
    case Null => "null" + rest
    case Bool(b) => (if b then "true" else "false") + rest
    case Num(text) => text + rest
    case Str(s) => "\"" + Quoted(s, rest)
    case Arr(elems) => "[" + EmitElems(v, 0, rest)
    case Obj(members) => "{" + EmitMembers(v, SortedKeys(members.Keys), true, rest)
  }

  /** Elements from index n on. */
  function EmitElems(v: Value, n: nat, rest: string): string
    requires v.Arr? && n <= |v.elems|
    decreases v, 0, |v.elems| - n
  {
    if n == |v.elems| then "]" + rest
    else Comma(n == 0) + Emit(v.elems[n], EmitElems(v, n + 1, rest))
  }

  function EmitMembers(v: Value, keys: seq<string>, first: bool, rest: string): string
    requires v.Obj? && forall k :: k in keys ==> k in v.members
    decreases v, 0, |keys|
  {
    if keys == [] then "}" + rest
    else
      (Comma(first) + "\"")
      + Quoted(keys[0], ":" + Emit(v.members[keys[0]], EmitMembers(v, keys[1..], false, rest)))
  }

  /** json.Marshal of a decoded value. */
  function Print(v: Value): string {
    Emit(v, "")
  }

  // ---------------------------------------------- canonical text is injective

  /** What may follow a value inside a larger text. */
  predicate Ends(s: string) {
    s == [] || s[0] in ",]}"
  }

  lemma EscapeCharInjective(c: char, d: char)
    requires EscapeChar(c) == EscapeChar(d)
    ensures c == d
  {
    var x, y := EscapeChar(c), EscapeChar(d);
    if |x| == 6 {
      assert x[2] == y[2] && x[4] == y[4] && x[5] == y[5];
    }
  }

  lemma EscapeCharPrefixFree(c: char, d: char, s: string, t: string)
    requires EscapeChar(c) + s == EscapeChar(d) + t
    ensures c == d && s == t
  {
    var x, y := EscapeChar(c), EscapeChar(d);
    assert (x + s)[0] == x[0] && (y + t)[0] == y[0];
    assert |x| > 1 <==> x[0] == '\\';
    assert |y| > 1 <==> y[0] == '\\';
    if |x| > 1 {
      assert (x + s)[1] == x[1] && (y + t)[1] == y[1];
      assert |x| == 6 <==> x[1] == 'u';
      assert |y| == 6 <==> y[1] == 'u';
    }
    Cancel(x, y, s, t);
    EscapeCharInjective(c, d);
  }

  lemma QuotedLead(a: string, s: string)
    ensures a == [] <==> Quoted(a, s)[0] == '"'
  {
  }

  lemma {:induction false} QuotePrefixFree(a: string, b: string, s: string, t: string)
    requires Quoted(a, s) == Quoted(b, t)
    ensures a == b && s == t
  {
    QuotedLead(a, s);
    QuotedLead(b, t);
    if a == [] {
      Cancel("\"", "\"", s, t);
    } else {
      EscapeCharPrefixFree(a[0], b[0], Quoted(a[1..], s), Quoted(b[1..], t));
      QuotePrefixFree(a[1..], b[1..], s, t);
      assert a == [a[0]] + a[1..] && b == [b[0]] + b[1..];
    }
  }

  lemma NumberPrefixFree(a: string, b: string, s: string, t: string)
    requires IsNumberText(a) && IsNumberText(b) && Ends(s) && Ends(t)
    requires a + s == b + t
    ensures a == b && s == t
  {
    var x, y := a + s, b + t;
    assert forall i :: 0 <= i < |a| ==> x[i] == a[i];
    assert forall i :: 0 <= i < |b| ==> y[i] == b[i];
    assert s != [] ==> x[|a|] == s[0];
    assert t != [] ==> y[|b|] == t[0];
    assert |a| == |b|;
    Cancel(a, b, s, t);
  }

  function Lead(v: Value): char {
    match v
    case Null => 'n'
    case Bool(b) => if b then 't' else 'f'
    case Num(text) => '0'
    case Str(_) => '"'
    case Arr(_) => '['
    case Obj(_) => '{'
  }

  predicate IsLead(v: Value, c: char) {
    if v.Num? then IsDigit(c) || c == '-' else c == Lead(v)
  }

  lemma EmitLead(v: Value, s: string)
    requires WellFormed(v)
    ensures Emit(v, s) != [] && IsLead(v, Emit(v, s)[0])
  {
  }

  lemma {:induction false} EmitPrefixFree(a: Value, b: Value, s: string, t: string)
    requires WellFormed(a) && WellFormed(b) && Ends(s) && Ends(t)
    requires Emit(a, s) == Emit(b, t)
    ensures a == b && s == t
    decreases a, 2, 0
  {
    EmitLead(a, s);
    EmitLead(b, t);
    assert Lead(a) == Lead(b);
    match a {
      case Null => Cancel("null", "null", s, t);
      case Bool(v) =>
        var word := if v then "true" else "false";
        Cancel(word, word, s, t);
      case Num(text) => NumberPrefixFree(text, b.text, s, t);
      case Str(str) =>
        Cancel("\"", "\"", Quoted(str, s), Quoted(b.s, t));
        QuotePrefixFree(str, b.s, s, t);
      case Arr(elems) =>
        Cancel("[", "[", EmitElems(a, 0, s), EmitElems(b, 0, t));
        ElemsPrefixFree(a, b, 0, s, t);
        assert elems == b.elems;
      case Obj(_) =>
        ObjectPrefixFree(a, b, s, t);
    }
  }

  lemma {:induction false} ElemsPrefixFree(a: Value, b: Value, n: nat, s: string, t: string)
    requires a.Arr? && b.Arr? && WellFormed(a) && WellFormed(b)
    requires n <= |a.elems| && n <= |b.elems|
    requires EmitElems(a, n, s) == EmitElems(b, n, t)
    ensures |a.elems| == |b.elems| && s == t
    ensures forall i :: n <= i < |a.elems| ==> a.elems[i] == b.elems[i]
    decreases a, 0, |a.elems| - n
  {
    ElemsLead(a, n, s);
    ElemsLead(b, n, t);
    if n == |a.elems| {
      Cancel("]", "]", s, t);
    } else {
      ElemsStep(a, b, n, s, t);
      ElemsPrefixFree(a, b, n + 1, s, t);
    }
  }

  lemma {:induction false} ElemsStep(a: Value, b: Value, n: nat, s: string, t: string)
    requires a.Arr? && b.Arr? && WellFormed(a) && WellFormed(b)
    requires n < |a.elems| && n < |b.elems|
    requires EmitElems(a, n, s) == EmitElems(b, n, t)
    ensures a.elems[n] == b.elems[n] && EmitElems(a, n + 1, s) == EmitElems(b, n + 1, t)
    decreases a, 0, 0
  {
    var s', t' := EmitElems(a, n + 1, s), EmitElems(b, n + 1, t);
    Cancel(Comma(n == 0), Comma(n == 0), Emit(a.elems[n], s'), Emit(b.elems[n], t'));
    ElemsLead(a, n + 1, s);
    ElemsLead(b, n + 1, t);
    EmitPrefixFree(a.elems[n], b.elems[n], s', t');
  }

  lemma ElemsLead(a: Value, n: nat, s: string)
    requires a.Arr? && WellFormed(a) && n <= |a.elems|
    ensures var x := EmitElems(a, n, s);
      x != [] && (x[0] == ']' <==> n == |a.elems|) && (n == 0 || Ends(x))
  {
    if n < |a.elems| {
      EmitLead(a.elems[n], EmitElems(a, n + 1, s));
    }
  }

  lemma {:induction false} ObjectPrefixFree(a: Value, b: Value, s: string, t: string)
    requires a.Obj? && b.Obj? && WellFormed(a) && WellFormed(b)
    requires Emit(a, s) == Emit(b, t)
    ensures a == b && s == t
    decreases a, 1, 0
  {
    var ka, kb := SortedKeys(a.members.Keys), SortedKeys(b.members.Keys);
    Cancel("{", "{", EmitMembers(a, ka, true, s), EmitMembers(b, kb, true, t));
    MembersPrefixFree(a, b, ka, kb, true, s, t);
    SameKeys(a.members, b.members);
  }

  lemma SameKeys(m: map<string, Value>, n: map<string, Value>)
    requires SortedKeys(m.Keys) == SortedKeys(n.Keys)
    requires forall k :: k in SortedKeys(m.Keys) && k in m && k in n ==> m[k] == n[k]
    ensures m == n
  {
    assert forall k :: k in m.Keys <==> k in SortedKeys(m.Keys);
    assert forall k :: k in n.Keys <==> k in SortedKeys(n.Keys);
    assert m.Keys == n.Keys;
  }

  lemma {:induction false} MembersPrefixFree(a: Value, b: Value, ks: seq<string>, ls: seq<string>, first: bool,
                                            s: string, t: string)
    requires a.Obj? && b.Obj? && WellFormed(a) && WellFormed(b)
    requires forall k :: k in ks ==> k in a.members
    requires forall k :: k in ls ==> k in b.members
    requires EmitMembers(a, ks, first, s) == EmitMembers(b, ls, first, t)
    ensures ks == ls && s == t
    ensures forall k :: k in ks ==> a.members[k] == b.members[k]
    decreases a, 0, |ks|
  {
    MembersLead(a, ks, first, s);
    MembersLead(b, ls, first, t);
    if ks == [] {
      Cancel("}", "}", s, t);
    } else {
      var va, vb := a.members[ks[0]], b.members[ls[0]];
      var s', t' := EmitMembers(a, ks[1..], false, s), EmitMembers(b, ls[1..], false, t);
      var open := Comma(first) + "\"";
      Cancel(open, open, Quoted(ks[0], ":" + Emit(va, s')), Quoted(ls[0], ":" + Emit(vb, t')));
      QuotePrefixFree(ks[0], ls[0], ":" + Emit(va, s'), ":" + Emit(vb, t'));
      Cancel(":", ":", Emit(va, s'), Emit(vb, t'));
      MembersLead(a, ks[1..], false, s);
      MembersLead(b, ls[1..], false, t);
      EmitPrefixFree(va, vb, s', t');
      MembersPrefixFree(a, b, ks[1..], ls[1..], false, s, t);
      assert ks == [ks[0]] + ks[1..] && ls == [ls[0]] + ls[1..];
    }
  }

  lemma MembersLead(a: Value, ks: seq<string>, first: bool, s: string)
    requires a.Obj? && forall k :: k in ks ==> k in a.members
    ensures var x := EmitMembers(a, ks, first, s);
      x != [] && (x[0] == '}' <==> ks == []) && (first || Ends(x))
  {
  }

  /** Two values print the same canonical text exactly when they are equal. Member
      order is gone because an object is a map; number text is compared verbatim. */
  lemma CanonicalTextInjective(a: Tree, b: Tree)
    ensures Print(a) == Print(b) <==> a == b
  {
    if Print(a) == Print(b) {
      EmitPrefixFree(a, b, "", "");
    }
  }

  // ------------------------------------------------- comparing raw sections

  /** canonicalJSON: None when the text cannot be decoded. A nil byte slice and an
      empty one compare equal, so both are "". */
  function CanonicalJSON(c: Codec, raw: string): Option<string> {
    if raw == [] then Some("")
    else match c.decode(raw)
      case None => None
      case Some(v) => if v.Null? then Some("") else Some(Print(v))
  }

  /** rawEqualNormalized. */
  predicate RawEqualNormalized(c: Codec, a: string, b: string) {
    if a == b then true
    else
      var na := CanonicalJSON(c, a);
      if na.None? then false
      else
        var nb := CanonicalJSON(c, b);
        if nb.None? then false else na.value == nb.value
  }

  /** What a raw section says: nothing, a value, or text that is no JSON at all. */
  datatype Meaning = Absent | Says(value: Value) | Unreadable(text: string)

  function MeaningOf(c: Codec, raw: string): Meaning {
    if raw == [] then Absent
    else match c.decode(raw)
      case None => Unreadable(raw)
      case Some(v) => if v.Null? then Absent else Says(v)
  }

  /** Only empty input and a top-level null become nil. */
  lemma CanonicalNilIffAbsent(c: Codec, raw: string)
    ensures CanonicalJSON(c, raw) == Some("") <==> raw == [] || c.decode(raw) == Some(Null)
  {
    if raw != [] && c.decode(raw).Some? {
      EmitLead(c.decode(raw).value, "");
    }
  }

  /** The normalised comparison is equality of meanings; in particular it is an
      equivalence relation, tree equality on readable text and byte equality on
      unreadable text. */
  lemma RawEqualIffSameMeaning(c: Codec, a: string, b: string)
    ensures RawEqualNormalized(c, a, b) <==> MeaningOf(c, a) == MeaningOf(c, b)
  {
    var x, y := MeaningOf(c, a), MeaningOf(c, b);
    if x.Says? {
      EmitLead(x.value, "");
    }
    if y.Says? {
      EmitLead(y.value, "");
    }
    if x.Says? && y.Says? {
      CanonicalTextInjective(x.value, y.value);
    }
  }
}
