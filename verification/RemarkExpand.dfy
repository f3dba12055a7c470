/** Expansion of remark templates in internal/sub/remark_vars.go: placeholders are
    replaced segment by segment, and segments that only say "unlimited" drop out. */
module RemarkExpand {
  import opened Text
  import opened RemarkTemplate

  // ---------------------------------------------------------- double-brace tokens

  predicate IsTokenChar(c: char) {
    'A' <= c <= 'Z' || c == '_'
  }

  /** Length of the leading run of token characters. */
  function RunLength(s: string): (n: nat)
    ensures n <= |s| && forall i :: 0 <= i < n ==> IsTokenChar(s[i])
    ensures n < |s| ==> !IsTokenChar(s[n])
  {
    if s == [] || !IsTokenChar(s[0]) then 0 else 1 + RunLength(s[1..])
  }

  function Braced(token: string): string {
    "{{" + token + "}}"
  }

  /** The token a placeholder at the start of s names, when there is one. */
  function TokenAt(s: string): (t: Option<string>)
    ensures t.Some? ==> t.value != "" && Begins(s, Braced(t.value))
  {
    if Begins(s, "{{") then
      var n := RunLength(s[2..]);
      if n > 0 && Begins(s[2 + n..], "}}") then
        assert s[..2 + n + 2] == s[..2] + s[2..2 + n] + s[2 + n..][..2];
        assert s[2..][..n] == s[2..2 + n];
        Some(s[2..2 + n])
      else None
    else None
  }

  /** The regular expression replacement over a text: leftmost placeholders first. */
  function Expand(value: string -> string, s: string): string
    decreases |s|
  {
    if s == [] then ""
    else match TokenAt(s)
      case Some(t) => value(t) + Expand(value, s[|Braced(t)|..])
      case None => [s[0]] + Expand(value, s[1..])
  }

  /** The tokens replaced, in order. */
  function Tokens(s: string): seq<string>
    decreases |s|
  {
    if s == [] then []
    else match TokenAt(s)
      case Some(t) => [t] + Tokens(s[|Braced(t)|..])
      case None => Tokens(s[1..])
  }

  /** strings.Split at bars. */
  function Segments(s: string): (segs: seq<string>)
    ensures segs != []
  {
    if s == [] then [""]
    else
      var rest := Segments(s[1..]);
      if s[0] == '|' then [""] + rest else [[s[0]] + rest[0]] + rest[1..]
  }

  /** The client's data: what each token resolves to, and which tokens may make a
      segment drop out when unlimited. */
  datatype Client = Client(value: string -> string, dropTokens: set<string>, unlimited: string)

  predicate ShowsUnlimited(c: Client, t: string) {
    t in c.dropTokens && c.value(t) == c.unlimited
  }

  /** A segment drops when it shows an unlimited quota and no other value. */
  predicate Drops(c: Client, seg: string) {
    && (exists t :: t in Tokens(seg) && ShowsUnlimited(c, t))
    && (forall t :: t in Tokens(seg) ==> ShowsUnlimited(c, t) || c.value(t) == "")
  }

  function KeptSegments(c: Client, segs: seq<string>): seq<string> {
    if segs == [] then []
    else
      var n := |segs| - 1;
      KeptSegments(c, segs[..n]) + if Drops(c, segs[n]) then [] else [Expand(c.value, segs[n])]
  }

  /** expandSegment: a scan that replaces the placeholders and notes what they showed. */
  method ExpandSegment(seg: string, c: Client) returns (out: string, drop: bool)
    ensures out == Expand(c.value, seg)
    ensures drop <==> Drops(c, seg)
  {
    out := "";
    var rest, hasUnlimited, hasOtherValue := seg, false, false;
    ghost var seen: seq<string> := [];
    while rest != ""
      invariant out + Expand(c.value, rest) == Expand(c.value, seg)
      invariant seen + Tokens(rest) == Tokens(seg)
      invariant hasUnlimited <==> exists t :: t in seen && ShowsUnlimited(c, t)
      invariant hasOtherValue <==> exists t :: t in seen && !ShowsUnlimited(c, t) && c.value(t) != ""
      decreases |rest|
    {
      match TokenAt(rest) {
        case Some(token) =>
          var value, more := c.value(token), rest[|Braced(token)|..];
          if token in c.dropTokens && value == c.unlimited {
            hasUnlimited := true;
          } else if value != "" {
            hasOtherValue := true;
          }
          Reassociate(out, value, Expand(c.value, more));
          Reassociate(seen, [token], Tokens(more));
          SeenMore(c, seen, token);
          out, rest, seen := out + value, more, seen + [token];
        case None =>
          Reassociate(out, [rest[0]], Expand(c.value, rest[1..]));
          out, rest := out + [rest[0]], rest[1..];
      }
    }
    assert seen == Tokens(seg);
    return out, hasUnlimited && !hasOtherValue;
  }

  lemma SeenMore(c: Client, seen: seq<string>, token: string)
    ensures forall t :: t in seen + [token] <==> t in seen || t == token
  {
  }

  /** A segment goes exactly when one of its placeholders shows an unlimited quota and
      none shows anything else: one with another value stays, and so does one without
      placeholders; one that shows nothing but unlimited quotas goes. */
  lemma SegmentGoesIff(c: Client, segs: seq<string>, seg: string)
    ensures var unlimited := (t: string) => t in c.dropTokens && c.value(t) == c.unlimited;
      KeptSegments(c, segs + [seg]) == KeptSegments(c, segs) +
        if (exists t :: t in Tokens(seg) && unlimited(t))
           && !exists t :: t in Tokens(seg) && !unlimited(t) && c.value(t) != ""
        then [] else [Expand(c.value, seg)]
  {
    assert (segs + [seg])[..|segs|] == segs;
  }

  predicate HasDoubleOpen(s: string) {
    exists i :: 0 <= i < |s| - 1 && s[i] == '{' && s[i + 1] == '{'
  }

  /** expandRemarkVars. */
  method ExpandRemarkVars(ui: map<string, string>, template: string, c: Client) returns (out: string)
    ensures out == Join(KeptSegments(c, Segments(Translate(ui, false, template))), "|")
  {
    var translated := TranslateUISingleBrackets(ui, template);
    if !HasDoubleOpen(translated) {
      NothingToExpand(c, translated);
      return translated;
    }
    var segments := Segments(translated);
    var kept: seq<string> := [];
    for i := 0 to |segments|
      invariant kept == KeptSegments(c, segments[..i])
    {
      assert segments[..i + 1][..i] == segments[..i];
      var expanded, drop := ExpandSegment(segments[i], c);
      if !drop {
        kept := kept + [expanded];
      }
    }
    assert segments[..|segments|] == segments;
    return Join(kept, "|");
  }

  // ------------------------------------------------- segments and the whole text

  lemma {:induction false} SegmentsJoinBack(s: string)
    ensures Join(Segments(s), "|") == s
  {
    if s != [] {
      var rest := Segments(s[1..]);
      SegmentsJoinBack(s[1..]);
      if s[0] == '|' {
        assert Segments(s)[1..] == rest;
        assert s == "" + "|" + s[1..];
      } else {
        assert Segments(s)[1..] == rest[1..];
        JoinHead(s[0], rest);
        assert s == [s[0]] + s[1..];
      }
    }
  }

  lemma JoinHead(c: char, parts: seq<string>)
    requires parts != []
    ensures Join([[c] + parts[0]] + parts[1..], "|") == [c] + Join(parts, "|")
  {
    var more := [[c] + parts[0]] + parts[1..];
    assert more[1..] == parts[1..];
    if |parts| > 1 {
      assert [c] + parts[0] + "|" + Join(parts[1..], "|") == [c] + (parts[0] + "|" + Join(parts[1..], "|"));
    }
  }

  /** A bar ends every placeholder, so none reaches across it. */
  lemma TokenBeforeBar(a: string, b: string)
    requires a != ""
    ensures TokenAt(a + "|" + b) == TokenAt(a)
  {
    var s := a + "|" + b;
    assert forall i :: 0 <= i < |a| ==> s[i] == a[i];
    assert s[|a|] == '|';
    if |a| >= 2 {
      var n, m := RunLength(a[2..]), RunLength(s[2..]);
      assert forall i :: 0 <= i < |a| - 2 ==> s[2..][i] == a[2..][i];
      assert s[2..][|a| - 2] == '|';
      assert n == m;
      assert s[2..2 + n] == a[2..2 + n];
      BeginsBeforeBar(a[2 + n..], b, "}}");
      assert s[2 + n..] == a[2 + n..] + "|" + b;
    }
    BeginsBeforeBar(a, b, "{{");
  }

  lemma BeginsBeforeBar(a: string, b: string, p: string)
    requires |p| == 2 && Free(p, '|')
    ensures Begins(a + "|" + b, p) <==> Begins(a, p)
  {
    var s := a + "|" + b;
    assert forall i :: 0 <= i < |a| ==> s[i] == a[i];
    assert s[|a|] == '|';
    if |a| >= 2 {
      assert s[..2] == a[..2];
    } else if |s| >= 2 {
      assert s[..2][|a|] == '|';
    }
  }

  predicate IsToken(t: string) {
    t != "" && forall i :: 0 <= i < |t| ==> 'A' <= t[i] <= 'Z' || t[i] == '_'
  }

  /** A placeholder is two braces, capital letters and underscores, and two braces. */
  lemma PlaceholderRead(t: string, s: string)
    requires IsToken(t)
    ensures TokenAt("{{" + t + "}}" + s) == Some(t)
  {
    var r := "{{" + t + "}}" + s;
    assert r[..2] == "{{" && r[2..] == t + ("}}" + s);
    RunOfToken(t, "}}" + s);
    assert r[2 + |t|..] == "}}" + s && ("}}" + s)[..2] == "}}" && r[2..2 + |t|] == t;
  }

  lemma {:induction false} RunOfToken(t: string, s: string)
    requires forall i :: 0 <= i < |t| ==> 'A' <= t[i] <= 'Z' || t[i] == '_'
    requires s == "" || !('A' <= s[0] <= 'Z' || s[0] == '_')
    ensures RunLength(t + s) == |t|
  {
    if t == "" {
      assert t + s == s;
    } else {
      assert (t + s)[1..] == t[1..] + s;
      RunOfToken(t[1..], s);
    }
  }

  lemma CharacterCopied(value: string -> string, c: char, s: string)
    requires c != '{'
    ensures Expand(value, [c] + s) == [c] + Expand(value, s)
  {
    var r := [c] + s;
    assert r[1..] == s;
    assert |r| >= 2 ==> r[..2][0] == c;
  }

  lemma PlaceholderFirst(value: string -> string, t: string, after: string)
    requires IsToken(t)
    ensures Expand(value, "{{" + t + "}}" + after) == value(t) + Expand(value, after)
  {
    PlaceholderRead(t, after);
    var s := "{{" + t + "}}" + after;
    assert Braced(t) == "{{" + t + "}}" && s[|Braced(t)|..] == after;
  }

  /** Text before a placeholder is copied, the placeholder is replaced, and the expansion
      goes on behind it: a value is never expanded again. */
  lemma {:induction false} PlaceholderExpanded(value: string -> string, before: string, t: string, after: string)
    requires Free(before, '{') && IsToken(t)
    ensures Expand(value, before + ("{{" + t + "}}" + after)) == before + (value(t) + Expand(value, after))
  {
    var s, r := "{{" + t + "}}" + after, value(t) + Expand(value, after);
    PlaceholderFirst(value, t, after);
    if before == "" {
      assert before + s == s && before + r == r;
    } else {
      var c, more := before[0], before[1..];
      assert before == [c] + more;
      PlaceholderExpanded(value, more, t, after);
      Reassociate([c], more, s);
      CharacterCopied(value, c, more + s);
      Reassociate([c], more, r);
    }
  }

  /** How many characters the expansion takes in one step, and what it puts there. */
  function StepLength(s: string): (n: nat)
    requires s != ""
    ensures 0 < n <= |s|
  {
    if TokenAt(s).Some? then |Braced(TokenAt(s).value)| else 1
  }

  function StepText(value: string -> string, s: string): string
    requires s != ""
  {
    if TokenAt(s).Some? then value(TokenAt(s).value) else [s[0]]
  }

  lemma ExpandStep(value: string -> string, s: string)
    requires s != ""
    ensures Expand(value, s) == StepText(value, s) + Expand(value, s[StepLength(s)..])
  {
  }

  lemma StepAcrossBar(value: string -> string, a: string, b: string)
    requires a != ""
    ensures StepLength(a + "|" + b) == StepLength(a)
    ensures StepText(value, a + "|" + b) == StepText(value, a)
    ensures (a + "|" + b)[StepLength(a)..] == a[StepLength(a)..] + "|" + b
  {
    TokenBeforeBar(a, b);
  }

  lemma {:induction false} ExpandAcrossBar(value: string -> string, a: string, b: string)
    ensures Expand(value, a + "|" + b) == Expand(value, a) + "|" + Expand(value, b)
    decreases |a|
  {
    var s := a + "|" + b;
    if a == "" {
      BeginsBeforeBar("", b, "{{");
      assert s[1..] == b && TokenAt(s).None?;
    } else {
      var rest := a[StepLength(a)..];
      StepAcrossBar(value, a, b);
      ExpandStep(value, s);
      ExpandStep(value, a);
      ExpandAcrossBar(value, rest, b);
      Reassociate(StepText(value, a), Expand(value, rest) + "|", Expand(value, b));
      Reassociate(StepText(value, a), Expand(value, rest), "|");
    }
  }

  function ExpandEach(value: string -> string, segs: seq<string>): (r: seq<string>)
    ensures |r| == |segs|
  {
    if segs == [] then [] else [Expand(value, segs[0])] + ExpandEach(value, segs[1..])
  }

  lemma {:induction false} ExpandJoin(value: string -> string, segs: seq<string>)
    requires segs != []
    ensures Join(ExpandEach(value, segs), "|") == Expand(value, Join(segs, "|"))
  {
    if |segs| > 1 {
      ExpandJoin(value, segs[1..]);
      assert ExpandEach(value, segs)[1..] == ExpandEach(value, segs[1..]);
      ExpandAcrossBar(value, segs[0], Join(segs[1..], "|"));
    }
  }

  lemma {:induction false} NoDropKeepsAll(c: Client, segs: seq<string>)
    requires forall i :: 0 <= i < |segs| ==> !Drops(c, segs[i])
    ensures KeptSegments(c, segs) == ExpandEach(c.value, segs)
  {
    if segs != [] {
      var n := |segs| - 1;
      NoDropKeepsAll(c, segs[..n]);
      ExpandEachSnoc(c.value, segs[..n], segs[n]);
      assert segs == segs[..n] + [segs[n]];
    }
  }

  lemma {:induction false} ExpandEachSnoc(value: string -> string, segs: seq<string>, seg: string)
    ensures ExpandEach(value, segs + [seg]) == ExpandEach(value, segs) + [Expand(value, seg)]
  {
    if segs != [] {
      assert (segs + [seg])[1..] == segs[1..] + [seg];
      ExpandEachSnoc(value, segs[1..], seg);
    }
  }

  /** When no segment drops out, expanding segment by segment is expanding the whole
      template at once. */
  lemma SegmentsExpandWhole(c: Client, s: string)
    requires forall i :: 0 <= i < |Segments(s)| ==> !Drops(c, Segments(s)[i])
    ensures Join(KeptSegments(c, Segments(s)), "|") == Expand(c.value, s)
  {
    NoDropKeepsAll(c, Segments(s));
    ExpandJoin(c.value, Segments(s));
    SegmentsJoinBack(s);
  }

  lemma BeginsDouble(s: string)
    requires Begins(s, "{{")
    ensures HasDoubleOpen(s)
  {
    assert s[0] == s[..2][0] && s[1] == s[..2][1];
  }

  lemma {:induction false} NoTokens(value: string -> string, s: string)
    requires !HasDoubleOpen(s)
    ensures Tokens(s) == [] && Expand(value, s) == s
  {
    if s != [] {
      if Begins(s, "{{") { BeginsDouble(s); }
      assert forall i :: 0 <= i < |s[1..]| ==> s[1..][i] == s[i + 1];
      NoTokens(value, s[1..]);
    }
  }

  /** Every segment stands somewhere in the text. */
  lemma {:induction false} SegmentOffset(s: string, i: nat) returns (k: nat)
    requires i < |Segments(s)|
    ensures Occurs(s, Segments(s)[i], k)
    ensures i == 0 ==> k == 0
  {
    if s == [] {
      return 0;
    }
    var seg, rest := Segments(s)[i], Segments(s[1..]);
    if i == 0 && s[0] == '|' {
      return 0;
    }
    if i == 0 {
      var j := SegmentOffset(s[1..], 0);
      OccursAfter(s, rest[0]);
      return 0;
    }
    var n := if s[0] == '|' then i - 1 else i;
    var j := SegmentOffset(s[1..], n);
    assert seg == rest[n];
    OccursInRest(s, 1, seg, j);
    return 1 + j;
  }

  lemma OccursAfter(s: string, p: string)
    requires s != [] && Occurs(s[1..], p, 0)
    ensures Occurs(s, [s[0]] + p, 0)
  {
    forall m | 0 <= m < |p| + 1 ensures ([s[0]] + p)[m] == s[m] {
      if m > 0 {
        assert p[m - 1] == s[1..][m - 1];
      }
    }
  }

  lemma SegmentWithin(s: string, i: nat)
    requires i < |Segments(s)| && HasDoubleOpen(Segments(s)[i])
    ensures HasDoubleOpen(s)
  {
    var seg := Segments(s)[i];
    var k := SegmentOffset(s, i);
    var m :| 0 <= m < |seg| - 1 && seg[m] == '{' && seg[m + 1] == '{';
    assert s[k + m] == seg[m] && s[k + (m + 1)] == seg[m + 1];
  }

  /** The early return for templates without a double brace changes nothing. */
  lemma NothingToExpand(c: Client, s: string)
    requires !HasDoubleOpen(s)
    ensures Join(KeptSegments(c, Segments(s)), "|") == s
  {
    forall i | 0 <= i < |Segments(s)| ensures !Drops(c, Segments(s)[i]) {
      if HasDoubleOpen(Segments(s)[i]) { SegmentWithin(s, i); }
      NoTokens(c.value, Segments(s)[i]);
    }
    SegmentsExpandWhole(c, s);
    NoTokens(c.value, s);
  }
}
