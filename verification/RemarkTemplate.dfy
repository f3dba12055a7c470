/** The rewriting of remark templates in internal/sub/remark_vars.go: the single-brace
    tokens users write become the double-brace ones that are expanded. */
module RemarkTemplate {
  import opened Text

  // ------------------------------------------------- rewriting single braces

  /** uiTokenMap: what users write in single braces, and the internal token. */
  function UiTokens(): seq<(string, string)> {
    [("EMAIL", "EMAIL"), ("DATA_USAGE", "TRAFFIC_USED"), ("DATA_LEFT", "TRAFFIC_LEFT"),
     ("DATA_LIMIT", "TRAFFIC_TOTAL"), ("DAYS_LEFT", "DAYS_LEFT"), ("EXPIRE_DATE", "EXPIRE_DATE"),
     ("JALALI_EXPIRE_DATE", "JALALI_EXPIRE_DATE"), ("TIME_LEFT", "TIME_LEFT"),
     ("STATUS_EMOJI", "STATUS_EMOJI"), ("USAGE_PERCENTAGE", "USAGE_PERCENTAGE"),
     ("PROTOCOL", "PROTOCOL"), ("TRANSPORT", "TRANSPORT")]
  }

  function Table(pairs: seq<(string, string)>): map<string, string> {
    if pairs == [] then map[]
    else Table(pairs[..|pairs| - 1])[pairs[|pairs| - 1].0 := pairs[|pairs| - 1].1]
  }

  predicate Plain(s: string) {
    Free(s, '{') && Free(s, '}')
  }

  /** Neither side of the table holds a brace. */
  predicate BraceFree(ui: map<string, string>) {
    forall k :: k in ui ==> Plain(k) && Plain(ui[k])
  }

  lemma {:induction false} TableBraceFree(pairs: seq<(string, string)>)
    requires forall i :: 0 <= i < |pairs| ==> Plain(pairs[i].0) && Plain(pairs[i].1)
    ensures BraceFree(Table(pairs))
  {
    if pairs != [] {
      TableBraceFree(pairs[..|pairs| - 1]);
    }
  }

  lemma UiTextsPlain()
    ensures Plain("EMAIL") && Plain("TIME_LEFT") && Plain("PROTOCOL") && Plain("TRANSPORT") && Plain("DAYS_LEFT")
    ensures Plain("DATA_USAGE") && Plain("DATA_LEFT") && Plain("DATA_LIMIT") && Plain("EXPIRE_DATE")
    ensures Plain("TRAFFIC_USED") && Plain("TRAFFIC_LEFT") && Plain("TRAFFIC_TOTAL")
    ensures Plain("JALALI_EXPIRE_DATE") && Plain("STATUS_EMOJI") && Plain("USAGE_PERCENTAGE")
  {
  }

  /** The results below apply to the panel's own table. */
  lemma UiTokensBraceFree()
    ensures BraceFree(Table(UiTokens()))
  {
    UiTextsPlain();
    TableBraceFree(UiTokens());
  }

  /** Index of the first closing brace, or the length. */
  function CloseAt(s: string): (j: nat)
    ensures j <= |s| && (j < |s| ==> s[j] == '}')
    ensures forall k :: 0 <= k < j ==> s[k] != '}'
  {
    if s == [] || s[0] == '}' then 0 else 1 + CloseAt(s[1..])
  }

  /** The text after an opening brace begins with a known token and its close. */
  predicate Known(ui: map<string, string>, s: string) {
    CloseAt(s) < |s| && s[..CloseAt(s)] in ui
  }

  /** The rewriting; open says that the character before s is an opening brace. */
  function Translate(ui: map<string, string>, open: bool, s: string): string
    decreases |s|
  {
    if s == [] then ""
    else if s[0] == '{' && !open && Known(ui, s[1..]) then
      var j := CloseAt(s[1..]);
      "{{" + ui[s[1..][..j]] + "}}" + Translate(ui, false, s[j + 2..])
    else [s[0]] + Translate(ui, s[0] == '{', s[1..])
  }

  predicate OpenBefore(template: string, i: nat)
    requires i <= |template|
  {
    i > 0 && template[i - 1] == '{'
  }

  /** The rewriting of what is left at index i. */
  function From(ui: map<string, string>, template: string, i: nat): string
    requires i <= |template|
  {
    Translate(ui, OpenBefore(template, i), template[i..])
  }

  lemma CopyStep(ui: map<string, string>, template: string, i: nat, done: string)
    requires i < |template|
    requires !(template[i] == '{' && !OpenBefore(template, i) && Known(ui, template[i + 1..]))
    ensures done + From(ui, template, i) == done + [template[i]] + From(ui, template, i + 1)
  {
    assert template[i..][1..] == template[i + 1..];
    assert From(ui, template, i) == [template[i]] + From(ui, template, i + 1);
    Reassociate(done, [template[i]], From(ui, template, i + 1));
  }

  function Doubled(ui: map<string, string>, token: string): string
    requires token in ui
  {
    "{{" + ui[token] + "}}"
  }

  lemma TokenStep(ui: map<string, string>, template: string, i: nat, j: nat, done: string)
    requires i < j < |template| && template[i] == '{' && !OpenBefore(template, i)
    requires CloseAt(template[i + 1..]) == j - i - 1 && template[i + 1..j] in ui
    ensures done + From(ui, template, i) == done + Doubled(ui, template[i + 1..j]) + From(ui, template, j + 1)
  {
    var s := template[i..];
    assert s[1..] == template[i + 1..] && template[i + 1..][..j - i - 1] == template[i + 1..j];
    assert s[j - i + 1..] == template[j + 1..] && template[j] == '}';
    assert From(ui, template, i) == Doubled(ui, template[i + 1..j]) + From(ui, template, j + 1);
    Reassociate(done, Doubled(ui, template[i + 1..j]), From(ui, template, j + 1));
  }

  method TranslateUISingleBrackets(ui: map<string, string>, template: string) returns (result: string)
    ensures result == Translate(ui, false, template)
  {
    result := "";
    var i := 0;
    assert template[0..] == template;
    while i < |template|
      invariant 0 <= i <= |template|
      invariant result + From(ui, template, i) == Translate(ui, false, template)
      decreases |template| - i
    {
      if template[i] == '{' && (i == 0 || template[i - 1] != '{') {
        var j := ScanClose(template, i + 1);
        if j < |template| && template[i + 1..j] in ui {
          TokenStep(ui, template, i, j, result);
          result := result + Doubled(ui, template[i + 1..j]);
          i := j + 1;
          continue;
        }
      }
      CopyStep(ui, template, i, result);
      result := result + [template[i]];
      i := i + 1;
    }
  }

  /** The inner loop: the next closing brace from i on, or the end. */
  method ScanClose(template: string, i: nat) returns (j: nat)
    requires i <= |template|
    ensures i <= j <= |template| && j - i == CloseAt(template[i..])
    ensures template[i..][..j - i] == template[i..j]
  {
    j := i;
    while j < |template| && template[j] != '}'
      invariant i <= j <= |template|
      invariant forall k :: i <= k < j ==> template[k] != '}'
    {
      j := j + 1;
    }
    CloseFound(template, i, j);
  }

  lemma CloseFound(s: string, i: nat, j: nat)
    requires i <= j <= |s| && (j < |s| ==> s[j] == '}')
    requires forall k :: i <= k < j ==> s[k] != '}'
    ensures CloseAt(s[i..]) == j - i
  {
    var t := s[i..];
    assert forall k :: 0 <= k < j - i ==> t[k] == s[i + k];
    assert j < |s| ==> t[j - i] == '}';
  }

  // -------------------------------------------------- rewriting is idempotent

  lemma {:induction false} CopyPlain(ui: map<string, string>, open: bool, p: string, s: string)
    requires Free(p, '{') && p != ""
    ensures Translate(ui, open, p + s) == p + Translate(ui, false, s)
  {
    assert (p + s)[1..] == p[1..] + s;
    if |p| > 1 {
      CopyPlain(ui, false, p[1..], s);
      assert p == [p[0]] + p[1..];
    } else {
      assert p[1..] + s == s;
    }
  }

  /** A known token in single braces becomes its internal one in double braces, and what
      stands around it does not matter, unless an opening brace stands right before it. */
  lemma TokenRewritten(ui: map<string, string>, before: string, token: string, after: string)
    requires Free(before, '{') && token in ui && Plain(token)
    ensures Translate(ui, false, before + ("{" + token + "}" + after))
         == before + ("{{" + ui[token] + "}}" + Translate(ui, false, after))
  {
    var s := "{" + token + "}" + after;
    assert s[1..] == token + ("}" + after) && s[|token| + 2..] == after;
    CloseUnique(s[1..], |token|);
    assert s[1..][..|token|] == token;
    if before == "" {
      assert before + s == s;
    } else {
      CopyPlain(ui, false, before, s);
    }
  }

  /** A text without opening braces stays as it is. */
  lemma PlainStays(ui: map<string, string>, s: string)
    requires Free(s, '{')
    ensures Translate(ui, false, s) == s
  {
    if s != "" {
      CopyPlain(ui, false, s, "");
      assert s + "" == s;
    }
  }

  lemma TranslateLead(ui: map<string, string>, open: bool, s: string)
    requires s != "" && s[0] == '{'
    ensures Translate(ui, open, s) != "" && Translate(ui, open, s)[0] == '{'
  {
  }

  /** Position of the first opening brace, or the length. */
  function OpenAt(s: string): (k: nat)
    ensures k <= |s| && (k < |s| ==> s[k] == '{')
    ensures forall i :: 0 <= i < k ==> s[i] != '{'
  {
    if s == [] || s[0] == '{' then 0 else 1 + OpenAt(s[1..])
  }

  lemma CloseUnique(s: string, j: nat)
    requires j < |s| && s[j] == '}' && forall k :: 0 <= k < j ==> s[k] != '}'
    ensures CloseAt(s) == j
  {
  }

  /** An opening brace before the close is still there after the rewriting. */
  lemma OpenStays(ui: map<string, string>, open: bool, s: string)
    requires OpenAt(s) < CloseAt(s)
    ensures var r := Translate(ui, open, s); OpenAt(s) < CloseAt(r) && r[OpenAt(s)] == '{'
  {
    var r, k := Translate(ui, open, s), OpenAt(s);
    assert s == s[..k] + s[k..];
    if k > 0 {
      CopyPlain(ui, open, s[..k], s[k..]);
    } else {
      assert s[k..] == s;
    }
    var rest := Translate(ui, open && k == 0, s[k..]);
    TranslateLead(ui, open && k == 0, s[k..]);
    assert r == s[..k] + rest;
    assert r[k] == rest[0] && forall i :: 0 <= i < k ==> r[i] == s[i];
  }

  lemma BraceBlocks(ui: map<string, string>, s: string, k: nat)
    requires BraceFree(ui) && k < CloseAt(s) && s[k] == '{'
    ensures !Known(ui, s)
  {
    assert s[..CloseAt(s)][k] == '{';
  }

  /** What follows an opening brace is a known token after the rewriting only if it was
      one before. */
  lemma KnownAfter(ui: map<string, string>, open: bool, s: string)
    requires BraceFree(ui) && Known(ui, Translate(ui, open, s))
    ensures Known(ui, s)
  {
    var r, j := Translate(ui, open, s), CloseAt(s);
    if OpenAt(s) < j {
      OpenStays(ui, open, s);
      BraceBlocks(ui, r, OpenAt(s));
    } else if j < |s| {
      var p := s[..j + 1];
      assert s == p + s[j + 1..] && Free(p, '{');
      CopyPlain(ui, open, p, s[j + 1..]);
      assert forall i :: 0 <= i <= j ==> r[i] == s[i];
      CloseUnique(r, j);
      assert r[..j] == s[..j];
    } else {
      assert s + "" == s;
      if s != "" {
        CopyPlain(ui, open, s, "");
      }
      assert r == s;
    }
  }

  /** Rewriting twice is rewriting once, so it does no harm that the template passes
      through it on the way into the links and again on expansion. */
  lemma {:induction false} TranslateIdempotent(ui: map<string, string>, open: bool, s: string)
    requires BraceFree(ui)
    ensures Translate(ui, open, Translate(ui, open, s)) == Translate(ui, open, s)
    decreases |s|
  {
    if s == [] {
    } else if s[0] == '{' && !open && Known(ui, s[1..]) {
      var j := CloseAt(s[1..]);
      var v, r := ui[s[1..][..j]], Translate(ui, false, s[j + 2..]);
      TranslateIdempotent(ui, false, s[j + 2..]);
      DoubleBraceKept(ui, v, r);
    } else {
      var r := Translate(ui, s[0] == '{', s[1..]);
      TranslateIdempotent(ui, s[0] == '{', s[1..]);
      assert ([s[0]] + r)[1..] == r;
      if s[0] == '{' && !open && Known(ui, r) {
        KnownAfter(ui, true, s[1..]);
      }
    }
  }

  lemma DoubleBraceKept(ui: map<string, string>, v: string, r: string)
    requires BraceFree(ui) && Free(v, '{')
    ensures Translate(ui, false, "{{" + v + "}}" + r) == "{{" + v + "}}" + Translate(ui, false, r)
  {
    var s := "{{" + v + "}}" + r;
    var p := v + "}}";
    assert s[1..] == "{" + (p + r) && s[1..][1..] == p + r;
    BraceBlocks(ui, s[1..], 0);
    CopyPlain(ui, true, p, r);
    assert "{" + ("{" + (p + Translate(ui, false, r))) == "{{" + v + "}}" + Translate(ui, false, r);
  }

  /** Nothing to rewrite. */
  ghost predicate Settled(ui: map<string, string>, open: bool, s: string) {
    Translate(ui, open, s) == s
  }

  lemma RewrittenDiffers(ui: map<string, string>, s: string)
    requires BraceFree(ui) && s != "" && s[0] == '{' && Known(ui, s[1..])
    ensures Translate(ui, false, s) != s
  {
    var t := s[1..];
    assert Translate(ui, false, s)[1] == '{';
    if CloseAt(t) > 0 {
      assert t[..CloseAt(t)][0] == t[0] == s[1];
    }
  }

  lemma SettledCopies(ui: map<string, string>, open: bool, s: string)
    requires BraceFree(ui) && s != "" && Settled(ui, open, s)
    ensures !(s[0] == '{' && !open && Known(ui, s[1..]))
    ensures Settled(ui, s[0] == '{', s[1..])
  {
    if s[0] == '{' && !open && Known(ui, s[1..]) {
      RewrittenDiffers(ui, s);
    } else {
      Cancel([s[0]], [s[0]], Translate(ui, s[0] == '{', s[1..]), s[1..]);
    }
  }

  lemma KnownPrefix(ui: map<string, string>, s: string, n: nat)
    requires n <= |s| && Known(ui, s[..n])
    ensures Known(ui, s)
  {
    var j := CloseAt(s[..n]);
    CloseUnique(s, j);
    assert s[..n][..j] == s[..j];
  }

  /** A beginning of a settled template is settled: cutting makes no new tokens. */
  lemma {:induction false} PrefixSettled(ui: map<string, string>, open: bool, s: string, n: nat)
    requires BraceFree(ui) && n <= |s| && Settled(ui, open, s)
    ensures Settled(ui, open, s[..n])
    decreases n
  {
    if n > 0 {
      SettledCopies(ui, open, s);
      PrefixSettled(ui, s[0] == '{', s[1..], n - 1);
      assert s[..n][1..] == s[1..][..n - 1];
      if Known(ui, s[1..][..n - 1]) {
        KnownPrefix(ui, s[1..], n - 1);
      }
      assert s[..n] == [s[0]] + s[1..][..n - 1];
    }
  }
}
