/** The usage part of remark templates (internal/sub/remark_vars.go): it is shown on the
    first link of each client and cut off on every later one. */
module RemarkUsage {
  import opened Text
  import opened RemarkTemplate
  import opened RemarkExpand

  /** What the package keeps in tables: the single-brace tokens, the usage tokens, and
      which characters are letters or digits. */
  datatype Rules = Rules(ui: map<string, string>, usage: seq<string>, isWord: char -> bool)

  /** usageInfoTokens. */
  function UsageTokens(): seq<string> {
    ["TRAFFIC_USED", "TRAFFIC_LEFT", "TRAFFIC_TOTAL",
     "TRAFFIC_USED_BYTES", "TRAFFIC_LEFT_BYTES", "TRAFFIC_TOTAL_BYTES",
     "UP", "DOWN", "DAYS_LEFT", "EXPIRE_DATE", "EXPIRE_UNIX", "STATUS",
     "STATUS_EMOJI", "USAGE_PERCENTAGE", "TIME_LEFT", "JALALI_EXPIRE_DATE"]
  }

  /** unlimitedDropTokens. */
  function DropTokens(): set<string> {
    {"TRAFFIC_LEFT", "TRAFFIC_TOTAL", "DAYS_LEFT", "TIME_LEFT"}
  }

  /** The package's own tables. */
  ghost predicate PanelRules(rules: Rules) {
    rules.ui == Table(UiTokens()) && rules.usage == UsageTokens()
  }

  // ------------------------------------------------------ cutting the usage part

  /** Some placeholder of the list stands at index i. */
  predicate UsageAt(usage: seq<string>, s: string, i: nat) {
    exists t :: t in usage && Occurs(s, Braced(t), i)
  }

  function FirstFrom(usage: seq<string>, s: string, from: nat): (i: nat)
    requires from <= |s|
    ensures from <= i <= |s| && (i < |s| ==> UsageAt(usage, s, i))
    ensures forall k: nat :: from <= k < i ==> !UsageAt(usage, s, k)
    decreases |s| - from
  {
    if from == |s| || UsageAt(usage, s, from) then from else FirstFrom(usage, s, from + 1)
  }

  /** Where the first of these placeholders begins, or the length. */
  function FirstUsage(usage: seq<string>, s: string): (i: nat)
    ensures i <= |s| && (i < |s| ==> UsageAt(usage, s, i))
    ensures forall k: nat :: k < i ==> !UsageAt(usage, s, k)
  {
    FirstFrom(usage, s, 0)
  }

  /** strings.Index. */
  method Index(s: string, p: string) returns (i: int)
    ensures i >= 0 ==> Occurs(s, p, i) && forall k: nat :: k < i ==> !Occurs(s, p, k)
    ensures i < 0 ==> forall k: nat :: !Occurs(s, p, k)
  {
    i := 0;
    while i + |p| <= |s|
      invariant 0 <= i
      invariant forall k: nat :: k < i ==> !Occurs(s, p, k)
    {
      OccursSlice(s, p, i);
      if s[i..i + |p|] == p {
        return;
      }
      i := i + 1;
    }
    i := -1;
  }

  predicate IsKept(isWord: char -> bool, c: char) {
    c == '}' || isWord(c)
  }

  /** strings.TrimRightFunc: the decoration at the end goes. */
  function TrimDecoration(isWord: char -> bool, s: string): (r: string)
    ensures r <= s && forall k :: |r| <= k < |s| ==> !IsKept(isWord, s[k])
    ensures r != "" ==> IsKept(isWord, r[|r| - 1])
  {
    if s == "" || IsKept(isWord, s[|s| - 1]) then s else TrimDecoration(isWord, s[..|s| - 1])
  }

  function NameOnly(rules: Rules, s: string): string {
    var i := FirstUsage(rules.usage, s);
    if i == |s| then s else TrimDecoration(rules.isWord, s[..i])
  }

  /** The least index found so far, or -1. */
  ghost predicate FoundFirst(usage: seq<string>, s: string, idx: int) {
    if idx < 0 then forall k: nat :: !UsageAt(usage, s, k)
    else UsageAt(usage, s, idx) && forall k: nat :: k < idx ==> !UsageAt(usage, s, k)
  }

  lemma FoundNext(usage: seq<string>, t: string, s: string, idx: int, i: int)
    requires FoundFirst(usage, s, idx)
    requires i >= 0 ==> Occurs(s, Braced(t), i) && forall k: nat :: k < i ==> !Occurs(s, Braced(t), k)
    requires i < 0 ==> forall k: nat :: !Occurs(s, Braced(t), k)
    ensures FoundFirst(usage + [t], s, if i >= 0 && (idx < 0 || i < idx) then i else idx)
  {
    assert forall k: nat :: UsageAt(usage + [t], s, k) <==> UsageAt(usage, s, k) || Occurs(s, Braced(t), k);
  }

  method NameOnlyTemplate(rules: Rules, template: string) returns (r: string)
    ensures r == NameOnly(rules, template)
  {
    var idx := -1;
    for n := 0 to |rules.usage|
      invariant FoundFirst(rules.usage[..n], template, idx)
    {
      var i := Index(template, Braced(rules.usage[n]));
      FoundNext(rules.usage[..n], rules.usage[n], template, idx, i);
      assert rules.usage[..n + 1] == rules.usage[..n] + [rules.usage[n]];
      if i >= 0 && (idx < 0 || i < idx) {
        idx := i;
      }
    }
    assert rules.usage[..|rules.usage|] == rules.usage;
    if idx < 0 {
      return template;
    }
    assert FirstUsage(rules.usage, template) == idx;
    return TrimDecoration(rules.isWord, template[..idx]);
  }

  /** The name part is a beginning of the template without usage placeholders, and what
      goes besides them is decoration only. */
  lemma NameOnlyCuts(rules: Rules, s: string)
    ensures NameOnly(rules, s) <= s
    ensures forall k: nat :: !UsageAt(rules.usage, NameOnly(rules, s), k)
    ensures (forall k: nat :: !UsageAt(rules.usage, s, k)) ==> NameOnly(rules, s) == s
    ensures forall k: nat :: |NameOnly(rules, s)| <= k < FirstUsage(rules.usage, s) ==> !IsKept(rules.isWord, s[k])
  {
    var first := FirstUsage(rules.usage, s);
    if first < |s| {
      var r := TrimDecoration(rules.isWord, s[..first]);
      assert r <= s[..first] <= s;
      forall k: nat ensures !UsageAt(rules.usage, r, k) {
        if UsageAt(rules.usage, r, k) { UsageInPrefix(rules.usage, r, s, k); }
      }
    } else {
      forall k: nat ensures !UsageAt(rules.usage, s, k) {
        if UsageAt(rules.usage, s, k) { UsageBefore(rules.usage, s, k); }
      }
    }
  }

  /** No letter, digit or placeholder in front of the first usage placeholder is cut, and
      the name part ends in one, unless it is the whole template or empty. */
  lemma NameOnlyKeepsPlaceholders(rules: Rules, s: string, t: string, k: nat)
    ensures var name, first := NameOnly(rules, s), FirstUsage(rules.usage, s);
      && (Occurs(s, "{{" + t + "}}", k) && k + |t| + 4 <= first ==> k + |t| + 4 <= |name|)
      && (k < first && (s[k] == '}' || rules.isWord(s[k])) ==> k < |name|)
      && (name == s || name == "" || name[|name| - 1] == '}' || rules.isWord(name[|name| - 1]))
  {
    var first := FirstUsage(rules.usage, s);
    if Occurs(s, "{{" + t + "}}", k) && k + |t| + 4 <= first {
      assert s[k + (|t| + 3)] == ("{{" + t + "}}")[|t| + 3] == '}';
    }
    if first < |s| {
      var r := TrimDecoration(rules.isWord, s[..first]);
      assert forall m :: 0 <= m < first ==> s[..first][m] == s[m];
    }
  }

  lemma UsageBefore(usage: seq<string>, s: string, k: nat)
    requires UsageAt(usage, s, k)
    ensures k < |s|
  {
    var t :| t in usage && Occurs(s, Braced(t), k);
  }

  lemma UsageInPrefix(usage: seq<string>, r: string, s: string, k: nat)
    requires r <= s && UsageAt(usage, r, k)
    ensures UsageAt(usage, s, k) && k < |r|
  {
    var t :| t in usage && Occurs(r, Braced(t), k);
    assert Occurs(s, r, 0);
    OccursWithin(s, r, Braced(t), 0, k);
  }

  // ---------------------------------------------- expansion shows no usage value

  lemma {:induction false} TokenOccurs(s: string, t: string) returns (k: nat)
    requires t in Tokens(s)
    ensures Occurs(s, Braced(t), k)
    decreases |s|
  {
    var here := TokenAt(s);
    if here == Some(t) {
      OccursSlice(s, Braced(t), 0);
      return 0;
    }
    var n := if here.Some? then |Braced(here.value)| else 1;
    var j := TokenOccurs(s[n..], t);
    OccursInRest(s, n, Braced(t), j);
    return n + j;
  }

  lemma SegmentTokenOccurs(s: string, i: nat, t: string) returns (k: nat)
    requires i < |Segments(s)| && t in Tokens(Segments(s)[i])
    ensures Occurs(s, Braced(t), k)
  {
    var seg := Segments(s)[i];
    var j := SegmentOffset(s, i);
    var m := TokenOccurs(seg, t);
    OccursWithin(s, seg, Braced(t), j, m);
    return j + m;
  }

  lemma {:induction false} ExpandAgrees(v: string -> string, w: string -> string, s: string)
    requires forall t :: t in Tokens(s) ==> v(t) == w(t)
    ensures Expand(v, s) == Expand(w, s)
    decreases |s|
  {
    if s != [] {
      var n := if TokenAt(s).Some? then |Braced(TokenAt(s).value)| else 1;
      assert forall t :: t in Tokens(s[n..]) ==> t in Tokens(s);
      ExpandAgrees(v, w, s[n..]);
    }
  }

  /** Two clients that differ in their usage only. */
  ghost predicate SameButUsage(rules: Rules, c: Client, d: Client) {
    && c.dropTokens == d.dropTokens && c.unlimited == d.unlimited
    && forall t :: t !in rules.usage ==> c.value(t) == d.value(t)
  }

  lemma {:induction false} KeptSegmentsAgree(c: Client, d: Client, segs: seq<string>)
    requires c.dropTokens == d.dropTokens && c.unlimited == d.unlimited
    requires forall i, t :: 0 <= i < |segs| && t in Tokens(segs[i]) ==> c.value(t) == d.value(t)
    ensures KeptSegments(c, segs) == KeptSegments(d, segs)
  {
    if segs != [] {
      var n := |segs| - 1;
      KeptSegmentsAgree(c, d, segs[..n]);
      ExpandAgrees(c.value, d.value, segs[n]);
      assert forall t :: t in Tokens(segs[n]) ==> (ShowsUnlimited(c, t) <==> ShowsUnlimited(d, t));
    }
  }

  /** What expandRemarkVars makes of a template for a client. */
  function Rendered(rules: Rules, c: Client, template: string): string {
    Join(KeptSegments(c, Segments(Translate(rules.ui, false, template))), "|")
  }

  /** The name part of a rewritten template reads the same whatever the client has used
      or has left: the second rewriting on the way to the expansion does not bring a
      usage placeholder back, and no segment drops out over one. */
  lemma NameOnlyHidesUsage(rules: Rules, template: string, c: Client, d: Client)
    requires BraceFree(rules.ui) && SameButUsage(rules, c, d)
    ensures var name := NameOnly(rules, Translate(rules.ui, false, template));
            Rendered(rules, c, name) == Rendered(rules, d, name)
  {
    var full := Translate(rules.ui, false, template);
    var name := NameOnly(rules, full);
    NameOnlyCuts(rules, full);
    TranslateIdempotent(rules.ui, false, template);
    PrefixSettled(rules.ui, false, full, |name|);
    assert full[..|name|] == name;
    forall i, t | 0 <= i < |Segments(name)| && t in Tokens(Segments(name)[i])
      ensures c.value(t) == d.value(t)
    {
      var k := SegmentTokenOccurs(name, i, t);
      assert t in rules.usage ==> UsageAt(rules.usage, name, k);
    }
    KeptSegmentsAgree(c, d, Segments(name));
  }

  /** Every token that can make a segment drop out is a usage token, so the name part
      is expanded whole: its bars and decoration always stay. */
  lemma NameOnlyExpandsWhole(rules: Rules, template: string, c: Client)
    requires PanelRules(rules) && c.dropTokens == DropTokens()
    ensures var name := NameOnly(rules, Translate(rules.ui, false, template));
            Rendered(rules, c, name) == Expand(c.value, name)
  {
    var full := Translate(rules.ui, false, template);
    var name := NameOnly(rules, full);
    UiTokensBraceFree();
    NameOnlyCuts(rules, full);
    TranslateIdempotent(rules.ui, false, template);
    PrefixSettled(rules.ui, false, full, |name|);
    assert full[..|name|] == name;
    DropTokensAreUsage();
    forall i | 0 <= i < |Segments(name)| ensures !Drops(c, Segments(name)[i]) {
      forall t | t in Tokens(Segments(name)[i]) ensures t !in c.dropTokens {
        var k := SegmentTokenOccurs(name, i, t);
        assert t in rules.usage ==> UsageAt(rules.usage, name, k);
      }
    }
    SegmentsExpandWhole(c, name);
  }

  lemma DropTokensAreUsage()
    ensures forall t :: t in DropTokens() ==> t in UsageTokens()
  {
    var u := UsageTokens();
    assert u[1] == "TRAFFIC_LEFT" && u[2] == "TRAFFIC_TOTAL" && u[8] == "DAYS_LEFT" && u[14] == "TIME_LEFT";
  }

  // ------------------------------------------------------- the links of a request

  predicate Shown(usageShown: map<string, bool>, email: string) {
    email in usageShown && usageShown[email]
  }

  /** The per-request state of SubService that remarks depend on. */
  class SubService {
    const rules: Rules
    const remarkTemplate: string
    var usageShown: map<string, bool>

    /** PrepareForRequest. */
    constructor (rules: Rules, remarkTemplate: string)
      ensures this.rules == rules && this.remarkTemplate == remarkTemplate && usageShown == map[]
    {
      this.rules := rules;
      this.remarkTemplate := remarkTemplate;
      usageShown := map[];
    }

    method EffectiveTemplate(email: string) returns (template: string)
      modifies `usageShown
      ensures template == Effective(rules, remarkTemplate, old(usageShown), email)
      ensures usageShown == old(usageShown)[email := true]
    {
      var translated := TranslateUISingleBrackets(rules.ui, remarkTemplate);
      if Shown(usageShown, email) {
        assert usageShown == usageShown[email := true];
        template := NameOnlyTemplate(rules, translated);
        return;
      }
      usageShown := usageShown[email := true];
      return translated;
    }
  }

  function Effective(rules: Rules, template: string, usageShown: map<string, bool>, email: string): string {
    var translated := Translate(rules.ui, false, template);
    if Shown(usageShown, email) then NameOnly(rules, translated) else translated
  }

  /** The templates that successive links of one request get, by their clients. */
  function Templates(rules: Rules, template: string, usageShown: map<string, bool>, emails: seq<string>)
    : (r: seq<string>)
    ensures |r| == |emails|
    decreases |emails|
  {
    if emails == [] then []
    else
      [Effective(rules, template, usageShown, emails[0])] +
      Templates(rules, template, usageShown[emails[0] := true], emails[1..])
  }

  /** Exactly the first link of each client gets the whole template. */
  lemma {:induction false} FirstLinkShowsUsage(rules: Rules, template: string, usageShown: map<string, bool>,
                                               emails: seq<string>, j: nat)
    requires j < |emails|
    ensures var translated := Translate(rules.ui, false, template);
            Templates(rules, template, usageShown, emails)[j]
            == if Shown(usageShown, emails[j]) || emails[j] in emails[..j] then NameOnly(rules, translated)
               else translated
    decreases j
  {
    if j > 0 {
      FirstLinkShowsUsage(rules, template, usageShown[emails[0] := true], emails[1..], j - 1);
      assert emails[..j] == [emails[0]] + emails[1..][..j - 1];
    }
  }

  /** Over all links of a request, a client's usage shows in at most the first of them:
      any later one reads the same for every usage that client could have. */
  lemma UsageShownOnce(rules: Rules, template: string, emails: seq<string>, i: nat, j: nat, c: Client, d: Client)
    requires BraceFree(rules.ui) && SameButUsage(rules, c, d)
    requires i < j < |emails| && emails[i] == emails[j]
    ensures var t := Templates(rules, template, map[], emails)[j];
            Rendered(rules, c, t) == Rendered(rules, d, t)
  {
    FirstLinkShowsUsage(rules, template, map[], emails, j);
    assert emails[..j][i] == emails[j];
    NameOnlyHidesUsage(rules, template, c, d);
  }
}
