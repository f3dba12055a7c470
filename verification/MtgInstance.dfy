/** internal/mtproto/manager.go: the desired configuration of one mtg process, its
    fingerprint, and the TOML rendered from it. */
module MtgInstance {
  import opened Text

  datatype Instance = Instance(
    id: int, tag: string, listen: string, port: int, secret: string,
    debug: bool, proxyProtocolListener: bool, preferIP: string,
    frontingIP: string, frontingPort: int, frontingProxyProtocol: bool,
    routeThroughXray: bool, xrayRoutePort: int)

  function BindTo(inst: Instance): string {
    (if inst.listen == "" then "0.0.0.0" else inst.listen) + ":" + Itoa(inst.port)
  }

  function FormatBool(b: bool): string {
    if b then "true" else "false"
  }

  /** Every value the generated TOML is made from. */
  datatype Tuning = Tuning(
    bindTo: string, secret: string, debug: bool, proxyProtocolListener: bool, preferIP: string,
    frontingIP: string, frontingPort: int, frontingProxyProtocol: bool,
    routeThroughXray: bool, xrayRoutePort: int)

  function TuningOf(inst: Instance): Tuning {
    Tuning(BindTo(inst), inst.secret, inst.debug, inst.proxyProtocolListener, inst.preferIP,
           inst.frontingIP, inst.frontingPort, inst.frontingProxyProtocol,
           inst.routeThroughXray, inst.xrayRoutePort)
  }

  function Fields(t: Tuning): seq<string> {
    [t.bindTo, t.secret, FormatBool(t.debug), FormatBool(t.proxyProtocolListener),
     t.preferIP, t.frontingIP, Itoa(t.frontingPort), FormatBool(t.frontingProxyProtocol),
     FormatBool(t.routeThroughXray), Itoa(t.xrayRoutePort)]
  }

  function Fingerprint(inst: Instance): string {
    Join(Fields(TuningOf(inst)), "|")
  }

  /** renderConfig; quote is the %q verb. */
  function RenderConfig(quote: string -> string, inst: Instance, metricsPort: int): string {
    Render(quote, TuningOf(inst), metricsPort)
  }

  function SecretLine(quote: string -> string, t: Tuning): string {
    "secret = " + quote(t.secret)
  }

  /** The lines between the secret and prefer-ip. */
  function MiddleLines(quote: string -> string, t: Tuning): string {
    "bind-to = " + quote(t.bindTo) + "\n"
    + (if t.debug then "debug = true\n" else "")
    + (if t.proxyProtocolListener then "proxy-protocol-listener = true\n" else "")
  }

  function PreferLine(quote: string -> string, t: Tuning): string {
    "prefer-ip = " + quote(t.preferIP)
  }

  // The sections behind the top-level keys, each after a blank line.

  function FrontingSection(quote: string -> string, t: Tuning): (r: string)
    ensures r != "" ==> r[0] == '\n'
  {
    if t.frontingIP != "" || t.frontingPort > 0 || t.frontingProxyProtocol then
      "\n[domain-fronting]\n"
      + (if t.frontingIP != "" then "ip = " + quote(t.frontingIP) + "\n" else "")
      + (if t.frontingPort > 0 then "port = " + Itoa(t.frontingPort) + "\n" else "")
      + (if t.frontingProxyProtocol then "proxy-protocol = true\n" else "")
    else ""
  }

  function NetworkSection(t: Tuning): (r: string)
    ensures r != "" ==> r[0] == '\n'
  {
    if t.routeThroughXray && t.xrayRoutePort > 0 then
      "\n[network]\n" + ("proxies = [\"socks5://127.0.0.1:" + Itoa(t.xrayRoutePort) + "\"]\n")
    else ""
  }

  function StatsSection(metricsPort: int): (r: string)
    ensures r != "" && r[0] == '\n'
  {
    "\n[stats.prometheus]\n"
    + "enabled = true\n"
    + ("bind-to = \"127.0.0.1:" + Itoa(metricsPort) + "\"\n")
    + "http-path = \"/metrics\"\n"
    + "metric-prefix = \"mtg\"\n"
  }

  function Sections(quote: string -> string, t: Tuning, metricsPort: int): (r: string)
    ensures r != "" && r[0] == '\n'
  {
    FrontingSection(quote, t) + NetworkSection(t) + StatsSection(metricsPort)
  }

  function FromPrefer(quote: string -> string, t: Tuning, metricsPort: int): string {
    (if t.preferIP != "" then PreferLine(quote, t) + "\n" else "") + Sections(quote, t, metricsPort)
  }

  function Render(quote: string -> string, t: Tuning, metricsPort: int): string {
    SecretLine(quote, t) + "\n" + (MiddleLines(quote, t) + FromPrefer(quote, t, metricsPort))
  }

  lemma FieldsDecide(x: Tuning, y: Tuning)
    requires Fields(x) == Fields(y)
    ensures x == y
  {
    var f, g := Fields(x), Fields(y);
    assert f[0] == g[0] && f[1] == g[1] && f[2] == g[2] && f[3] == g[3] && f[4] == g[4];
    assert f[5] == g[5] && f[6] == g[6] && f[7] == g[7] && f[8] == g[8] && f[9] == g[9];
    ItoaInjective(x.frontingPort, y.frontingPort);
    ItoaInjective(x.xrayRoutePort, y.xrayRoutePort);
    assert FormatBool(true)[0] != FormatBool(false)[0];
  }

  // ------------------------------------------------ when the fingerprint is unambiguous

  function Bound(listen: string, port: int): string {
    listen + ":" + Itoa(port)
  }

  predicate IsPort(port: int) {
    0 <= port <= 65535
  }

  /** What InstanceFromInbound makes instances of: an inbound whose port was validated,
      with a secret. */
  predicate Usable(inst: Instance) {
    inst.secret != "" && IsPort(inst.port)
  }

  /** A text that could be the address mtg binds to: something, a colon, a port. */
  ghost predicate IsBindTo(t: string) {
    exists listen, port :: listen != "" && IsPort(port) && t == Bound(listen, port)
  }

  /** A text that starts with two flags, each a whole field. */
  ghost predicate TwoFlags(t: string) {
    exists x, y, rest :: FlagsThen(t, x, y, rest)
  }

  predicate FlagsThen(t: string, x: bool, y: bool, rest: string) {
    (rest == "" || rest[0] == '|') && t == FormatBool(x) + "|" + FormatBool(y) + rest
  }

  function SecretAndDebug(inst: Instance): string {
    inst.secret + "|" + FormatBool(inst.debug)
  }

  /** No separator inside a field can be taken for the end of one: preferIP and
      frontingIP hold none, no address to bind to ends before one in listen, and none
      before one in secret that leaves something behind it, and no two flags follow one
      in secret that leaves something before it. */
  ghost predicate Unambiguous(inst: Instance) {
    && Free(inst.preferIP, '|') && Free(inst.frontingIP, '|')
    && (forall k :: 0 <= k < |inst.listen| && inst.listen[k] == '|' ==> !IsBindTo(inst.listen[..k]))
    && (forall k :: 0 <= k < |inst.secret| && inst.secret[k] == '|' ==> !EndsAddress(inst, k) && !BeforeFlags(inst, k))
  }

  ghost predicate EndsAddress(inst: Instance, k: nat)
    requires k < |inst.secret|
  {
    k + 1 < |inst.secret| && IsBindTo(BindTo(inst) + "|" + inst.secret[..k])
  }

  ghost predicate BeforeFlags(inst: Instance, k: nat)
    requires k < |inst.secret|
  {
    k > 0 && TwoFlags(SecretAndDebug(inst)[k + 1..])
  }

  lemma BarFreeIsUnambiguous(inst: Instance)
    requires Free(inst.listen, '|') && Free(inst.secret, '|') && Free(inst.preferIP, '|') && Free(inst.frontingIP, '|')
    ensures Unambiguous(inst)
  {
  }

  lemma {:induction false} JoinSplit(xs: seq<string>, ys: seq<string>)
    requires xs != [] && ys != []
    ensures Join(xs + ys, "|") == Join(xs, "|") + "|" + Join(ys, "|")
  {
    assert (xs + ys)[1..] == xs[1..] + ys;
    if |xs| > 1 {
      JoinSplit(xs[1..], ys);
      Reassociate(xs[0] + "|", Join(xs[1..], "|"), "|");
      Reassociate(xs[0] + "|", Join(xs[1..], "|") + "|", Join(ys, "|"));
    } else {
      assert xs[1..] + ys == ys;
    }
  }

  /** The first n fields joined. */
  function Prefix(x: Tuning, n: nat): string
    requires 0 < n <= 10
  {
    Join(Fields(x)[..n], "|")
  }

  lemma PrefixStep(x: Tuning, n: nat)
    requires 0 < n < 10
    ensures Prefix(x, n + 1) == Prefix(x, n) + "|" + Fields(x)[n]
  {
    assert Fields(x)[..n + 1] == Fields(x)[..n] + [Fields(x)[n]];
    JoinSplit(Fields(x)[..n], [Fields(x)[n]]);
  }

  lemma FixedFieldsFree(x: Tuning)
    ensures Free(Fields(x)[2], '|') && Free(Fields(x)[3], '|')
    ensures forall i :: 6 <= i < 10 ==> Free(Fields(x)[i], '|')
  {
    assert forall i: int, k :: 0 <= k < |Itoa(i)| ==> Itoa(i)[k] != '|';
    assert Free(FormatBool(true), '|') && Free(FormatBool(false), '|');
  }

  /** Cutting a text at its last separator is unambiguous. */
  lemma CutLast(p: string, q: string, s: string, t: string)
    requires p + "|" + s == q + "|" + t && Free(s, '|') && Free(t, '|')
    ensures p == q && s == t
  {
    var x, y := p + "|" + s, q + "|" + t;
    assert x[|p|] == '|' && y[|q|] == '|';
    assert forall i :: |p| < i < |x| ==> x[i] == s[i - |p| - 1];
    assert forall i :: |q| < i < |y| ==> y[i] == t[i - |q| - 1];
    Reassociate(p, "|", s);
    Reassociate(q, "|", t);
    Cancel(p, q, "|" + s, "|" + t);
    assert s == ("|" + s)[1..] && t == ("|" + t)[1..];
  }

  /** When only the second ending holds a separator, the second beginning is shorter. */
  lemma CutShorter(p: string, q: string, s: string, t: string) returns (z: string)
    requires p + "|" + s == q + "|" + t && Free(s, '|') && !Free(t, '|')
    ensures p == q + "|" + z
  {
    var x := p + "|" + s;
    var k :| 0 <= k < |t| && t[k] == '|';
    assert x[|q| + 1 + k] == '|' && (forall i :: |p| < i < |x| ==> x[i] == s[i - |p| - 1]);
    assert |q| + 1 + k <= |p|;
    z := p[|q| + 1..];
    assert p == x[..|p|] && q + "|" == x[..|q| + 1];
  }

  lemma CutFixedEnd(x: Tuning, y: Tuning, n: nat)
    requires 0 < n < 10 && Prefix(x, n + 1) == Prefix(y, n + 1)
    requires Free(Fields(x)[n], '|') && Free(Fields(y)[n], '|')
    ensures Prefix(x, n) == Prefix(y, n) && Fields(x)[n] == Fields(y)[n]
  {
    PrefixStep(x, n);
    PrefixStep(y, n);
    CutLast(Prefix(x, n), Prefix(y, n), Fields(x)[n], Fields(y)[n]);
  }

  /** The last four fields can be cut off any fingerprint. */
  lemma CutPorts(x: Tuning, y: Tuning)
    requires Prefix(x, 10) == Prefix(y, 10)
    ensures Prefix(x, 6) == Prefix(y, 6) && Fields(x)[6..] == Fields(y)[6..]
  {
    FixedFieldsFree(x);
    FixedFieldsFree(y);
    CutFixedEnd(x, y, 9);
    CutFixedEnd(x, y, 8);
    CutFixedEnd(x, y, 7);
    CutFixedEnd(x, y, 6);
  }

  /** What is left is equal up to the flags, or the second one's first four fields end
      at a separator inside the first one's. */
  lemma CutAddresses(x: Tuning, y: Tuning) returns (z: string)
    requires Prefix(x, 6) == Prefix(y, 6) && Free(x.preferIP, '|') && Free(x.frontingIP, '|')
    ensures (Prefix(x, 4) == Prefix(y, 4) && x.preferIP == y.preferIP && x.frontingIP == y.frontingIP)
         || Prefix(x, 4) == Prefix(y, 4) + "|" + z
  {
    PrefixStep(x, 5);
    PrefixStep(y, 5);
    PrefixStep(x, 4);
    PrefixStep(y, 4);
    z := "";
    if Free(y.frontingIP, '|') {
      CutFixedEnd(x, y, 5);
      if Free(y.preferIP, '|') {
        CutFixedEnd(x, y, 4);
      } else {
        z := CutShorter(Prefix(x, 4), Prefix(y, 4), x.preferIP, y.preferIP);
      }
    } else {
      var rest := CutShorter(Prefix(x, 5), Prefix(y, 5), x.frontingIP, y.frontingIP);
      Reassociate(Prefix(y, 4) + "|", y.preferIP, "|");
      Reassociate(Prefix(y, 4) + "|", y.preferIP + "|", rest);
      z := CutShorter(Prefix(x, 4), Prefix(y, 4), x.preferIP, y.preferIP + "|" + rest);
    }
  }

  lemma BindToHas(inst: Instance)
    ensures IsPort(inst.port) ==> IsBindTo(BindTo(inst))
    ensures forall k :: 0 <= k < |BindTo(inst)| && BindTo(inst)[k] == '|' ==>
              k < |inst.listen| && inst.listen[k] == '|' && inst.listen[..k] == BindTo(inst)[..k]
  {
    var listen := if inst.listen == "" then "0.0.0.0" else inst.listen;
    var t, n := BindTo(inst), |listen|;
    assert t == Bound(listen, inst.port);
    assert forall k :: n < k < |t| ==> t[k] == Itoa(inst.port)[k - n - 1];
    assert t[n] == ':';
    forall k | 0 <= k < |t| && t[k] == '|'
      ensures k < |inst.listen| && inst.listen[k] == '|' && inst.listen[..k] == t[..k]
    {
      assert k < n && t[k] == listen[k];
      assert listen[..k] == t[..k];
    }
  }

  /** An address to bind to that ends at a separator of another instance's first two
      fields, but not with its own address, makes that instance ambiguous. */
  lemma WrongAddress(a: Instance, t: string)
    requires IsBindTo(t) && |t| != |BindTo(a)| && |t| + 1 < |BindTo(a)| + 1 + |a.secret|
    requires var s := BindTo(a) + "|" + a.secret; s[|t|] == '|' && s[..|t|] == t
    ensures !Unambiguous(a)
  {
    var own := BindTo(a);
    var s := own + "|" + a.secret;
    if |t| < |own| {
      BindToHas(a);
      assert own[|t|] == '|' && own[..|t|] == t;
    } else {
      var k := |t| - |own| - 1;
      assert a.secret[k] == s[|t|];
      assert s[..|t|] == own + "|" + a.secret[..k];
      assert EndsAddress(a, k);
    }
  }

  /** Two instances whose first two fields join to the same text. */
  lemma CutBindTo(a: Instance, b: Instance)
    requires Unambiguous(a) && Usable(b) && BindTo(a) + "|" + a.secret == BindTo(b) + "|" + b.secret
    ensures BindTo(a) == BindTo(b) && a.secret == b.secret
  {
    var s, t := BindTo(a) + "|" + a.secret, BindTo(b);
    BindToHas(b);
    assert (BindTo(b) + "|" + b.secret)[|t|] == '|' && (BindTo(b) + "|" + b.secret)[..|t|] == t;
    if |t| != |BindTo(a)| {
      WrongAddress(a, t);
    } else {
      Reassociate(BindTo(a), "|", a.secret);
      Reassociate(t, "|", b.secret);
      Cancel(BindTo(a), t, "|" + a.secret, "|" + b.secret);
      assert a.secret == ("|" + a.secret)[1..] && b.secret == ("|" + b.secret)[1..];
    }
  }

  lemma BarsBefore(p: string, s: string, i: nat)
    requires Free(s, '|') && i < |p + "|" + s| && (p + "|" + s)[i] == '|'
    ensures i <= |p|
  {
    var t := p + "|" + s;
    assert forall j :: |p| < j < |t| ==> t[j] == s[j - |p| - 1];
  }

  lemma Nest(p: string, q: string, r: string)
    ensures p + "|" + q + "|" + r == p + "|" + (q + "|" + r)
  {
    Reassociate(p + "|", q, "|");
    Reassociate(p + "|", q + "|", r);
  }

  /** What the second one's first four fields put behind its address and secret. */
  function FlagsAnd(b: Instance, tail: string): string {
    FormatBool(b.debug) + "|" + FormatBool(b.proxyProtocolListener) + tail
  }

  lemma FlagsShape(a: Instance, b: Instance, tail: string)
    requires Prefix(TuningOf(a), 3) == Prefix(TuningOf(b), 4) + tail
    ensures BindTo(a) + "|" + SecretAndDebug(a) == BindTo(b) + "|" + (b.secret + "|" + FlagsAnd(b, tail))
  {
    var x, y := TuningOf(a), TuningOf(b);
    HeadOfPrefix(x);
    HeadOfPrefix(y);
    PrefixStep(x, 2);
    PrefixStep(y, 2);
    PrefixStep(y, 3);
    var head, f, g := BindTo(b) + "|" + b.secret, FormatBool(b.debug), FormatBool(b.proxyProtocolListener);
    Nest(BindTo(a), a.secret, FormatBool(a.debug));
    Reassociate(head + "|" + f + "|", g, tail);
    Nest(head, f, g + tail);
    Reassociate(f + "|", g, tail);
    Nest(BindTo(b), b.secret, FlagsAnd(b, tail));
  }

  /** Where the separators of that text are. */
  lemma FlagsBars(a: Instance, b: Instance, tail: string)
    requires BindTo(a) + "|" + SecretAndDebug(a) == BindTo(b) + "|" + (b.secret + "|" + FlagsAnd(b, tail))
    requires tail == "" || tail[0] == '|'
    ensures |BindTo(b)| + 1 + |b.secret| < |BindTo(a)| + 1 + |a.secret|
  {
    var own, other := BindTo(a) + "|" + a.secret, BindTo(b) + "|" + b.secret;
    Nest(BindTo(a), a.secret, FormatBool(a.debug));
    Nest(BindTo(b), b.secret, FlagsAnd(b, tail));
    var s := other + "|" + FlagsAnd(b, tail);
    var after := |other| + 1 + |FormatBool(b.debug)|;
    assert FlagsAnd(b, tail)[|FormatBool(b.debug)|] == '|';
    assert s[after] == FlagsAnd(b, tail)[after - |other| - 1];
    FixedFieldsFree(TuningOf(a));
    BarsBefore(own, FormatBool(a.debug), after);
  }

  /** The second one's first four fields cannot end among the first one's first three. */
  lemma FlagsInPlace(a: Instance, b: Instance, tail: string)
    requires Usable(b) && (tail == "" || tail[0] == '|')
    requires Prefix(TuningOf(a), 3) == Prefix(TuningOf(b), 4) + tail
    ensures !Unambiguous(a)
  {
    var own, other, rest := BindTo(a), BindTo(b), b.secret + "|" + FlagsAnd(b, tail);
    FlagsShape(a, b, tail);
    FlagsBars(a, b, tail);
    if |other| == |own| {
      Reassociate(own, "|", SecretAndDebug(a));
      Reassociate(other, "|", rest);
      Cancel(own, other, "|" + SecretAndDebug(a), "|" + rest);
      Cancel("|", "|", SecretAndDebug(a), rest);
      FlagsFollow(a, b, tail);
    } else {
      Nest(own, a.secret, FormatBool(a.debug));
      BindToHas(b);
      Reassociate(own + "|" + a.secret, "|", FormatBool(a.debug));
      Reassociate(other, "|", rest);
      HeadAgrees(own + "|" + a.secret, "|" + FormatBool(a.debug), other, "|" + rest);
      WrongAddress(a, other);
    }
  }

  lemma FlagsFollow(a: Instance, b: Instance, tail: string)
    requires Usable(b) && (tail == "" || tail[0] == '|')
    requires SecretAndDebug(a) == b.secret + "|" + FlagsAnd(b, tail) && |b.secret| < |a.secret|
    ensures !Unambiguous(a)
  {
    var t, k := SecretAndDebug(a), |b.secret|;
    assert t[k] == '|' && t[k] == a.secret[k];
    assert t[k + 1..] == FlagsAnd(b, tail);
    assert FlagsThen(t[k + 1..], b.debug, b.proxyProtocolListener, tail);
    assert BeforeFlags(a, k);
  }

  lemma HeadAgrees(p: string, s: string, q: string, t: string)
    requires p + s == q + t && |q| < |p| && t != ""
    ensures p[..|q|] == q && p[|q|] == t[0]
  {
    var x := p + s;
    assert x[..|q|] == q && x[|q|] == t[0];
    assert forall i :: 0 <= i < |p| ==> p[i] == x[i];
  }

  lemma HeadOfPrefix(x: Tuning)
    ensures Prefix(x, 2) == x.bindTo + "|" + x.secret
  {
    assert Fields(x)[..1] == [x.bindTo];
    PrefixStep(x, 1);
  }

  lemma UniqueReading(a: Instance, b: Instance)
    requires Unambiguous(a) && Usable(b) && Fingerprint(b) == Fingerprint(a)
    ensures TuningOf(b) == TuningOf(a)
  {
    var x, y := TuningOf(a), TuningOf(b);
    assert Fields(x)[..10] == Fields(x) && Fields(y)[..10] == Fields(y);
    CutPorts(x, y);
    var z := CutAddresses(x, y);
    FixedFieldsFree(x);
    FixedFieldsFree(y);
    if Prefix(x, 4) == Prefix(y, 4) + "|" + z {
      NoShorterPrefix(a, b, z);
    } else {
      CutFixedEnd(x, y, 3);
      CutFixedEnd(x, y, 2);
      HeadOfPrefix(x);
      HeadOfPrefix(y);
      CutBindTo(a, b);
      SameFields(x, y);
    }
  }

  lemma SameFields(x: Tuning, y: Tuning)
    requires forall i :: 0 <= i < 6 ==> Fields(x)[i] == Fields(y)[i]
    requires Fields(x)[6..] == Fields(y)[6..]
    ensures x == y
  {
    assert forall i :: 6 <= i < 10 ==> Fields(x)[i] == Fields(x)[6..][i - 6] == Fields(y)[6..][i - 6];
    assert Fields(x) == Fields(y);
    FieldsDecide(x, y);
  }

  lemma NoShorterPrefix(a: Instance, b: Instance, z: string)
    requires Usable(b) && Prefix(TuningOf(a), 4) == Prefix(TuningOf(b), 4) + "|" + z
    ensures !Unambiguous(a)
  {
    var x, y := TuningOf(a), TuningOf(b);
    FixedFieldsFree(x);
    PrefixStep(x, 3);
    if Free(z, '|') {
      CutLast(Prefix(x, 3), Prefix(y, 4), Fields(x)[3], z);
      assert Prefix(y, 4) + "" == Prefix(y, 4);
      FlagsInPlace(a, b, "");
    } else {
      var rest := CutShorter(Prefix(x, 3), Prefix(y, 4), Fields(x)[3], z);
      Reassociate(Prefix(y, 4), "|", rest);
      FlagsInPlace(a, b, "|" + rest);
    }
  }

  // The other half: each way to be ambiguous gives another usable instance, and one that
  // mtg is configured differently for.

  /** Another secret, or the same instance but for another preferIP and frontingIP. */
  predicate Rival(a: Instance, b: Instance) {
    && Usable(b) && Fingerprint(b) == Fingerprint(a)
    && (b.secret != a.secret
        || (b.preferIP != a.preferIP && b == a.(preferIP := b.preferIP, frontingIP := b.frontingIP)))
  }

  /** A list of fields joined from its parts before i, from i to j, and from j on. */
  lemma JoinAt(xs: seq<string>, i: nat, j: nat)
    requires i < j < |xs|
    ensures Join(xs[i..], "|") == Join(xs[i..j], "|") + "|" + Join(xs[j..], "|")
    ensures i > 0 ==> Join(xs, "|") == Join(xs[..i], "|") + "|" + Join(xs[i..], "|")
  {
    CutList(xs, i);
    CutList(xs[i..], j - i);
    DropTwice(xs, i, j);
    JoinSplit(xs[i..j], xs[j..]);
    if i > 0 {
      JoinSplit(xs[..i], xs[i..]);
    }
  }

  lemma CutList<T>(s: seq<T>, i: nat)
    requires i <= |s|
    ensures s == s[..i] + s[i..]
  {
  }

  lemma DropTwice<T>(s: seq<T>, i: nat, j: nat)
    requires i <= j <= |s|
    ensures s[i..][..j - i] == s[i..j] && s[i..][j - i..] == s[j..]
  {
  }

  lemma SameJoin(xs: seq<string>, ys: seq<string>, i: nat, j: nat)
    requires i < j < |xs| == |ys| && xs[..i] == ys[..i] && xs[j..] == ys[j..]
    requires Join(xs[i..j], "|") == Join(ys[i..j], "|")
    ensures Join(xs, "|") == Join(ys, "|")
  {
    JoinAt(xs, i, j);
    JoinAt(ys, i, j);
    assert i == 0 ==> xs[i..] == xs && ys[i..] == ys;
  }

  lemma JoinTwo(a: string, b: string)
    ensures Join([a, b], "|") == a + "|" + b
  {
    assert [a, b][1..] == [b];
  }

  lemma SliceTwo(s: seq<string>, i: nat)
    requires i + 2 <= |s|
    ensures s[i..i + 2] == [s[i], s[i + 1]]
  {
  }

  lemma SliceFour(s: seq<string>, i: nat)
    requires i + 4 <= |s|
    ensures s[i..i + 4] == [s[i], s[i + 1], s[i + 2], s[i + 3]]
  {
  }

  lemma JoinFour(a: string, b: string, c: string, d: string)
    ensures Join([a, b, c, d], "|") == a + "|" + (b + "|" + (c + "|" + d))
  {
    JoinTwo(c, d);
    assert [a, b, c, d][1..] == [b, c, d] && [b, c, d][1..] == [c, d];
  }

  /** A text with a separator at k, as the two fields it could be. */
  lemma CutAt(s: string, k: nat)
    requires k < |s| && s[k] == '|'
    ensures s == s[..k] + "|" + s[k + 1..]
  {
  }

  lemma SameAddresses(a: Instance, prefer: string, fronting: string)
    requires prefer + "|" + fronting == a.preferIP + "|" + a.frontingIP
    ensures Fingerprint(a.(preferIP := prefer, frontingIP := fronting)) == Fingerprint(a)
  {
    var xs, ys := Fields(TuningOf(a)), Fields(TuningOf(a.(preferIP := prefer, frontingIP := fronting)));
    SliceTwo(xs, 4);
    SliceTwo(ys, 4);
    JoinTwo(a.preferIP, a.frontingIP);
    JoinTwo(prefer, fronting);
    SameJoin(xs, ys, 4, 6);
  }

  lemma MoveAddressBar(a: Instance) returns (b: Instance)
    requires Usable(a) && (!Free(a.preferIP, '|') || !Free(a.frontingIP, '|'))
    ensures Rival(a, b)
  {
    var p, f, prefer, fronting := a.preferIP, a.frontingIP, "", "";
    if !Free(p, '|') {
      var k :| 0 <= k < |p| && p[k] == '|';
      CutAt(p, k);
      Nest(p[..k], p[k + 1..], f);
      prefer, fronting := p[..k], p[k + 1..] + "|" + f;
    } else {
      var k :| 0 <= k < |f| && f[k] == '|';
      CutAt(f, k);
      Nest(p, f[..k], f[k + 1..]);
      prefer, fronting := p + "|" + f[..k], f[k + 1..];
    }
    SameAddresses(a, prefer, fronting);
    b := a.(preferIP := prefer, frontingIP := fronting);
    assert |b.preferIP| != |p|;
  }

  /** An instance with these first two fields and everything else as in a. */
  lemma Rebound(a: Instance, t: string, secret: string) returns (b: Instance)
    requires IsBindTo(t) && t + "|" + secret == BindTo(a) + "|" + a.secret && |t| != |BindTo(a)| && secret != ""
    ensures Rival(a, b)
  {
    var listen, port :| listen != "" && IsPort(port) && t == Bound(listen, port);
    assert |t + "|" + secret| == |BindTo(a) + "|" + a.secret|;
    b := a.(listen := listen, port := port, secret := secret);
    assert BindTo(b) == t;
    var xs, ys := Fields(TuningOf(a)), Fields(TuningOf(b));
    SliceTwo(xs, 0);
    SliceTwo(ys, 0);
    JoinTwo(BindTo(a), a.secret);
    JoinTwo(t, secret);
    SameJoin(xs, ys, 0, 2);
  }

  lemma MoveListenBar(a: Instance, k: nat) returns (b: Instance)
    requires k < |a.listen| && a.listen[k] == '|' && IsBindTo(a.listen[..k])
    ensures Rival(a, b)
  {
    var own, t := BindTo(a), a.listen[..k];
    assert own[k] == '|' && own[..k] == t;
    CutAt(own, k);
    Nest(t, own[k + 1..], a.secret);
    b := Rebound(a, t, own[k + 1..] + "|" + a.secret);
  }

  lemma MoveSecretBar(a: Instance, k: nat) returns (b: Instance)
    requires k < |a.secret| && a.secret[k] == '|' && EndsAddress(a, k)
    ensures Rival(a, b)
  {
    CutAt(a.secret, k);
    Nest(BindTo(a), a.secret[..k], a.secret[k + 1..]);
    b := Rebound(a, BindTo(a) + "|" + a.secret[..k], a.secret[k + 1..]);
  }

  /** The same four fields from secret to preferIP, cut at the flags behind bar k. */
  lemma FlagsMoved(a: Instance, k: nat, x: bool, y: bool, rest: string)
    requires k < |a.secret| && a.secret[k] == '|' && FlagsThen(SecretAndDebug(a)[k + 1..], x, y, rest)
    ensures var q := FormatBool(a.proxyProtocolListener) + "|" + a.preferIP;
            var prefer := if rest == "" then q else rest[1..] + "|" + q;
            a.secret[..k] + "|" + (FormatBool(x) + "|" + (FormatBool(y) + "|" + prefer)) == SecretAndDebug(a) + "|" + q
  {
    LeftOver(FormatBool(y), rest, FormatBool(a.proxyProtocolListener) + "|" + a.preferIP);
    var q, t := FormatBool(a.proxyProtocolListener) + "|" + a.preferIP, SecretAndDebug(a);
    var u, f, g := a.secret[..k], FormatBool(x), FormatBool(y);
    assert t[k] == '|' && t[..k] == u;
    CutAt(t, k);
    Reassociate(f + "|", g, rest);
    Nest(f, g + rest, q);
    Nest(u, f + "|" + (g + rest), q);
  }

  lemma OtherFieldsStay(a: Instance, u: string, x: bool, y: bool, prefer: string)
    ensures var b := a.(secret := u, debug := x, proxyProtocolListener := y, preferIP := prefer);
            var xs, ys := Fields(TuningOf(a)), Fields(TuningOf(b));
            && xs[..1] == ys[..1] && xs[5..] == ys[5..]
            && ys[1] == u && ys[2] == FormatBool(x) && ys[3] == FormatBool(y) && ys[4] == prefer
  {
  }

  lemma MovedFingerprint(a: Instance, u: string, x: bool, y: bool, prefer: string)
    requires u + "|" + (FormatBool(x) + "|" + (FormatBool(y) + "|" + prefer))
          == SecretAndDebug(a) + "|" + (FormatBool(a.proxyProtocolListener) + "|" + a.preferIP)
    ensures Fingerprint(a.(secret := u, debug := x, proxyProtocolListener := y, preferIP := prefer)) == Fingerprint(a)
  {
    Nest(a.secret, FormatBool(a.debug), FormatBool(a.proxyProtocolListener) + "|" + a.preferIP);
    OtherFieldsStay(a, u, x, y, prefer);
    var b := a.(secret := u, debug := x, proxyProtocolListener := y, preferIP := prefer);
    SameFour(Fields(TuningOf(a)), Fields(TuningOf(b)));
  }

  lemma MoveFlags(a: Instance, k: nat) returns (b: Instance)
    requires Usable(a) && k < |a.secret| && a.secret[k] == '|' && BeforeFlags(a, k)
    ensures Rival(a, b)
  {
    var x, y, rest :| FlagsThen(SecretAndDebug(a)[k + 1..], x, y, rest);
    FlagsMoved(a, k, x, y, rest);
    var q := FormatBool(a.proxyProtocolListener) + "|" + a.preferIP;
    var prefer := if rest == "" then q else rest[1..] + "|" + q;
    MovedFingerprint(a, a.secret[..k], x, y, prefer);
    b := a.(secret := a.secret[..k], debug := x, proxyProtocolListener := y, preferIP := prefer);
    assert |b.secret| == k;
  }

  lemma SameFour(xs: seq<string>, ys: seq<string>)
    requires |xs| == |ys| == 10 && xs[..1] == ys[..1] && xs[5..] == ys[5..]
    requires xs[1] + "|" + (xs[2] + "|" + (xs[3] + "|" + xs[4])) == ys[1] + "|" + (ys[2] + "|" + (ys[3] + "|" + ys[4]))
    ensures Join(xs, "|") == Join(ys, "|")
  {
    SliceFour(xs, 1);
    SliceFour(ys, 1);
    JoinFour(xs[1], xs[2], xs[3], xs[4]);
    JoinFour(ys[1], ys[2], ys[3], ys[4]);
    SameJoin(xs, ys, 1, 5);
  }

  lemma LeftOver(g: string, rest: string, q: string)
    requires rest == "" || rest[0] == '|'
    ensures g + "|" + (if rest == "" then q else rest[1..] + "|" + q) == g + rest + "|" + q
  {
    if rest == "" {
      assert g + rest == g;
    } else {
      assert rest == "|" + rest[1..];
      Reassociate(g, "|", rest[1..]);
      Nest(g, rest[1..], q);
    }
  }

  lemma OtherReading(a: Instance) returns (b: Instance)
    requires Usable(a) && !Unambiguous(a)
    ensures Rival(a, b)
  {
    if !Free(a.preferIP, '|') || !Free(a.frontingIP, '|') {
      b := MoveAddressBar(a);
    } else if k :| 0 <= k < |a.listen| && a.listen[k] == '|' && IsBindTo(a.listen[..k]) {
      b := MoveListenBar(a, k);
    } else {
      var k :| 0 <= k < |a.secret| && a.secret[k] == '|' && (EndsAddress(a, k) || BeforeFlags(a, k));
      if EndsAddress(a, k) {
        b := MoveSecretBar(a, k);
      } else {
        b := MoveFlags(a, k);
      }
    }
  }

  /** What the %q verb promises: texts can be told apart, and stay on their line. */
  ghost predicate IsQuote(quote: string -> string) {
    forall s, t :: Free(quote(s), '\n') && (quote(s) == quote(t) ==> s == t)
  }

  lemma SecretShows(quote: string -> string, x: Tuning, y: Tuning, metricsPort: int)
    requires IsQuote(quote) && x.secret != y.secret
    ensures Render(quote, x, metricsPort) != Render(quote, y, metricsPort)
  {
    LabelledLines("secret = ", quote(x.secret), quote(y.secret),
                  MiddleLines(quote, x) + FromPrefer(quote, x, metricsPort),
                  MiddleLines(quote, y) + FromPrefer(quote, y, metricsPort));
  }

  lemma LabelledLines(key: string, s: string, t: string, more: string, rest: string)
    requires Free(key, '\n') && Free(s, '\n') && Free(t, '\n') && s != t
    ensures key + s + "\n" + more != key + t + "\n" + rest
  {
    if key + s + "\n" + more == key + t + "\n" + rest {
      CutUnique(key + s, key + t, more, rest, '\n');
      Cancel(key, key, s, t);
    }
  }

  lemma PreferShows(quote: string -> string, x: Tuning, y: Tuning, metricsPort: int)
    requires IsQuote(quote) && x.preferIP != y.preferIP
    ensures FromPrefer(quote, x, metricsPort) != FromPrefer(quote, y, metricsPort)
  {
    var s, t := Sections(quote, x, metricsPort), Sections(quote, y, metricsPort);
    if x.preferIP == "" {
      assert FromPrefer(quote, x, metricsPort)[0] == '\n' && FromPrefer(quote, y, metricsPort)[0] == 'p';
    } else if y.preferIP == "" {
      assert FromPrefer(quote, y, metricsPort)[0] == '\n' && FromPrefer(quote, x, metricsPort)[0] == 'p';
    } else {
      LabelledLines("prefer-ip = ", quote(x.preferIP), quote(y.preferIP), s, t);
    }
  }

  /** A rival is configured differently. */
  lemma RivalShows(quote: string -> string, a: Instance, b: Instance, metricsPort: int)
    requires IsQuote(quote) && Rival(a, b)
    ensures RenderConfig(quote, b, metricsPort) != RenderConfig(quote, a, metricsPort)
  {
    var x, y := TuningOf(a), TuningOf(b);
    if b.secret != a.secret {
      SecretShows(quote, y, x, metricsPort);
    } else {
      PreferShows(quote, x, y, metricsPort);
      SameBeginning(SecretLine(quote, x) + "\n", MiddleLines(quote, x),
                    FromPrefer(quote, x, metricsPort), FromPrefer(quote, y, metricsPort));
    }
  }

  lemma SameBeginning(p: string, q: string, s: string, t: string)
    requires s != t
    ensures p + (q + s) != p + (q + t)
  {
    if p + (q + s) == p + (q + t) {
      Cancel(p, p, q + s, q + t);
      Cancel(q, q, s, t);
    }
  }

  /** Among the instances that inbounds give, a fingerprint stands for one rendered
      configuration exactly when the instance is unambiguous. Then a running process is
      taken for the desired one only when both give mtg the same configuration; otherwise
      there is an instance that is taken for it and is not. */
  lemma FingerprintDecidesIff(quote: string -> string, a: Instance, metricsPort: int)
    requires IsQuote(quote) && Usable(a)
    ensures
      (forall b :: Usable(b) && Fingerprint(b) == Fingerprint(a) ==>
         RenderConfig(quote, b, metricsPort) == RenderConfig(quote, a, metricsPort))
      <==> Unambiguous(a)
  {
    if Unambiguous(a) {
      forall b | Usable(b) && Fingerprint(b) == Fingerprint(a)
        ensures RenderConfig(quote, b, metricsPort) == RenderConfig(quote, a, metricsPort)
      {
        UniqueReading(a, b);
      }
    } else {
      var b := OtherReading(a);
      RivalShows(quote, a, b, metricsPort);
    }
  }

  /** The same for the values the configuration is made from. */
  lemma FingerprintDecidesTuningIff(a: Instance)
    requires Usable(a)
    ensures (forall b :: Usable(b) && Fingerprint(b) == Fingerprint(a) ==> TuningOf(b) == TuningOf(a))
       <==> Unambiguous(a)
  {
    if Unambiguous(a) {
      forall b | Usable(b) && Fingerprint(b) == Fingerprint(a) ensures TuningOf(b) == TuningOf(a) {
        UniqueReading(a, b);
      }
    } else {
      var b := OtherReading(a);
      assert TuningOf(b).secret != a.secret || TuningOf(b).preferIP != a.preferIP;
    }
  }

  lemma FingerprintDecidesConfig(quote: string -> string, a: Instance, b: Instance, metricsPort: int)
    requires Unambiguous(a) && Usable(b)
    ensures Fingerprint(a) == Fingerprint(b) <==> TuningOf(a) == TuningOf(b)
    ensures Fingerprint(a) == Fingerprint(b) ==>
      RenderConfig(quote, a, metricsPort) == RenderConfig(quote, b, metricsPort)
  {
    if Fingerprint(a) == Fingerprint(b) {
      UniqueReading(a, b);
    }
  }

  const HIDDEN := Instance(1, "t", "", 1, "s", false, false, "", "|", 0, false, false, 0)
  const SHOWN := HIDDEN.(preferIP := "|", frontingIP := "")

  /** With a separator inside a field the fingerprint can hide a change: these two
      instances share a fingerprint, yet only the second sets prefer-ip. */
  lemma BarHidesAChange(quote: string -> string, metricsPort: int)
    ensures Fingerprint(HIDDEN) == Fingerprint(SHOWN)
    ensures RenderConfig(quote, HIDDEN, metricsPort) != RenderConfig(quote, SHOWN, metricsPort)
  {
    assert "|" + "|" + "" == "" + "|" + "|";
    SameAddresses(HIDDEN, "|", "");
    RenderLengths(quote, metricsPort);
  }

  lemma RenderLengths(quote: string -> string, metricsPort: int)
    ensures |RenderConfig(quote, HIDDEN, metricsPort)| == |RenderConfig(quote, SHOWN, metricsPort)| + 12
  {
    assert BindTo(HIDDEN) == BindTo(SHOWN);
  }
}
