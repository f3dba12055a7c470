/** The endpoint loop of the JSON subscription (internal/sub/json_service.go, service.go,
    host_sub.go). All endpoints of an inbound are rendered from one stream settings map,
    whose nested maps are shared unless they are copied. */
module JsonEndpoints {
  import opened Text
  import opened Values
  import opened FinalMask

  // Go maps are references, so the maps that rendering writes to are objects here.
  // The nested maps that may be written have a field of their own; null is an absent one.

  class SettingsMap {
    var fields: Fields

    constructor (fields: Fields)
      ensures this.fields == fields
    {
      this.fields := fields;
    }
  }

  class RealitySettings {
    var fields: Fields

    constructor (fields: Fields)
      ensures this.fields == fields
    {
      this.fields := fields;
    }
  }

  class TlsSettings {
    var fields: Fields
    var settings: SettingsMap?

    constructor (fields: Fields, settings: SettingsMap?)
      ensures this.fields == fields && this.settings == settings
    {
      this.fields := fields;
      this.settings := settings;
    }
  }

  class Stream {
    var fields: Fields
    var tls: TlsSettings?
    var reality: RealitySettings?

    constructor (fields: Fields, tls: TlsSettings?, reality: RealitySettings?)
      ensures this.fields == fields && this.tls == tls && this.reality == reality
    {
      this.fields := fields;
      this.tls := tls;
      this.reality := reality;
    }
  }

  // What is printed of them.

  datatype TlsView = TlsView(fields: Fields, settings: Option<Fields>)

  datatype StreamView = StreamView(fields: Fields, tls: Option<TlsView>, reality: Option<Fields>)

  function SettingsOf(m: SettingsMap?): Option<Fields>
    reads m
  {
    if m == null then None else Some(m.fields)
  }

  function TlsOf(t: TlsSettings?): Option<TlsView>
    reads t, if t == null then {} else {t.settings}
  {
    if t == null then None else Some(TlsView(t.fields, SettingsOf(t.settings)))
  }

  function RealityOf(r: RealitySettings?): Option<Fields>
    reads r
  {
    if r == null then None else Some(r.fields)
  }

  function ViewOf(s: Stream): StreamView
    reads s, s.tls, s.reality, if s.tls == null then {} else {s.tls.settings}
  {
    StreamView(s.fields, TlsOf(s.tls), RealityOf(s.reality))
  }

  /** An external proxy or host entry; an empty field is an absent one. */
  datatype Endpoint = Endpoint(
    forceTls: string, isHost: bool, sni: string, fingerprint: string, alpn: seq<Value>, pins: seq<Value>,
    ech: string, vcn: string, allowInsecure: bool, sockopt: Fields, finalMask: Fields)

  function Security(fields: Fields): string {
    if "security" in fields && fields["security"].Str? then fields["security"].s else ""
  }

  // ------------------------------------------- what one endpoint does to the stream

  function Forced(ep: Endpoint, v: StreamView): StreamView {
    if ep.forceTls == "tls" && Security(v.fields) != "tls" then
      v.(fields := v.fields["security" := Str("tls")], tls := Some(TlsView(map[], None)))
    else if ep.forceTls == "none" && Security(v.fields) != "none" then
      v.(fields := v.fields["security" := Str("none")], tls := None)
    else v
  }

  function PutIf(fields: Fields, present: bool, key: string, value: Value): Fields {
    if present then fields[key := value] else fields
  }

  /** The same for a map that may be missing and is then made. */
  function AddIf(o: Option<Fields>, present: bool, key: string, value: Value): Option<Fields> {
    if present then Some((if o.Some? then o.value else map[])[key := value]) else o
  }

  /** The TLS map with the entry's own values. */
  function WithOwnFields(ep: Endpoint, f: Fields): Fields {
    var f := PutIf(f, ep.sni != "", "serverName", Str(ep.sni));
    var f := PutIf(f, ep.fingerprint != "", "fingerprint", Str(ep.fingerprint));
    PutIf(f, ep.alpn != [], "alpn", Arr(ep.alpn))
  }

  /** Its settings map with the entry's own values. */
  function WithOwnSettings(ep: Endpoint, o: Option<Fields>): Option<Fields> {
    var o := AddIf(o, ep.fingerprint != "", "fingerprint", Str(ep.fingerprint));
    var o := AddIf(o, ep.pins != [], "pinnedPeerCertSha256", Arr(ep.pins));
    var o := AddIf(o, ep.ech != "", "echConfigList", Str(ep.ech));
    var o := AddIf(o, ep.vcn != "", "verifyPeerCertByName", Str(ep.vcn));
    AddIf(o, ep.allowInsecure, "allowInsecure", Bool(true))
  }

  function WithOwnTls(ep: Endpoint, tls: Option<TlsView>): TlsView {
    var t := if tls.Some? then tls.value else TlsView(map[], None);
    TlsView(WithOwnFields(ep, t.fields), WithOwnSettings(ep, t.settings))
  }

  /** A host's free-form additions besides the reality name. */
  function WithOwnStream(ep: Endpoint, fields: Fields): Fields {
    var f := if ep.sockopt != map[] then fields["sockopt" := Obj(ep.sockopt)] else fields;
    var merged := Merged(DictAt(f, "finalmask"), ep.finalMask);
    if ep.finalMask != map[] && merged != map[] then f["finalmask" := Obj(merged)] else f
  }

  function DictAt(fields: Fields, key: string): Fields {
    if key in fields && fields[key].Obj? then fields[key].members else map[]
  }

  function ForcedSecurity(ep: Endpoint, security: string): string {
    if ep.forceTls == "tls" || ep.forceTls == "none" then ep.forceTls else security
  }

  lemma ForcedHasSecurity(ep: Endpoint, v: StreamView)
    ensures Security(Forced(ep, v).fields) == ForcedSecurity(ep, Security(v.fields))
    ensures Forced(ep, v).reality == v.reality
  {
  }

  /** The entry is a host that names its own server for a reality inbound. */
  predicate NamesReality(ep: Endpoint, v: StreamView) {
    ep.isHost && ep.sni != "" && v.reality.Some? && ForcedSecurity(ep, Security(v.fields)) == "reality"
  }

  function Named(reality: Fields, sni: string): Fields {
    reality["serverName" := Str(sni)]["serverNames" := Arr([Str(sni)])]
  }

  function WithTls(ep: Endpoint, external: bool, v: StreamView): StreamView {
    if external && Security(v.fields) == "tls" then v.(tls := Some(WithOwnTls(ep, v.tls))) else v
  }

  function WithHost(ep: Endpoint, v: StreamView): StreamView {
    var names := ep.isHost && ep.sni != "" && v.reality.Some? && Security(v.fields) == "reality";
    StreamView(
      WithOwnStream(ep, v.fields), v.tls,
      if names then Some(Named(v.reality.value, ep.sni)) else v.reality)
  }

  /** The stream printed for one endpoint. */
  function Rendered(ep: Endpoint, external: bool, v: StreamView): StreamView {
    WithHost(ep, WithTls(ep, external, Forced(ep, v)))
  }

  // ---------------------------------------------------------------- the code

  /** cloneStreamForExternalProxy: a shallow copy, except for the TLS maps. */
  method CloneStreamForExternalProxy(s: Stream) returns (out: Stream)
    ensures fresh(out) && ViewOf(out) == ViewOf(s)
    ensures out.tls != null ==> fresh(out.tls)
    ensures out.tls != null && out.tls.settings != null ==> fresh(out.tls.settings)
    ensures out.reality == s.reality
  {
    out := new Stream(s.fields, s.tls, s.reality);
    if s.tls == null {
      return;
    }
    var tls := new TlsSettings(s.tls.fields, s.tls.settings);
    if tls.settings != null {
      var inner := new SettingsMap(tls.settings.fields);
      tls.settings := inner;
    }
    out.tls := tls;
  }

  /** The security override of one endpoint. */
  method ForceSecurity(ep: Endpoint, stream: Stream)
    modifies stream`fields, stream`tls
    ensures ViewOf(stream) == Forced(ep, old(ViewOf(stream)))
    ensures stream.tls != null && stream.tls != old(stream.tls) ==> fresh(stream.tls) && stream.tls.settings == null
  {
    if ep.forceTls == "tls" {
      if Security(stream.fields) != "tls" {
        stream.fields := stream.fields["security" := Str("tls")];
        var made := new TlsSettings(map[], null);
        stream.tls := made;
      }
    } else if ep.forceTls == "none" {
      if Security(stream.fields) != "none" {
        stream.fields := stream.fields["security" := Str("none")];
        stream.tls := null;
      }
    }
  }

  /** One more entry for the settings map of the TLS map, which is made when missing. */
  method AddSettingIf(present: bool, tls: TlsSettings, key: string, value: Value)
    modifies tls`settings, tls.settings
    ensures SettingsOf(tls.settings) == AddIf(old(SettingsOf(tls.settings)), present, key, value)
    ensures tls.settings == old(tls.settings) || fresh(tls.settings)
  {
    if present {
      if tls.settings == null {
        var settings := new SettingsMap(map[]);
        tls.settings := settings;
      }
      tls.settings.fields := tls.settings.fields[key := value];
    }
  }

  method AddOwnSettings(ep: Endpoint, tls: TlsSettings)
    modifies tls`settings, tls.settings
    ensures SettingsOf(tls.settings) == WithOwnSettings(ep, old(SettingsOf(tls.settings)))
    ensures tls.settings == old(tls.settings) || fresh(tls.settings)
  {
    AddSettingIf(ep.fingerprint != "", tls, "fingerprint", Str(ep.fingerprint));
    AddSettingIf(ep.pins != [], tls, "pinnedPeerCertSha256", Arr(ep.pins));
    AddSettingIf(ep.ech != "", tls, "echConfigList", Str(ep.ech));
    AddSettingIf(ep.vcn != "", tls, "verifyPeerCertByName", Str(ep.vcn));
    AddSettingIf(ep.allowInsecure, tls, "allowInsecure", Bool(true));
  }

  method PutOwnFields(ep: Endpoint, tls: TlsSettings)
    modifies tls`fields
    ensures tls.fields == WithOwnFields(ep, old(tls.fields))
  {
    if ep.sni != "" {
      tls.fields := tls.fields["serverName" := Str(ep.sni)];
    }
    if ep.fingerprint != "" {
      tls.fields := tls.fields["fingerprint" := Str(ep.fingerprint)];
    }
    if ep.alpn != [] {
      tls.fields := tls.fields["alpn" := Arr(ep.alpn)];
    }
  }

  /** applyExternalProxyTLSToStream. */
  method ApplyExternalProxyTLSToStream(ep: Endpoint, stream: Stream, security: string)
    modifies stream`tls, stream.tls, if stream.tls == null then {} else {stream.tls.settings}
    ensures TlsOf(stream.tls)
         == if security == "tls" then Some(WithOwnTls(ep, old(TlsOf(stream.tls)))) else old(TlsOf(stream.tls))
  {
    if security != "tls" {
      return;
    }
    if stream.tls == null {
      var made := new TlsSettings(map[], null);
      stream.tls := made;
    }
    PutOwnFields(ep, stream.tls);
    AddOwnSettings(ep, stream.tls);
  }

  method ApplyTls(ep: Endpoint, external: bool, stream: Stream)
    modifies stream`tls, stream.tls, if stream.tls == null then {} else {stream.tls.settings}
    ensures ViewOf(stream) == WithTls(ep, external, old(ViewOf(stream)))
  {
    if external {
      ApplyExternalProxyTLSToStream(ep, stream, Security(stream.fields));
    }
  }

  lemma OwnStreamKeepsSecurity(ep: Endpoint, fields: Fields)
    ensures Security(WithOwnStream(ep, fields)) == Security(fields)
  {
  }

  /** The additions of applyHostStreamOverrides to the stream map itself. */
  method AddOwnStream(ep: Endpoint, stream: Stream)
    modifies stream`fields
    ensures stream.fields == WithOwnStream(ep, old(stream.fields))
  {
    if ep.sockopt != map[] {
      stream.fields := stream.fields["sockopt" := Obj(ep.sockopt)];
    }
    if ep.finalMask != map[] {
      var merged := MergeFinalMask(DictAt(stream.fields, "finalmask"), ep.finalMask);
      if merged != map[] {
        stream.fields := stream.fields["finalmask" := Obj(merged)];
      }
    }
  }

  /** applyHostStreamOverrides. */
  method ApplyHostStreamOverrides(ep: Endpoint, stream: Stream)
    modifies stream`fields, stream.reality
    ensures ViewOf(stream) == WithHost(ep, old(ViewOf(stream)))
  {
    OwnStreamKeepsSecurity(ep, stream.fields);
    AddOwnStream(ep, stream);
    if ep.isHost && Security(stream.fields) == "reality" && stream.reality != null && ep.sni != "" {
      stream.reality.fields := Named(stream.reality.fields, ep.sni);
    }
  }

  /** One turn of the loop: the endpoint's stream is printed before the next turn. */
  method RenderEndpoint(ep: Endpoint, external: bool, stream: Stream) returns (out: StreamView)
    modifies stream.reality
    ensures out == Rendered(ep, external, old(ViewOf(stream)))
    ensures RealityOf(stream.reality) == out.reality
  {
    var newStream := CloneStreamForExternalProxy(stream);
    ForceSecurity(ep, newStream);
    ApplyTls(ep, external, newStream);
    ApplyHostStreamOverrides(ep, newStream);
    out := ViewOf(newStream);
    assert newStream.reality == stream.reality;
  }

  /** The stream as the loop finds it after some turns. */
  ghost predicate Reached(stream: Stream, base: StreamView, eps: seq<Endpoint>, i: nat)
    requires i <= |eps|
    reads stream, stream.tls, stream.reality, if stream.tls == null then {} else {stream.tls.settings}
  {
    ViewOf(stream) == base.(reality := RealityAfter(base, eps[..i]))
  }

  method RenderTurn(eps: seq<Endpoint>, i: nat, external: bool, stream: Stream, ghost base: StreamView)
    returns (out: StreamView)
    requires i < |eps| && Reached(stream, base, eps, i)
    modifies stream.reality
    ensures out == Output(base, external, eps, i)
    ensures Reached(stream, base, eps, i + 1)
  {
    out := RenderEndpoint(eps[i], external, stream);
    RealityStep(base, external, eps, i);
  }

  /** The endpoint loop of getConfig. */
  method RenderEndpoints(eps: seq<Endpoint>, external: bool, stream: Stream) returns (outs: seq<StreamView>)
    modifies stream.reality
    ensures outs == Outputs(old(ViewOf(stream)), external, eps)
  {
    ghost var base := ViewOf(stream);
    assert eps[..0] == [];
    ghost var all := Outputs(base, external, eps);
    outs := [];
    var i := 0;
    while i < |eps|
      invariant i <= |eps| && outs == all[..i]
      invariant Reached(stream, base, eps, i)
    {
      outs, i := RenderNext(eps, i, external, stream, base, outs);
    }
  }

  method RenderNext(eps: seq<Endpoint>, i: nat, external: bool, stream: Stream, ghost base: StreamView,
                    outs: seq<StreamView>)
    returns (more: seq<StreamView>, next: nat)
    requires i < |eps| && Reached(stream, base, eps, i) && outs == Outputs(base, external, eps)[..i]
    modifies stream.reality
    ensures next == i + 1 && more == Outputs(base, external, eps)[..next] && Reached(stream, base, eps, next)
  {
    var out := RenderTurn(eps, i, external, stream, base);
    assert out == Outputs(base, external, eps)[i];
    more, next := outs + [out], i + 1;
  }

  lemma RealityStep(base: StreamView, external: bool, eps: seq<Endpoint>, i: nat)
    requires i < |eps|
    ensures RealityAfter(base, eps[..i + 1]) == Output(base, external, eps, i).reality
  {
    var v := base.(reality := RealityAfter(base, eps[..i]));
    assert eps[..i + 1][..i] == eps[..i];
    RealityRendered(eps[i], external, v);
  }

  // ------------------------------------------------------------------- isolation

  /** The reality map, which all clones share, after some turns of the loop. */
  function RealityAfter(base: StreamView, eps: seq<Endpoint>): (r: Option<Fields>)
    ensures r.Some? <==> base.reality.Some?
  {
    if eps == [] then base.reality
    else
      var n := |eps| - 1;
      var r := RealityAfter(base, eps[..n]);
      if NamesReality(eps[n], base) then Some(Named(r.value, eps[n].sni)) else r
  }

  function Output(base: StreamView, external: bool, eps: seq<Endpoint>, i: nat): StreamView
    requires i < |eps|
  {
    Rendered(eps[i], external, base.(reality := RealityAfter(base, eps[..i])))
  }

  function Outputs(base: StreamView, external: bool, eps: seq<Endpoint>): (r: seq<StreamView>)
    ensures |r| == |eps|
  {
    seq(|eps|, i requires 0 <= i < |eps| => Output(base, external, eps, i))
  }

  /** TLS, finalmask and everything else outside realitySettings depend on the base
      stream and the endpoint's own entry only. */
  lemma EndpointsIsolated(base: StreamView, external: bool, eps: seq<Endpoint>, i: nat)
    requires i < |eps|
    ensures Outputs(base, external, eps)[i].fields == Rendered(eps[i], external, base).fields
    ensures Outputs(base, external, eps)[i].tls == Rendered(eps[i], external, base).tls
  {
  }

  /** The server name of the last host so far that named one for reality. */
  function LastName(base: StreamView, eps: seq<Endpoint>): Option<string> {
    if eps == [] then None
    else
      var n := |eps| - 1;
      if NamesReality(eps[n], base) then Some(eps[n].sni) else LastName(base, eps[..n])
  }

  lemma NamedTwice(reality: Fields, first: string, second: string)
    ensures Named(Named(reality, first), second) == Named(reality, second)
  {
  }

  lemma {:induction false} RealityAfterIsLast(base: StreamView, eps: seq<Endpoint>)
    ensures LastName(base, eps).Some? ==> base.reality.Some?
    ensures RealityAfter(base, eps)
         == if LastName(base, eps).Some? then Some(Named(base.reality.value, LastName(base, eps).value))
            else base.reality
  {
    if eps != [] {
      var n := |eps| - 1;
      RealityAfterIsLast(base, eps[..n]);
      if NamesReality(eps[n], base) && LastName(base, eps[..n]).Some? {
        NamedTwice(base.reality.value, LastName(base, eps[..n]).value, eps[n].sni);
      }
    }
  }

  lemma RealityRendered(ep: Endpoint, external: bool, v: StreamView)
    ensures Rendered(ep, external, v).reality
         == if NamesReality(ep, v) then Some(Named(v.reality.value, ep.sni)) else v.reality
  {
    ForcedHasSecurity(ep, v);
  }

  /** An endpoint's reality settings are its own exactly when it names its server itself,
      no earlier host did, or the last one that did named the inbound's own. */
  lemma RealityLeaksUnless(base: StreamView, external: bool, eps: seq<Endpoint>, i: nat)
    requires i < |eps|
    ensures Outputs(base, external, eps)[i].reality == Rendered(eps[i], external, base).reality
       <==> NamesReality(eps[i], base)
            || LastName(base, eps[..i]).None?
            || (base.reality.Some? && Named(base.reality.value, LastName(base, eps[..i]).value) == base.reality.value)
  {
    var r := RealityAfter(base, eps[..i]);
    var v := base.(reality := r);
    RealityAfterIsLast(base, eps[..i]);
    RealityRendered(eps[i], external, base);
    RealityRendered(eps[i], external, v);
    if NamesReality(eps[i], base) && LastName(base, eps[..i]).Some? {
      NamedTwice(base.reality.value, LastName(base, eps[..i]).value, eps[i].sni);
    }
  }

  const OWN_REALITY: Fields := map["serverName" := Str("own")]
  const REALITY_STREAM := StreamView(map["security" := Str("reality")], None, Some(OWN_REALITY))
  const NAMING_HOST := Endpoint("same", true, "first", "", [], [], "", "", false, map[], map[])
  const SILENT_HOST := NAMING_HOST.(sni := "")

  /** Such a leak happens: the second of two hosts names no server and is printed with
      the first one's, where on its own it is printed with the inbound's. */
  lemma RealityLeaks()
    ensures Outputs(REALITY_STREAM, true, [NAMING_HOST, SILENT_HOST])[1].reality == Some(Named(OWN_REALITY, "first"))
    ensures Rendered(SILENT_HOST, true, REALITY_STREAM).reality == Some(OWN_REALITY)
    ensures Named(OWN_REALITY, "first") != OWN_REALITY
  {
    var eps := [NAMING_HOST, SILENT_HOST];
    assert eps[..1] == [NAMING_HOST] && [NAMING_HOST][..0] == [];
    RealityAfterIsLast(REALITY_STREAM, [NAMING_HOST]);
    RealityRendered(SILENT_HOST, true, REALITY_STREAM);
    RealityRendered(SILENT_HOST, true, REALITY_STREAM.(reality := Some(Named(OWN_REALITY, "first"))));
    assert Named(OWN_REALITY, "first")["serverName"] != OWN_REALITY["serverName"];
  }

  // ------------------------------------------------------- whose values are printed

  function Optional(present: bool, key: string, value: Value): Fields {
    if present then map[key := value] else map[]
  }

  /** The values an entry names, by the two maps they belong to. */
  function OwnFields(ep: Endpoint): Fields {
    Optional(ep.sni != "", "serverName", Str(ep.sni))
    + Optional(ep.fingerprint != "", "fingerprint", Str(ep.fingerprint))
    + Optional(ep.alpn != [], "alpn", Arr(ep.alpn))
  }

  function OwnSettings(ep: Endpoint): Fields {
    Optional(ep.fingerprint != "", "fingerprint", Str(ep.fingerprint))
    + Optional(ep.pins != [], "pinnedPeerCertSha256", Arr(ep.pins))
    + Optional(ep.ech != "", "echConfigList", Str(ep.ech))
    + Optional(ep.vcn != "", "verifyPeerCertByName", Str(ep.vcn))
    + Optional(ep.allowInsecure, "allowInsecure", Bool(true))
  }

  /** Laid over a map that may be missing; nothing to lay over makes no map. */
  function Overlay(o: Option<Fields>, own: Fields): Option<Fields> {
    if own == map[] then o else Some((if o.Some? then o.value else map[]) + own)
  }

  lemma OverlayMore(o: Option<Fields>, own: Fields, present: bool, key: string, value: Value)
    ensures AddIf(Overlay(o, own), present, key, value) == Overlay(o, own + Optional(present, key, value))
  {
    var base := if o.Some? then o.value else map[];
    if present {
      assert key in own + map[key := value];
      assert (base + own)[key := value] == base + (own + map[key := value]);
      assert own == map[] ==> base + own == base;
    } else {
      assert own + map[] == own;
    }
  }

  lemma TlsRendered(ep: Endpoint, external: bool, v: StreamView)
    ensures var tls := Forced(ep, v).tls;
      Rendered(ep, external, v).tls
        == if external && ForcedSecurity(ep, Security(v.fields)) == "tls" then Some(WithOwnTls(ep, tls)) else tls
  {
    ForcedHasSecurity(ep, v);
  }

  lemma ForcedTls(ep: Endpoint, v: StreamView)
    ensures Forced(ep, v).tls
         == if ep.forceTls == "none" && Security(v.fields) != "none" then None
            else if ep.forceTls == "tls" && Security(v.fields) != "tls" then Some(TlsView(map[], None))
            else v.tls
  {
  }

  lemma OwnTls(ep: Endpoint, tls: Option<TlsView>)
    ensures var t := if tls.Some? then tls.value else TlsView(map[], None);
      WithOwnTls(ep, tls) == TlsView(t.fields + OwnFields(ep), Overlay(t.settings, OwnSettings(ep)))
  {
    var t := if tls.Some? then tls.value else TlsView(map[], None);
    FieldsOverlaid(ep, t.fields);
    SettingsOverlaid(ep, t.settings);
  }

  /** The TLS map that is printed, in terms of the inbound's stream and the entry. An entry
      that turns TLS off prints none; one that turns it on over another security prints its
      own values alone; any other prints the inbound's with its own values laid over it,
      when the stream is TLS and the entries are external, and else just the inbound's. */
  lemma OwnValuesPrinted(ep: Endpoint, external: bool, v: StreamView)
    ensures var security, tls := Security(v.fields), Rendered(ep, external, v).tls;
      if ep.forceTls == "none" && security != "none" then tls == None
      else if ep.forceTls == "tls" && security != "tls" then
        tls == Some(if external then TlsView(OwnFields(ep), Overlay(None, OwnSettings(ep))) else TlsView(map[], None))
      else if external && security == "tls" then
        var inbound := if v.tls.Some? then v.tls.value else TlsView(map[], None);
        tls == Some(TlsView(inbound.fields + OwnFields(ep), Overlay(inbound.settings, OwnSettings(ep))))
      else tls == v.tls
  {
    TlsRendered(ep, external, v);
    ForcedTls(ep, v);
    OwnTls(ep, v.tls);
    OwnTls(ep, Some(TlsView(map[], None)));
    assert map[] + OwnFields(ep) == OwnFields(ep);
  }

  predicate SameAt(f: Fields, g: Fields, key: string) {
    (key in f <==> key in g) && (key in f && key in g ==> f[key] == g[key])
  }

  /** The rest of what is printed: the security asked for, the entry's sockopt and masks
      where it has some, and everything else as the inbound has it. */
  lemma OtherFieldsPrinted(ep: Endpoint, external: bool, v: StreamView)
    ensures var printed := Rendered(ep, external, v).fields;
      && (forall key :: key != "security" && key != "sockopt" && key != "finalmask" ==> SameAt(printed, v.fields, key))
      && (if ep.forceTls == "tls" || ep.forceTls == "none" then
            "security" in printed && printed["security"] == Str(ep.forceTls)
          else SameAt(printed, v.fields, "security"))
      && (if ep.sockopt != map[] then "sockopt" in printed && printed["sockopt"] == Obj(ep.sockopt)
          else SameAt(printed, v.fields, "sockopt"))
      && (var masks := Merged(DictAt(v.fields, "finalmask"), ep.finalMask);
          if ep.finalMask != map[] && masks != map[] then
            "finalmask" in printed && printed["finalmask"] == Obj(masks)
          else SameAt(printed, v.fields, "finalmask"))
  {
    ForcedFields(ep, v);
    OwnStreamFields(ep, Forced(ep, v).fields);
    assert Rendered(ep, external, v).fields == WithOwnStream(ep, Forced(ep, v).fields);
  }

  lemma ForcedFields(ep: Endpoint, v: StreamView)
    ensures var f := Forced(ep, v).fields;
      && (forall key :: key != "security" ==> SameAt(f, v.fields, key))
      && DictAt(f, "finalmask") == DictAt(v.fields, "finalmask")
      && (if ep.forceTls == "tls" || ep.forceTls == "none" then
            "security" in f && f["security"] == Str(ep.forceTls)
          else SameAt(f, v.fields, "security"))
  {
  }

  lemma OwnStreamFields(ep: Endpoint, f: Fields)
    ensures var g := WithOwnStream(ep, f);
      && (forall key :: key != "sockopt" && key != "finalmask" ==> SameAt(g, f, key))
      && (if ep.sockopt != map[] then "sockopt" in g && g["sockopt"] == Obj(ep.sockopt) else SameAt(g, f, "sockopt"))
      && (var masks := Merged(DictAt(f, "finalmask"), ep.finalMask);
          if ep.finalMask != map[] && masks != map[] then "finalmask" in g && g["finalmask"] == Obj(masks)
          else SameAt(g, f, "finalmask"))
  {
  }

  lemma FieldsOverlaid(ep: Endpoint, f: Fields)
    ensures WithOwnFields(ep, f) == f + OwnFields(ep)
  {
    var sni := Optional(ep.sni != "", "serverName", Str(ep.sni));
    var fp := Optional(ep.fingerprint != "", "fingerprint", Str(ep.fingerprint));
    assert map[] + sni == sni && f + map[] == f;
    PutMore(f, map[], ep.sni != "", "serverName", Str(ep.sni));
    PutMore(f, sni, ep.fingerprint != "", "fingerprint", Str(ep.fingerprint));
    PutMore(f, sni + fp, ep.alpn != [], "alpn", Arr(ep.alpn));
  }

  lemma PutMore(f: Fields, own: Fields, present: bool, key: string, value: Value)
    ensures PutIf(f + own, present, key, value) == f + (own + Optional(present, key, value))
  {
  }

  lemma SettingsOverlaid(ep: Endpoint, o: Option<Fields>)
    ensures WithOwnSettings(ep, o) == Overlay(o, OwnSettings(ep))
  {
    var fp := Optional(ep.fingerprint != "", "fingerprint", Str(ep.fingerprint));
    var pins := Optional(ep.pins != [], "pinnedPeerCertSha256", Arr(ep.pins));
    var ech := Optional(ep.ech != "", "echConfigList", Str(ep.ech));
    var vcn := Optional(ep.vcn != "", "verifyPeerCertByName", Str(ep.vcn));
    assert map[] + fp == fp;
    OverlayMore(o, map[], ep.fingerprint != "", "fingerprint", Str(ep.fingerprint));
    OverlayMore(o, fp, ep.pins != [], "pinnedPeerCertSha256", Arr(ep.pins));
    OverlayMore(o, fp + pins, ep.ech != "", "echConfigList", Str(ep.ech));
    OverlayMore(o, fp + pins + ech, ep.vcn != "", "verifyPeerCertByName", Str(ep.vcn));
    OverlayMore(o, fp + pins + ech + vcn, ep.allowInsecure, "allowInsecure", Bool(true));
  }
}
