/** Applying the computed operations to a running core (tryHotApply and RestartXray
    in internal/web/service/xray.go), and the agreement between the running core and
    the stored config snapshot over whole runs. */
module HotApply {
  import opened Text
  import opened Json
  import opened Values
  import opened HotDiffs

  /** What is really running: the sections the core was started with, the handlers it
      has now, and the text its rules and balancers were last taken from. */
  datatype Instance = Instance(
    log: string, dns: string, transport: string, policy: string, api: string, stats: string, reverse: string,
    fakeDns: string, observatory: string, burstObservatory: string, metrics: string, geodata: string,
    inbounds: seq<Handler>, outbounds: seq<Handler>, routingAtStart: string, routingApplied: string)

  // ---------------------------------------------------- the core's operations

  function Dropping(hs: seq<Handler>, tags: set<string>): seq<Handler> {
    if hs == [] then []
    else if hs[0].tag in tags then Dropping(hs[1..], tags)
    else [hs[0]] + Dropping(hs[1..], tags)
  }

  /** Removing a handler fails when no handler has the tag. */
  function RemoveHandler(hs: seq<Handler>, tag: string): Option<seq<Handler>> {
    if Find(hs, tag).None? then None else Some(Dropping(hs, {tag}))
  }

  /** Adding a handler fails when its tag is taken; otherwise it is appended. */
  function AddHandler(hs: seq<Handler>, h: Handler): Option<seq<Handler>> {
    if Find(hs, h.tag).Some? then None else Some(hs + [h])
  }

  function RemoveHandlers(hs: seq<Handler>, tags: seq<string>): Option<seq<Handler>>
    decreases |tags|
  {
    if tags == [] then Some(hs)
    else match RemoveHandler(hs, tags[0])
      case None => None
      case Some(rest) => RemoveHandlers(rest, tags[1..])
  }

  function AddHandlers(hs: seq<Handler>, added: seq<Handler>): Option<seq<Handler>>
    decreases |added|
  {
    if added == [] then Some(hs)
    else match AddHandler(hs, added[0])
      case None => None
      case Some(more) => AddHandlers(more, added[1..])
  }

  /** tryHotApply: removals first, then outbounds, inbounds and routing. None when
      an operation fails. */
  function Apply(inst: Instance, patch: Patch): Option<Instance> {
    var ins := RemoveHandlers(inst.inbounds, patch.removedInbounds);
    if ins.None? then None else
    var outs := RemoveHandlers(inst.outbounds, patch.removedOutbounds);
    if outs.None? then None else
    var outs' := AddHandlers(outs.value, patch.addedOutbounds);
    if outs'.None? then None else
    var ins' := AddHandlers(ins.value, patch.addedInbounds);
    if ins'.None? then None else
    Some(inst.(inbounds := ins'.value, outbounds := outs'.value,
               routingApplied := if patch.routing.Some? then patch.routing.value else inst.routingApplied))
  }

  /** The outbounds a core started with this text runs. */
  function Loaded(c: Codec, raw: string): seq<Handler> {
    var elems := Elements(c, raw);
    if elems.Some? then Entries(c, elems.value) else []
  }

  function Boot(c: Codec, cfg: Config): Instance {
    Instance(cfg.log, cfg.dns, cfg.transport, cfg.policy, cfg.api, cfg.stats, cfg.reverse, cfg.fakeDns,
             cfg.observatory, cfg.burstObservatory, cfg.metrics, cfg.geodata,
             cfg.inbounds, Loaded(c, cfg.outbounds), cfg.router, cfg.router)
  }

  // ---------------------------------------------------------------- agreement

  ghost predicate SameAt(c: Codec, a: Option<Handler>, b: Option<Handler>) {
    (a.None? <==> b.None?) && (a.Some? && b.Some? ==> Same(c, a.value, b.value))
  }

  /** The same tags, and under each tag handlers that say the same. */
  ghost predicate SameTable(c: Codec, a: seq<Handler>, b: seq<Handler>) {
    forall t :: SameAt(c, Find(a, t), Find(b, t))
  }

  /** What runs stands for what is wanted: verbatim, or handler by handler. */
  ghost predicate Agree(c: Codec, running: seq<Handler>, wanted: seq<Handler>) {
    running == wanted || (Usable(running) && Usable(wanted) && SameTable(c, running, wanted))
  }

  /** The restart-only part of a routing section: the text itself when it cannot be
      read as an object or null. */
  datatype Fixed = Unread(text: string) | Missing | Part(members: map<string, Value>)

  function FixedPart(c: Codec, raw: string): Fixed {
    if raw == [] then Unread(raw)
    else match c.decode(raw)
      case None => Unread(raw)
      case Some(v) =>
        if v.Null? then Missing
        else if v.Obj? then Part(v.members - {"rules", "balancers"})
        else Unread(raw)
  }

  /** The reloadable part of a routing section. */
  function ReloadablePart(c: Codec, raw: string): Fixed {
    if raw == [] then Unread(raw)
    else match c.decode(raw)
      case None => Unread(raw)
      case Some(v) =>
        if v.Null? then Missing
        else if v.Obj? then Part(map k | k in v.members && k in {"rules", "balancers"} :: v.members[k])
        else Unread(raw)
  }

  ghost predicate Agrees(c: Codec, inst: Instance, cfg: Config) {
    && SectionsAgree(c, inst, cfg)
    && Agree(c, inst.inbounds, cfg.inbounds)
    && Agree(c, inst.outbounds, Loaded(c, cfg.outbounds))
    && SameDefault(c, inst.outbounds, Loaded(c, cfg.outbounds))
    && RoutingAgrees(c, inst, cfg)
  }

  ghost predicate RoutingAgrees(c: Codec, inst: Instance, cfg: Config) {
    && FixedPart(c, inst.routingAtStart) == FixedPart(c, cfg.router)
    && ReloadablePart(c, inst.routingApplied) == ReloadablePart(c, cfg.router)
  }

  /** Every section that only a start can load says what the config says. */
  ghost predicate SectionsAgree(c: Codec, inst: Instance, cfg: Config) {
    && MeaningOf(c, inst.log) == MeaningOf(c, cfg.log)
    && MeaningOf(c, inst.dns) == MeaningOf(c, cfg.dns)
    && MeaningOf(c, inst.transport) == MeaningOf(c, cfg.transport)
    && MeaningOf(c, inst.policy) == MeaningOf(c, cfg.policy)
    && MeaningOf(c, inst.api) == MeaningOf(c, cfg.api)
    && MeaningOf(c, inst.stats) == MeaningOf(c, cfg.stats)
    && MeaningOf(c, inst.reverse) == MeaningOf(c, cfg.reverse)
    && MeaningOf(c, inst.fakeDns) == MeaningOf(c, cfg.fakeDns)
    && MeaningOf(c, inst.observatory) == MeaningOf(c, cfg.observatory)
    && MeaningOf(c, inst.burstObservatory) == MeaningOf(c, cfg.burstObservatory)
    && MeaningOf(c, inst.metrics) == MeaningOf(c, cfg.metrics)
    && MeaningOf(c, inst.geodata) == MeaningOf(c, cfg.geodata)
  }

  // -------------------------------------------- sameness is an equivalence

  /** Sameness of handlers is equality of what their sections mean. */
  function Sense(c: Codec, h: Handler): (string, int, string, seq<Meaning>) {
    if h.InboundConfig? then
      (h.tag, h.port, h.protocol,
       [MeaningOf(c, h.listen), MeaningOf(c, h.settings), MeaningOf(c, h.streamSettings), MeaningOf(c, h.sniffing)])
    else
      (h.tag, 0, "", [MeaningOf(c, h.raw)])
  }

  lemma SameIffSense(c: Codec, a: Handler, b: Handler)
    ensures Same(c, a, b) <==> a.InboundConfig? == b.InboundConfig? && Sense(c, a) == Sense(c, b)
  {
    if a.InboundConfig? && b.InboundConfig? {
      RawEqualIffSameMeaning(c, a.listen, b.listen);
      RawEqualIffSameMeaning(c, a.settings, b.settings);
      RawEqualIffSameMeaning(c, a.streamSettings, b.streamSettings);
      RawEqualIffSameMeaning(c, a.sniffing, b.sniffing);
      var x, y := Sense(c, a).3, Sense(c, b).3;
      assert x == y <==> x[0] == y[0] && x[1] == y[1] && x[2] == y[2] && x[3] == y[3];
    } else if a.Outbound? && b.Outbound? {
      RawEqualIffSameMeaning(c, a.raw, b.raw);
      var x, y := Sense(c, a).3, Sense(c, b).3;
      assert x == y <==> x[0] == y[0];
    }
  }

  lemma SameTransitive(c: Codec, x: Handler, y: Handler, z: Handler)
    requires Same(c, x, y) && Same(c, y, z)
    ensures Same(c, x, z) && Same(c, x, x) && Same(c, y, x)
  {
    SameIffSense(c, x, y);
    SameIffSense(c, y, z);
    SameIffSense(c, x, z);
  }

  lemma SameReflexive(c: Codec, x: Handler)
    ensures Same(c, x, x)
  {
    SameIffSense(c, x, x);
  }

  /** A re-emitted inbound says what the original says. */
  lemma WireKeepsMeaning(c: Codec, h: Handler)
    requires Faithful(c) && Emittable(c, h)
    ensures Same(c, Wire(c, h), h)
  {
    SameReflexive(c, h);
    if h.InboundConfig? {
      var ss := [h.listen, h.settings, h.streamSettings, h.sniffing];
      assert ss[0] in ss && ss[1] in ss && ss[2] in ss && ss[3] in ss;
      SectionKeepsMeaning(c, h.listen, "null");
      SectionKeepsMeaning(c, h.settings, "null");
      SectionKeepsMeaning(c, h.streamSettings, "");
      SectionKeepsMeaning(c, h.sniffing, "");
    }
  }

  lemma SectionKeepsMeaning(c: Codec, raw: string, blank: string)
    requires Faithful(c) && (blank == "" || blank == "null") && (raw == [] || c.valid(raw))
    ensures RawEqualNormalized(c, if raw == [] then blank else c.compact(raw), raw)
  {
    var sent := if raw == [] then blank else c.compact(raw);
    assert MeaningOf(c, sent) == MeaningOf(c, raw);
    RawEqualIffSameMeaning(c, sent, raw);
  }

  // ------------------------------------------------------ what a hot change is

  lemma StaticIffMeanings(c: Codec, xs: seq<string>, ys: seq<string>)
    requires |xs| == |ys| == 12
    ensures (forall i :: 0 <= i < 12 ==> RawEqualNormalized(c, xs[i], ys[i])) <==>
      && MeaningOf(c, xs[0]) == MeaningOf(c, ys[0]) && MeaningOf(c, xs[1]) == MeaningOf(c, ys[1])
      && MeaningOf(c, xs[2]) == MeaningOf(c, ys[2]) && MeaningOf(c, xs[3]) == MeaningOf(c, ys[3])
      && MeaningOf(c, xs[4]) == MeaningOf(c, ys[4]) && MeaningOf(c, xs[5]) == MeaningOf(c, ys[5])
      && MeaningOf(c, xs[6]) == MeaningOf(c, ys[6]) && MeaningOf(c, xs[7]) == MeaningOf(c, ys[7])
      && MeaningOf(c, xs[8]) == MeaningOf(c, ys[8]) && MeaningOf(c, xs[9]) == MeaningOf(c, ys[9])
      && MeaningOf(c, xs[10]) == MeaningOf(c, ys[10]) && MeaningOf(c, xs[11]) == MeaningOf(c, ys[11])
  {
    forall i | 0 <= i < 12
      ensures RawEqualNormalized(c, xs[i], ys[i]) <==> MeaningOf(c, xs[i]) == MeaningOf(c, ys[i])
    {
      RawEqualIffSameMeaning(c, xs[i], ys[i]);
    }
  }

  /** Two configs say the same in every section without a reload API. */
  ghost predicate SectionsSame(c: Codec, p: Config, n: Config) {
    && MeaningOf(c, p.log) == MeaningOf(c, n.log)
    && MeaningOf(c, p.dns) == MeaningOf(c, n.dns)
    && MeaningOf(c, p.transport) == MeaningOf(c, n.transport)
    && MeaningOf(c, p.policy) == MeaningOf(c, n.policy)
    && MeaningOf(c, p.api) == MeaningOf(c, n.api)
    && MeaningOf(c, p.stats) == MeaningOf(c, n.stats)
    && MeaningOf(c, p.reverse) == MeaningOf(c, n.reverse)
    && MeaningOf(c, p.fakeDns) == MeaningOf(c, n.fakeDns)
    && MeaningOf(c, p.observatory) == MeaningOf(c, n.observatory)
    && MeaningOf(c, p.burstObservatory) == MeaningOf(c, n.burstObservatory)
    && MeaningOf(c, p.metrics) == MeaningOf(c, n.metrics)
    && MeaningOf(c, p.geodata) == MeaningOf(c, n.geodata)
  }

  lemma SectionsAt(p: Config)
    ensures var xs := StaticSections(p);
      && xs[0] == p.log && xs[1] == p.dns && xs[2] == p.transport && xs[3] == p.policy && xs[4] == p.api
      && xs[5] == p.stats && xs[6] == p.reverse && xs[7] == p.fakeDns && xs[8] == p.observatory
      && xs[9] == p.burstObservatory && xs[10] == p.metrics && xs[11] == p.geodata
  {
  }

  lemma StaticIff(c: Codec, p: Config, n: Config)
    ensures StaticUnchanged(c, p, n) <==> SectionsSame(c, p, n)
  {
    SectionsAt(p);
    SectionsAt(n);
    StaticIffMeanings(c, StaticSections(p), StaticSections(n));
  }

  /** The API inbound is the one the api section names; "api" is never anything else. */
  predicate NamesApi(c: Codec, api: string, t: string) {
    t == "api" || (api != [] && c.tagOf(api) == Some(t))
  }

  /** What the API can do to the inbound under a tag: leave what it says, or put another
      one in its place or in a free place. It takes none away and never touches its own. */
  ghost predicate MayBecome(c: Codec, prev: seq<Handler>, next: seq<Handler>, api: string, t: string) {
    || SameAt(c, Find(prev, t), Find(next, t))
    || (Has(next, t) && !NamesApi(c, api, t) && SectionsValid(c, Find(next, t).value))
  }

  predicate SectionsValid(c: Codec, h: Handler) {
    h.InboundConfig? ==>
      && (h.listen == [] || c.valid(h.listen))
      && (h.settings == [] || c.valid(h.settings))
      && (h.streamSettings == [] || c.valid(h.streamSettings))
      && (h.sniffing == [] || c.valid(h.sniffing))
  }

  lemma EmittableIff(c: Codec, h: Handler)
    ensures Emittable(c, h) <==> SectionsValid(c, h)
  {
    if h.InboundConfig? {
      var ss := [h.listen, h.settings, h.streamSettings, h.sniffing];
      assert ss[0] in ss && ss[1] in ss && ss[2] in ss && ss[3] in ss;
    }
  }

  lemma OldInboundIff(c: Codec, prev: seq<Handler>, next: seq<Handler>, api: string, i: nat)
    requires Usable(prev) && Usable(next) && i < |prev|
    ensures OldInboundHot(c, prev[i], next, ApiTag(c, api)) <==> MayBecome(c, prev, next, api, prev[i].tag)
  {
    FindUsable(prev, i);
    if Has(next, prev[i].tag) {
      EmittableIff(c, Find(next, prev[i].tag).value);
    }
  }

  lemma NewInboundIff(c: Codec, prev: seq<Handler>, next: seq<Handler>, api: string, i: nat)
    requires Usable(prev) && Usable(next) && i < |next|
    ensures NewInboundHot(c, prev, next[i], ApiTag(c, api))
       <==> Has(prev, next[i].tag) || MayBecome(c, prev, next, api, next[i].tag)
  {
    FindUsable(next, i);
    EmittableIff(c, next[i]);
  }

  lemma EveryTagMayBecome(c: Codec, prev: seq<Handler>, next: seq<Handler>, api: string, t: string)
    requires InboundsHot(c, prev, next, ApiTag(c, api))
    ensures MayBecome(c, prev, next, api, t)
  {
    FindSound(prev, t);
    FindSound(next, t);
    if i :| 0 <= i < |prev| && prev[i].tag == t {
      OldInboundIff(c, prev, next, api, i);
    } else if i :| 0 <= i < |next| && next[i].tag == t {
      NewInboundIff(c, prev, next, api, i);
    }
  }

  /** All tags are there and different, and the API can do what happens under each. */
  ghost predicate InboundsMayBecome(c: Codec, prev: seq<Handler>, next: seq<Handler>, api: string) {
    && (forall i :: 0 <= i < |prev| ==> prev[i].tag != "")
    && (forall i :: 0 <= i < |next| ==> next[i].tag != "")
    && (forall i, j :: 0 <= i < j < |prev| ==> prev[i].tag != prev[j].tag)
    && (forall i, j :: 0 <= i < j < |next| ==> next[i].tag != next[j].tag)
    && forall t :: MayBecome(c, prev, next, api, t)
  }

  /** The loops over inbounds decide, tag by tag, whether the API can make the change. */
  lemma InboundsHotIff(c: Codec, prev: seq<Handler>, next: seq<Handler>, api: string)
    ensures InboundsHot(c, prev, next, ApiTag(c, api)) <==> InboundsMayBecome(c, prev, next, api)
  {
    if InboundsHot(c, prev, next, ApiTag(c, api)) {
      forall t ensures MayBecome(c, prev, next, api, t) {
        EveryTagMayBecome(c, prev, next, api, t);
      }
    } else if Usable(prev) && Usable(next) && forall t :: MayBecome(c, prev, next, api, t) {
      forall i | 0 <= i < |prev| ensures OldInboundHot(c, prev[i], next, ApiTag(c, api)) {
        OldInboundIff(c, prev, next, api, i);
      }
      forall i | 0 <= i < |next| ensures NewInboundHot(c, prev, next[i], ApiTag(c, api)) {
        NewInboundIff(c, prev, next, api, i);
      }
    }
  }

  /** Outbounds can be applied when both sections are arrays, every element is JSON with a
      tag of its own, and the first ones, which is where unrouted traffic goes, say the
      same. */
  ghost predicate OutboundsMayBecome(c: Codec, prev: string, next: string) {
    && Addressable(c, prev) && Addressable(c, next)
    && (Loaded(c, prev) == [] <==> Loaded(c, next) == [])
    && (Loaded(c, prev) != [] && Loaded(c, next) != [] ==>
          Loaded(c, prev)[0].tag == Loaded(c, next)[0].tag
          && MeaningOf(c, Loaded(c, prev)[0].raw) == MeaningOf(c, Loaded(c, next)[0].raw))
  }

  lemma OutboundsHotIff(c: Codec, prev: string, next: string)
    ensures OutboundsHot(c, prev, next) <==> OutboundsMayBecome(c, prev, next)
  {
    OutboundsSomeIff(c, prev);
    OutboundsSomeIff(c, next);
    if Outbounds(c, prev).Some? && Outbounds(c, next).Some? && Loaded(c, prev) != [] && Loaded(c, next) != [] {
      RawEqualIffSameMeaning(c, Loaded(c, prev)[0].raw, Loaded(c, next)[0].raw);
    }
  }

  predicate Addressable(c: Codec, raw: string) {
    raw == [] || (c.elements(raw).Some? && var elems := c.elements(raw).value;
      && (forall i :: 0 <= i < |elems| ==> HasTag(c, elems[i]))
      && forall i, j :: 0 <= i < j < |elems| ==> c.tagOf(elems[i]) != c.tagOf(elems[j]))
  }

  predicate HasTag(c: Codec, elem: string) {
    c.tagOf(elem).Some? && c.tagOf(elem) != Some("") && !MeaningOf(c, elem).Unreadable?
  }

  lemma OutboundsSomeIff(c: Codec, raw: string)
    ensures Outbounds(c, raw).Some? <==> Addressable(c, raw)
    ensures Outbounds(c, raw).Some? ==> Outbounds(c, raw).value == Loaded(c, raw)
  {
    var elems := Elements(c, raw);
    if elems.Some? {
      var hs := Entries(c, elems.value);
      forall i | 0 <= i < |hs| ensures EntryReadable(c, elems.value[i]) <==> HasTag(c, elems.value[i]) {
      }
      if forall i :: 0 <= i < |hs| ==> EntryReadable(c, elems.value[i]) {
        assert forall i :: 0 <= i < |hs| ==> c.tagOf(elems.value[i]) == Some(hs[i].tag);
      }
    }
  }

  /** A routing change can be applied when both sections are there and differ in the rules
      and balancers alone. */
  ghost predicate RoutingMayBecome(c: Codec, prev: string, next: string) {
    || prev == next
    || (prev != [] && next != [] && c.decode(prev).Some? && c.decode(next).Some?
        && SameButReloadable(c.decode(prev).value, c.decode(next).value))
  }

  lemma RoutingHotIff(c: Codec, prev: string, next: string)
    ensures RoutingHot(c, prev, next) <==> RoutingMayBecome(c, prev, next)
  {
    if prev != next && prev != [] && next != [] && c.decode(prev).Some? && c.decode(next).Some? {
      var v, w := c.decode(prev).value, c.decode(next).value;
      if (v.Null? || v.Obj?) && (w.Null? || w.Obj?) {
        FixedObject(v);
        FixedObject(w);
        var x: Tree := if v.Null? then Null else Obj(v.members - {"rules", "balancers"});
        var y: Tree := if w.Null? then Null else Obj(w.members - {"rules", "balancers"});
        CanonicalTextInjective(x, y);
        if v.Obj? && w.Obj? {
          SameMembersOutside(v.members, w.members);
        }
      }
    }
  }

  ghost predicate SameButReloadable(v: Value, w: Value) {
    || (v.Null? && w.Null?)
    || (v.Obj? && w.Obj? && forall k :: k != "rules" && k != "balancers" ==> SameMember(v.members, w.members, k))
  }

  predicate SameMember(m: Fields, n: Fields, k: string) {
    (k in m <==> k in n) && (k in m && k in n ==> m[k] == n[k])
  }

  lemma SameMembersOutside(m: Fields, n: Fields)
    ensures m - {"rules", "balancers"} == n - {"rules", "balancers"} <==>
      forall k :: k != "rules" && k != "balancers" ==> SameMember(m, n, k)
  {
    var x, y := m - {"rules", "balancers"}, n - {"rules", "balancers"};
    if x == y {
      forall k | k != "rules" && k != "balancers" ensures SameMember(m, n, k) {
        assert k in m <==> k in x;
        assert k in n <==> k in y;
      }
    }
    if forall k :: k != "rules" && k != "balancers" ==> SameMember(m, n, k) {
      forall k ensures (k in x <==> k in y) && (k in x && k in y ==> x[k] == y[k]) {
        assert k != "rules" && k != "balancers" ==> SameMember(m, n, k);
      }
      assert x == y;
    }
  }

  /** What ComputeHotDiff accepts, section by section, handler by handler and member by
      member. */
  lemma HotIff(c: Codec, p: Config, n: Config)
    ensures Hot(c, p, n) <==>
      && SectionsSame(c, p, n)
      && InboundsMayBecome(c, p.inbounds, n.inbounds, n.api)
      && OutboundsMayBecome(c, p.outbounds, n.outbounds)
      && RoutingMayBecome(c, p.router, n.router)
  {
    StaticIff(c, p, n);
    InboundsHotIff(c, p.inbounds, n.inbounds, n.api);
    OutboundsHotIff(c, p.outbounds, n.outbounds);
    RoutingHotIff(c, p.router, n.router);
  }

  // --------------------------------------------------------- lists of handlers

  ghost predicate Has(hs: seq<Handler>, tag: string) {
    Find(hs, tag).Some?
  }

  lemma {:induction false} FindDropping(hs: seq<Handler>, tags: set<string>, t: string)
    ensures Find(Dropping(hs, tags), t) == if t in tags then None else Find(hs, t)
  {
    if hs != [] {
      FindDropping(hs[1..], tags, t);
      if hs[0].tag !in tags {
        assert Dropping(hs, tags)[1..] == Dropping(hs[1..], tags);
      }
    }
  }

  lemma {:induction false} FindAppend(a: seq<Handler>, b: seq<Handler>, t: string)
    ensures Find(a + b, t) == if Has(a, t) then Find(a, t) else Find(b, t)
  {
    if a == [] {
      assert a + b == b;
    } else {
      assert (a + b)[1..] == a[1..] + b;
      FindAppend(a[1..], b, t);
    }
  }

  lemma {:induction false} DroppingTwice(hs: seq<Handler>, s: set<string>, t: set<string>)
    ensures Dropping(Dropping(hs, s), t) == Dropping(hs, s + t)
  {
    if hs != [] {
      DroppingTwice(hs[1..], s, t);
      if hs[0].tag !in s {
        assert Dropping(hs, s)[1..] == Dropping(hs[1..], s);
      }
    }
  }

  lemma {:induction false} DroppingNothing(hs: seq<Handler>)
    ensures Dropping(hs, {}) == hs
  {
    if hs != [] {
      DroppingNothing(hs[1..]);
    }
  }

  lemma {:induction false} DroppingUsable(hs: seq<Handler>, tags: set<string>)
    requires Usable(hs)
    ensures Usable(Dropping(hs, tags))
    ensures forall h :: h in Dropping(hs, tags) ==> h in hs
  {
    if hs != [] {
      assert forall i :: 0 <= i < |hs[1..]| ==> hs[1..][i] == hs[i + 1];
      DroppingUsable(hs[1..], tags);
      var rest := Dropping(hs[1..], tags);
      forall h | h in rest ensures h.tag != hs[0].tag {
        assert h in hs[1..];
      }
      var all := Dropping(hs, tags);
      assert all == if hs[0].tag in tags then rest else [hs[0]] + rest;
    }
  }

  /** Removals that name distinct present tags all succeed. */
  lemma {:induction false} RemovalsSucceed(hs: seq<Handler>, tags: seq<string>)
    requires NoRepeats(tags) && forall i :: 0 <= i < |tags| ==> Has(hs, tags[i])
    ensures RemoveHandlers(hs, tags) == Some(Dropping(hs, Members(tags)))
    decreases |tags|
  {
    if tags == [] {
      DroppingNothing(hs);
      assert Members(tags) == {};
    } else {
      var rest := Dropping(hs, {tags[0]});
      forall i | 0 <= i < |tags[1..]| ensures Has(rest, tags[1..][i]) {
        FindDropping(hs, {tags[0]}, tags[i + 1]);
      }
      RemovalsSucceed(rest, tags[1..]);
      DroppingTwice(hs, {tags[0]}, Members(tags[1..]));
      assert {tags[0]} + Members(tags[1..]) == Members(tags);
    }
  }

  /** Additions under distinct free tags all succeed. */
  lemma {:induction false} AdditionsSucceed(hs: seq<Handler>, added: seq<Handler>)
    requires Usable(hs) && Usable(added) && forall i :: 0 <= i < |added| ==> !Has(hs, added[i].tag)
    ensures AddHandlers(hs, added) == Some(hs + added)
    ensures Usable(hs + added)
    decreases |added|
  {
    if added == [] {
      assert hs + added == hs;
    } else {
      var more := hs + [added[0]];
      FindSound(hs, added[0].tag);
      assert Usable(more) by {
        assert forall i :: 0 <= i < |hs| ==> more[i] == hs[i];
      }
      forall i | 0 <= i < |added[1..]| ensures !Has(more, added[1..][i].tag) {
        FindSnoc(hs, added[0], added[i + 1].tag);
      }
      AdditionsSucceed(more, added[1..]);
      assert more + added[1..] == hs + added;
    }
  }

  // ---------------------------------------------------- what the patch contains

  lemma {:induction false} DroppedTags(c: Codec, prev: seq<Handler>, next: seq<Handler>)
    requires Usable(prev)
    ensures NoRepeats(Dropped(c, prev, next))
    ensures forall t :: t in Dropped(c, prev, next) <==> (Has(prev, t) && !Kept(c, Find(prev, t).value, next))
  {
    if prev != [] {
      var n := |prev| - 1;
      var h := prev[n];
      UsablePrefix(prev, n);
      DroppedTags(c, prev[..n], next);
      assert prev == prev[..n] + [h];
      FindSound(prev[..n], h.tag);
      forall t { FindSnoc(prev[..n], h, t); }
      var before := Dropped(c, prev[..n], next);
      assert h.tag !in before;
      assert Dropped(c, prev, next) == before + if Kept(c, h, next) then [] else [h.tag];
    }
  }

  /** Under a dropped tag that still exists the replacement is the new handler. */
  lemma {:induction false} ReplacementsAt(c: Codec, prev: seq<Handler>, next: seq<Handler>, t: string)
    requires Usable(prev)
    ensures Find(Replacements(c, prev, next), t)
         == if Has(prev, t) && !Kept(c, Find(prev, t).value, next) then Find(next, t) else None
  {
    if prev != [] {
      var n := |prev| - 1;
      var h := prev[n];
      UsablePrefix(prev, n);
      ReplacementsAt(c, prev[..n], next, t);
      assert prev == prev[..n] + [h];
      FindSound(prev[..n], h.tag);
      FindSnoc(prev[..n], h, t);
      FindSound(next, h.tag);
      var before := Replacements(c, prev[..n], next);
      if !Kept(c, h, next) && Has(next, h.tag) {
        FindSnoc(before, Find(next, h.tag).value, t);
      } else {
        assert Replacements(c, prev, next) == before;
      }
    }
  }

  lemma {:induction false} FreshAt(prev: seq<Handler>, next: seq<Handler>, t: string)
    ensures Find(Fresh(prev, next), t) == if Has(prev, t) then None else Find(next, t)
  {
    if next != [] {
      var n := |next| - 1;
      FreshAt(prev, next[..n], t);
      assert next == next[..n] + [next[n]];
      FindSnoc(next[..n], next[n], t);
      if Find(prev, next[n].tag).Some? {
        assert Fresh(prev, next) == Fresh(prev, next[..n]);
      } else {
        FindSnoc(Fresh(prev, next[..n]), next[n], t);
      }
    }
  }

  function Added(c: Codec, prev: seq<Handler>, next: seq<Handler>): seq<Handler> {
    Replacements(c, prev, next) + Fresh(prev, next)
  }

  /** The added handler under t: the new one, when t is new or its handler changed. */
  lemma AddedAt(c: Codec, prev: seq<Handler>, next: seq<Handler>, t: string)
    requires Usable(prev)
    ensures Find(Added(c, prev, next), t)
         == if Has(prev, t) && Kept(c, Find(prev, t).value, next) then None else Find(next, t)
  {
    FindAppend(Replacements(c, prev, next), Fresh(prev, next), t);
    ReplacementsAt(c, prev, next, t);
    FreshAt(prev, next, t);
  }

  lemma UsableSnoc(hs: seq<Handler>, g: Handler)
    requires Usable(hs) && g.tag != "" && forall b :: b in hs ==> b.tag != g.tag
    ensures Usable(hs + [g])
  {
    var all := hs + [g];
    assert all[|hs|] == g && forall i :: 0 <= i < |hs| ==> all[i] == hs[i] && hs[i] in hs;
  }

  lemma {:induction false} ReplacementsFrom(c: Codec, prev: seq<Handler>, next: seq<Handler>)
    requires Usable(prev)
    ensures forall h :: h in Replacements(c, prev, next) ==> h in next && h.tag != "" && Has(prev, h.tag)
  {
    if prev != [] {
      var n := |prev| - 1;
      var h := prev[n];
      UsablePrefix(prev, n);
      ReplacementsFrom(c, prev[..n], next);
      assert prev == prev[..n] + [h];
      forall t { FindSnoc(prev[..n], h, t); }
      FindSound(next, h.tag);
    }
  }

  lemma {:induction false} ReplacementsUsable(c: Codec, prev: seq<Handler>, next: seq<Handler>)
    requires Usable(prev)
    ensures Usable(Replacements(c, prev, next))
    ensures forall h :: h in Replacements(c, prev, next) ==> h in next && Has(prev, h.tag)
  {
    ReplacementsFrom(c, prev, next);
    if prev != [] {
      var n := |prev| - 1;
      var h := prev[n];
      UsablePrefix(prev, n);
      ReplacementsUsable(c, prev[..n], next);
      ReplacementsFrom(c, prev[..n], next);
      FindSound(prev[..n], h.tag);
      FindSound(next, h.tag);
      if !Kept(c, h, next) && Has(next, h.tag) {
        forall b | b in Replacements(c, prev[..n], next) ensures b.tag != h.tag {
          assert Has(prev[..n], b.tag);
        }
        UsableSnoc(Replacements(c, prev[..n], next), Find(next, h.tag).value);
      }
    }
  }

  lemma {:induction false} FreshUsable(prev: seq<Handler>, next: seq<Handler>)
    requires Usable(next)
    ensures Usable(Fresh(prev, next))
    ensures forall h :: h in Fresh(prev, next) ==> h in next && !Has(prev, h.tag)
  {
    if next != [] {
      var n := |next| - 1;
      UsablePrefix(next, n);
      FreshUsable(prev, next[..n]);
      var before := Fresh(prev, next[..n]);
      forall b | b in before ensures b in next && b.tag != next[n].tag {
        assert b in next[..n];
      }
      if !Has(prev, next[n].tag) {
        var all := before + [next[n]];
        assert all[|before|] == next[n] && forall i :: 0 <= i < |before| ==> all[i] == before[i] && before[i] in before;
        assert Fresh(prev, next) == all;
      } else {
        assert Fresh(prev, next) == before;
      }
    }
  }

  lemma AddedUsable(c: Codec, prev: seq<Handler>, next: seq<Handler>)
    requires Usable(prev) && Usable(next)
    ensures Usable(Added(c, prev, next))
  {
    ReplacementsUsable(c, prev, next);
    FreshUsable(prev, next);
    var a, b := Replacements(c, prev, next), Fresh(prev, next);
    var all: seq<Handler> := a + b;
    forall i, j | 0 <= i < j < |all| ensures all[i].tag != all[j].tag {
      if i < |a| <= j {
        assert all[i] in a && all[j] in b;
        FindSound(prev, all[i].tag);
      }
    }
  }

  // ---------------------------------------------- one list of handlers patched

  /** Each added handler stands for the new handler it was made from. */
  ghost predicate StandsFor(c: Codec, sent: seq<Handler>, made: seq<Handler>) {
    |sent| == |made| && forall i :: 0 <= i < |made| ==> sent[i].tag == made[i].tag && Same(c, sent[i], made[i])
  }

  lemma {:induction false} StandsForAt(c: Codec, sent: seq<Handler>, made: seq<Handler>, t: string)
    requires StandsFor(c, sent, made)
    ensures SameAt(c, Find(sent, t), Find(made, t))
  {
    if made != [] {
      assert forall i :: 0 <= i < |made[1..]| ==> sent[1..][i] == sent[i + 1] && made[1..][i] == made[i + 1];
      StandsForAt(c, sent[1..], made[1..], t);
    }
  }

  /** From a list that agrees with prev, the patch leads to one that agrees with
      next: no removal names a missing tag and no addition a taken one. */
  lemma PatchApplies(c: Codec, running: seq<Handler>, prev: seq<Handler>, next: seq<Handler>, sent: seq<Handler>)
    requires Usable(prev) && Usable(next) && Agree(c, running, prev)
    requires StandsFor(c, sent, Added(c, prev, next))
    ensures var kept := Dropping(running, Members(Dropped(c, prev, next)));
      && RemoveHandlers(running, Dropped(c, prev, next)) == Some(kept)
      && AddHandlers(kept, sent) == Some(kept + sent)
      && Agree(c, kept + sent, next)
  {
    var gone, made := Dropped(c, prev, next), Added(c, prev, next);
    var kept := Dropping(running, Members(gone));
    assert Usable(running) && SameTable(c, running, prev) by {
      forall t ensures SameAt(c, Find(prev, t), Find(prev, t)) {
        if Has(prev, t) { SameReflexive(c, Find(prev, t).value); }
      }
    }
    DroppedTags(c, prev, next);
    forall i | 0 <= i < |gone| ensures Has(running, gone[i]) {
      assert gone[i] in gone && SameAt(c, Find(running, gone[i]), Find(prev, gone[i]));
    }
    RemovalsSucceed(running, gone);
    DroppingUsable(running, Members(gone));
    AddedUsable(c, prev, next);
    forall i | 0 <= i < |sent| ensures !Has(kept, sent[i].tag) {
      var t := sent[i].tag;
      FindUsable(made, i);
      AddedAt(c, prev, next, t);
      FindDropping(running, Members(gone), t);
      assert SameAt(c, Find(running, t), Find(prev, t));
    }
    AdditionsSucceed(kept, sent);
    forall t ensures SameAt(c, Find(kept + sent, t), Find(next, t)) {
      PatchedAt(c, running, prev, next, sent, t);
    }
  }

  lemma PatchedAt(c: Codec, running: seq<Handler>, prev: seq<Handler>, next: seq<Handler>, sent: seq<Handler>,
                  t: string)
    requires Usable(prev) && SameTable(c, running, prev)
    requires StandsFor(c, sent, Added(c, prev, next))
    ensures SameAt(c, Find(Dropping(running, Members(Dropped(c, prev, next))) + sent, t), Find(next, t))
  {
    var gone := Members(Dropped(c, prev, next));
    DroppedTags(c, prev, next);
    FindAppend(Dropping(running, gone), sent, t);
    FindDropping(running, gone, t);
    AddedAt(c, prev, next, t);
    StandsForAt(c, sent, Added(c, prev, next), t);
    assert SameAt(c, Find(running, t), Find(prev, t));
    FindSound(prev, t);
    if Has(prev, t) && Kept(c, Find(prev, t).value, next) {
      SameTransitive(c, Find(running, t).value, Find(prev, t).value, Find(next, t).value);
    }
  }

  /** A patch is empty exactly when the two lists say the same under every tag, so
      reformatting a config or reordering its handlers costs no operation. */
  lemma EmptyPatchIffSameTable(c: Codec, prev: seq<Handler>, next: seq<Handler>)
    requires Usable(prev) && Usable(next)
    ensures Dropped(c, prev, next) == [] && Added(c, prev, next) == [] <==> SameTable(c, prev, next)
  {
    DroppedTags(c, prev, next);
    var gone := Dropped(c, prev, next);
    assert gone == [] || gone[0] in gone;
    forall t
      ensures Find(Added(c, prev, next), t)
           == if Has(prev, t) && Kept(c, Find(prev, t).value, next) then None else Find(next, t)
    {
      AddedAt(c, prev, next, t);
    }
    if SameTable(c, prev, next) {
      forall t ensures t !in Dropped(c, prev, next) && !Has(Added(c, prev, next), t) {
        assert SameAt(c, Find(prev, t), Find(next, t));
        FindSound(prev, t);
      }
      if Added(c, prev, next) != [] {
        FindSound(Added(c, prev, next), Added(c, prev, next)[0].tag);
      }
    } else if Dropped(c, prev, next) == [] && Added(c, prev, next) == [] {
      forall t ensures SameAt(c, Find(prev, t), Find(next, t)) {
        FindSound(prev, t);
        assert t !in Dropped(c, prev, next) && !Has(Added(c, prev, next), t);
      }
    }
  }

  /** Nothing is sent to the core exactly when inbounds and outbounds say the same under
      every tag and the routing text has not changed. */
  lemma EmptyPatchIff(c: Codec, p: Config, n: Config)
    requires Hot(c, p, n)
    ensures PatchOf(c, p, n) == Patch([], [], [], [], None) <==>
      && SameTable(c, p.inbounds, n.inbounds)
      && SameTable(c, Loaded(c, p.outbounds), Loaded(c, n.outbounds))
      && p.router == n.router
  {
    EmptyPatchIffSameTable(c, p.inbounds, n.inbounds);
    EmptyPatchIffSameTable(c, Outbounds(c, p.outbounds).value, Outbounds(c, n.outbounds).value);
    var patch := PatchOf(c, p, n);
    assert patch.addedInbounds == WireAll(c, Added(c, p.inbounds, n.inbounds));
  }

  // ------------------------------------------------------- one hot application

  lemma HotRoutingAgrees(c: Codec, prev: string, next: string)
    requires RoutingHot(c, prev, next)
    ensures FixedPart(c, prev) == FixedPart(c, next)
  {
    if prev != next {
      var v, w := c.decode(prev).value, c.decode(next).value;
      FixedObject(v);
      FixedObject(w);
      var x: Tree := if v.Null? then Null else Obj(v.members - {"rules", "balancers"});
      var y: Tree := if w.Null? then Null else Obj(w.members - {"rules", "balancers"});
      CanonicalTextInjective(x, y);
    }
  }

  lemma FixedObject(v: Tree)
    ensures v.Obj? ==> WellFormed(Obj(v.members - {"rules", "balancers"}))
  {
  }

  lemma {:induction false} FirstKept(hs: seq<Handler>, tags: set<string>, more: seq<Handler>)
    requires hs != [] && hs[0].tag !in tags
    ensures Dropping(hs, tags) + more != [] && (Dropping(hs, tags) + more)[0] == hs[0]
  {
  }

  /** The default outbound is never removed, so it stays first and unchanged. */
  lemma DefaultKept(c: Codec, running: seq<Handler>, prev: seq<Handler>, next: seq<Handler>, sent: seq<Handler>)
    requires Usable(prev) && Usable(next)
    requires SameDefault(c, running, prev) && SameDefault(c, prev, next)
    requires sent == Added(c, prev, next)
    ensures var done := Dropping(running, Members(Dropped(c, prev, next))) + sent;
      && SameDefault(c, done, next)
      && (running != [] ==> done != [] && done[0] == running[0])
  {
    DroppedTags(c, prev, next);
    if prev != [] {
      FindUsable(prev, 0);
      FindUsable(next, 0);
      FirstKept(running, Members(Dropped(c, prev, next)), sent);
      SameTransitive(c, running[0], prev[0], next[0]);
    }
  }

  /** A list after its dropped handlers are gone and the sent ones appended. */
  function Patched(c: Codec, running: seq<Handler>, prev: seq<Handler>, next: seq<Handler>, sent: seq<Handler>)
    : seq<Handler>
  {
    Dropping(running, Members(Dropped(c, prev, next))) + sent
  }

  /** The core after all operations of a hot change. */
  function PatchedInstance(c: Codec, inst: Instance, prev: Config, next: Config): Instance
    requires Hot(c, prev, next)
  {
    var patch := PatchOf(c, prev, next);
    var olds, news := Outbounds(c, prev.outbounds).value, Outbounds(c, next.outbounds).value;
    inst.(inbounds := Patched(c, inst.inbounds, prev.inbounds, next.inbounds, patch.addedInbounds),
          outbounds := Patched(c, inst.outbounds, olds, news, patch.addedOutbounds),
          routingApplied := if prev.router == next.router then inst.routingApplied else next.router)
  }

  lemma PatchedAgrees(c: Codec, inst: Instance, prev: Config, next: Config)
    requires Faithful(c) && Hot(c, prev, next) && Agrees(c, inst, prev)
    ensures Agrees(c, PatchedInstance(c, inst, prev, next), next)
  {
    var done := PatchedInstance(c, inst, prev, next);
    assert Agree(c, done.inbounds, next.inbounds) by {
      SentStandsFor(c, prev, next);
      PatchApplies(c, inst.inbounds, prev.inbounds, next.inbounds, PatchOf(c, prev, next).addedInbounds);
    }
    assert Agree(c, done.outbounds, Loaded(c, next.outbounds))
        && SameDefault(c, done.outbounds, Loaded(c, next.outbounds)) by {
      OutboundsApply(c, inst, prev, next);
    }
    assert RoutingAgrees(c, done, next) by {
      HotRoutingAgrees(c, prev.router, next.router);
    }
    assert SectionsAgree(c, done, next) by {
      StaticIff(c, prev, next);
    }
  }

  /** The main result on a single change. On a core that agrees with the stored
      snapshot, every operation computed for a hot change succeeds, and the core
      then agrees with the new config. */
  lemma HotApplySucceeds(c: Codec, inst: Instance, prev: Config, next: Config)
    requires Faithful(c) && Hot(c, prev, next) && Agrees(c, inst, prev)
    ensures Apply(inst, PatchOf(c, prev, next)) == Some(PatchedInstance(c, inst, prev, next))
    ensures Agrees(c, PatchedInstance(c, inst, prev, next), next)
  {
    SentStandsFor(c, prev, next);
    PatchApplies(c, inst.inbounds, prev.inbounds, next.inbounds, PatchOf(c, prev, next).addedInbounds);
    OutboundsApply(c, inst, prev, next);
    PatchedAgrees(c, inst, prev, next);
  }

  lemma SentStandsFor(c: Codec, prev: Config, next: Config)
    requires Faithful(c) && Hot(c, prev, next)
    ensures StandsFor(c, PatchOf(c, prev, next).addedInbounds, Added(c, prev.inbounds, next.inbounds))
  {
    var made := Added(c, prev.inbounds, next.inbounds);
    var apiTag := ApiTag(c, next.api);
    forall i | 0 <= i < |made|
      ensures Same(c, Wire(c, made[i]), made[i])
    {
      AddedEmittable(c, prev.inbounds, next.inbounds, apiTag, i);
      WireKeepsMeaning(c, made[i]);
    }
  }

  /** What a hot inbound change adds can be marshalled and is not the API inbound. */
  lemma AddedEmittable(c: Codec, prev: seq<Handler>, next: seq<Handler>, apiTag: string, i: nat)
    requires InboundsHot(c, prev, next, apiTag) && i < |Added(c, prev, next)|
    ensures Emittable(c, Added(c, prev, next)[i]) && !IsApi(Added(c, prev, next)[i].tag, apiTag)
  {
    var made := Added(c, prev, next);
    var h := made[i];
    AddedUsable(c, prev, next);
    FindUsable(made, i);
    AddedAt(c, prev, next, h.tag);
    FindSound(prev, h.tag);
    FindSound(next, h.tag);
    if Has(prev, h.tag) {
      var j :| 0 <= j < |prev| && prev[j] == Find(prev, h.tag).value;
      assert OldInboundHot(c, prev[j], next, apiTag);
    } else {
      var j :| 0 <= j < |next| && next[j] == Find(next, h.tag).value;
      assert NewInboundHot(c, prev, next[j], apiTag);
    }
  }

  lemma OutboundsApply(c: Codec, inst: Instance, prev: Config, next: Config)
    requires Hot(c, prev, next) && Agrees(c, inst, prev)
    ensures var patch := PatchOf(c, prev, next);
      var olds, news := Outbounds(c, prev.outbounds).value, Outbounds(c, next.outbounds).value;
      var kept := Dropping(inst.outbounds, Members(Dropped(c, olds, news)));
      && RemoveHandlers(inst.outbounds, patch.removedOutbounds) == Some(kept)
      && AddHandlers(kept, patch.addedOutbounds) == Some(kept + patch.addedOutbounds)
      && Agree(c, kept + patch.addedOutbounds, news)
      && SameDefault(c, kept + patch.addedOutbounds, news)
      && (inst.outbounds != [] ==> (kept + patch.addedOutbounds)[0] == inst.outbounds[0])
  {
    var olds, news := Outbounds(c, prev.outbounds).value, Outbounds(c, next.outbounds).value;
    var made := Added(c, olds, news);
    forall i | 0 <= i < |made| ensures Same(c, made[i], made[i]) {
      SameReflexive(c, made[i]);
    }
    PatchApplies(c, inst.outbounds, olds, news, made);
    DefaultKept(c, inst.outbounds, olds, news, made);
  }

  predicate SectionsUntouched(before: Instance, after: Instance) {
    && after.log == before.log && after.dns == before.dns && after.transport == before.transport
    && after.policy == before.policy && after.api == before.api && after.stats == before.stats
    && after.reverse == before.reverse && after.fakeDns == before.fakeDns
    && after.observatory == before.observatory && after.burstObservatory == before.burstObservatory
    && after.metrics == before.metrics && after.geodata == before.geodata
  }

  /** What a hot change leaves alone: sections without a reload API, the text the
      router was started with, the default outbound, the API inbound, and every
      inbound tag. */
  ghost predicate LeftAlone(before: Instance, after: Instance, apiTag: string) {
    && SectionsUntouched(before, after)
    && after.routingAtStart == before.routingAtStart
    && (before.outbounds != [] ==> after.outbounds != [] && after.outbounds[0] == before.outbounds[0])
    && (forall t :: IsApi(t, apiTag) ==> Find(after.inbounds, t) == Find(before.inbounds, t))
    && (forall t :: Has(before.inbounds, t) ==> Has(after.inbounds, t))
  }

  /** Reading the tag of a valid section depends on its value alone, and null has none. */
  ghost predicate ReadsTags(c: Codec) {
    && (forall s, t :: c.valid(s) && c.valid(t) && c.decode(s) == c.decode(t) ==> c.tagOf(s) == c.tagOf(t))
    && (forall s :: c.valid(s) && c.decode(s) == Some(Null) ==> c.tagOf(s) == Some(""))
  }

  /** A section that was cut out of a parsed config. */
  predicate Whole(c: Codec, raw: string) {
    raw == [] || c.valid(raw)
  }

  lemma SameApiTag(c: Codec, s: string, t: string)
    requires Faithful(c) && ReadsTags(c) && Whole(c, s) && Whole(c, t) && MeaningOf(c, s) == MeaningOf(c, t)
    ensures ApiTag(c, s) == ApiTag(c, t)
  {
  }

  /** The tag of the API inbound is the one the core was started with. */
  lemma ApiTagFromStart(c: Codec, inst: Instance, prev: Config, next: Config)
    requires Faithful(c) && ReadsTags(c) && Hot(c, prev, next) && Agrees(c, inst, prev)
    requires Whole(c, inst.api) && Whole(c, next.api)
    ensures ApiTag(c, inst.api) == ApiTag(c, next.api)
  {
    StaticIff(c, prev, next);
    SameApiTag(c, inst.api, next.api);
  }

  lemma HotApplyLeavesAlone(c: Codec, inst: Instance, prev: Config, next: Config)
    requires Faithful(c) && Hot(c, prev, next) && Agrees(c, inst, prev)
    ensures LeftAlone(inst, PatchedInstance(c, inst, prev, next), ApiTag(c, next.api))
    ensures ReadsTags(c) && Whole(c, inst.api) && Whole(c, next.api) ==>
      LeftAlone(inst, PatchedInstance(c, inst, prev, next), ApiTag(c, inst.api))
  {
    if ReadsTags(c) && Whole(c, inst.api) && Whole(c, next.api) {
      ApiTagFromStart(c, inst, prev, next);
    }
    OutboundsApply(c, inst, prev, next);
    forall t
      ensures IsApi(t, ApiTag(c, next.api)) ==>
        Find(PatchedInstance(c, inst, prev, next).inbounds, t) == Find(inst.inbounds, t)
      ensures Has(inst.inbounds, t) ==> Has(PatchedInstance(c, inst, prev, next).inbounds, t)
    {
      InboundAfter(c, inst, prev, next, t);
    }
  }

  lemma InboundAfter(c: Codec, inst: Instance, prev: Config, next: Config, t: string)
    requires Faithful(c) && Hot(c, prev, next) && Agrees(c, inst, prev)
    ensures var done := PatchedInstance(c, inst, prev, next).inbounds;
      && (IsApi(t, ApiTag(c, next.api)) ==> Find(done, t) == Find(inst.inbounds, t))
      && (Has(inst.inbounds, t) ==> Has(done, t))
  {
    var olds, news := prev.inbounds, next.inbounds;
    var apiTag, sent := ApiTag(c, next.api), PatchOf(c, prev, next).addedInbounds;
    var gone := Members(Dropped(c, olds, news));
    SentStandsFor(c, prev, next);
    DroppedTags(c, olds, news);
    FindAppend(Dropping(inst.inbounds, gone), sent, t);
    FindDropping(inst.inbounds, gone, t);
    StandsForAt(c, sent, Added(c, olds, news), t);
    AddedAt(c, olds, news, t);
    FindSound(olds, t);
    FindSound(Added(c, olds, news), t);
    if Has(olds, t) {
      var j :| 0 <= j < |olds| && olds[j] == Find(olds, t).value;
      assert OldInboundHot(c, olds[j], news, apiTag);
    }
    if Has(Added(c, olds, news), t) {
      var i :| 0 <= i < |Added(c, olds, news)| && Added(c, olds, news)[i] == Find(Added(c, olds, news), t).value;
      AddedEmittable(c, olds, news, apiTag, i);
    }
  }

  // --------------------------------------------------------------- whole runs

  /** The running core, if there is one, and the config snapshot stored beside it. */
  datatype World = World(running: Option<Instance>, snapshot: Config)

  /** One call of RestartXray: the freshly generated config, whether a restart is
      forced or pending, and whether the core is found dead, fails an API call, or
      fails to start. */
  datatype Request = Request(config: Config, force: bool, pending: bool, dead: bool, apiFails: bool, startFails: bool)

  /** A new process is stored with the new config before it is started. */
  function Restarted(c: Codec, r: Request): World {
    World(if r.startFails then None else Some(Boot(c, r.config)), r.config)
  }

  /** IsXrayRunning. */
  predicate Alive(w: World, r: Request) {
    w.running.Some? && !r.dead
  }

  /** RestartXray with tryHotApply: nothing to do, a hot application followed by
      SetConfig, or a restart. */
  function Step(c: Codec, w: World, r: Request): World {
    if Alive(w, r) && !r.force && w.snapshot == r.config && !r.pending then w
    else if Alive(w, r) && !r.force && w.snapshot != r.config && Hot(c, w.snapshot, r.config) then
      var patch := PatchOf(c, w.snapshot, r.config);
      if patch == Patch([], [], [], [], None) then World(w.running, r.config)
      else
        var done := Apply(w.running.value, patch);
        if r.apiFails || done.None? then Restarted(c, r) else World(done, r.config)
    else Restarted(c, r)
  }

  function Run(c: Codec, w: World, rs: seq<Request>): World {
    if rs == [] then w else Step(c, Run(c, w, rs[..|rs| - 1]), rs[|rs| - 1])
  }

  lemma BootAgrees(c: Codec, cfg: Config)
    ensures Agrees(c, Boot(c, cfg), cfg)
  {
    var outs := Loaded(c, cfg.outbounds);
    if outs != [] {
      SameReflexive(c, outs[0]);
    }
  }

  /** A core that runs agrees with the snapshot. */
  ghost predicate Settled(c: Codec, w: World) {
    w.running.Some? ==> Agrees(c, w.running.value, w.snapshot)
  }

  ghost predicate Untouched(c: Codec, before: World, after: World, apiTag: string) {
    before.running.Some? && after.running.Some? && LeftAlone(before.running.value, after.running.value, apiTag)
  }

  /** The call takes the hot path. */
  ghost predicate TriesHot(c: Codec, w: World, r: Request) {
    Alive(w, r) && !r.force && w.snapshot != r.config && Hot(c, w.snapshot, r.config)
  }

  /** A hot step gives the patched core, unless an API call fails. */
  lemma HotStep(c: Codec, w: World, r: Request)
    requires Faithful(c) && Settled(c, w) && TriesHot(c, w, r)
    ensures var patched := World(Some(PatchedInstance(c, w.running.value, w.snapshot, r.config)), r.config);
      Step(c, w, r) == patched || (r.apiFails && Step(c, w, r) == Restarted(c, r))
  {
    HotApplySucceeds(c, w.running.value, w.snapshot, r.config);
    var patch := PatchOf(c, w.snapshot, r.config);
    if patch == Patch([], [], [], [], None) {
      assert Apply(w.running.value, patch) == w.running;
    }
  }

  lemma StepSettled(c: Codec, w: World, r: Request)
    requires Faithful(c) && Settled(c, w)
    ensures Settled(c, Step(c, w, r))
  {
    BootAgrees(c, r.config);
    if TriesHot(c, w, r) {
      HotStep(c, w, r);
      PatchedAgrees(c, w.running.value, w.snapshot, r.config);
    }
  }

  lemma HotStepLeavesAlone(c: Codec, w: World, r: Request)
    requires Faithful(c) && Settled(c, w) && TriesHot(c, w, r)
    ensures Step(c, w, r) == Restarted(c, r) || Untouched(c, w, Step(c, w, r), ApiTag(c, r.config.api))
    ensures !r.apiFails ==> Untouched(c, w, Step(c, w, r), ApiTag(c, r.config.api))
  {
    HotStep(c, w, r);
    HotApplyLeavesAlone(c, w.running.value, w.snapshot, r.config);
  }

  /** A step keeps the agreement, and unless it restarts the core it leaves alone
      what only a restart may change. The core is down afterwards only when a start
      failed. */
  lemma StepAgrees(c: Codec, w: World, r: Request)
    requires Faithful(c) && Settled(c, w)
    ensures Settled(c, Step(c, w, r)) && Step(c, w, r).snapshot == r.config
    ensures Step(c, w, r) == Restarted(c, r) || Untouched(c, w, Step(c, w, r), ApiTag(c, r.config.api))
    ensures TriesHot(c, w, r) && !r.apiFails ==> Untouched(c, w, Step(c, w, r), ApiTag(c, r.config.api))
    ensures Step(c, w, r).running.None? ==> r.startFails
  {
    StepSettled(c, w, r);
    if TriesHot(c, w, r) {
      HotStep(c, w, r);
      HotStepLeavesAlone(c, w, r);
    }
  }

  /** The core is dead, a restart is asked for, or the change is not one for the API. */
  ghost predicate MustRestart(c: Codec, w: World, r: Request) {
    || w.running.None? || r.dead || r.force
    || (w.snapshot == r.config && r.pending)
    || (w.snapshot != r.config && !Hot(c, w.snapshot, r.config))
    || (w.snapshot != r.config && r.apiFails && PatchOf(c, w.snapshot, r.config) != Patch([], [], [], [], None))
  }

  /** When it must, a step starts a new core with the new config, and when there is nothing
      to do it does nothing. */
  lemma StepRestarts(c: Codec, w: World, r: Request)
    ensures MustRestart(c, w, r) ==>
      Step(c, w, r) == World(if r.startFails then None else Some(Boot(c, r.config)), r.config)
    ensures w.running.Some? && !r.dead && !r.force && !r.pending && w.snapshot == r.config ==> Step(c, w, r) == w
  {
  }

  /** Through any sequence of reconfigurations a running core agrees with the stored
      snapshot, although unchanged parts keep the text of older configs. */
  lemma {:induction false} RunAgrees(c: Codec, start: Config, rs: seq<Request>)
    requires Faithful(c)
    ensures var w := Run(c, World(None, start), rs);
      && Settled(c, w)
      && w.snapshot == (if rs == [] then start else rs[|rs| - 1].config)
      && (rs != [] && !rs[|rs| - 1].startFails ==> w.running.Some?)
  {
    if rs != [] {
      RunAgrees(c, start, rs[..|rs| - 1]);
      StepAgrees(c, Run(c, World(None, start), rs[..|rs| - 1]), rs[|rs| - 1]);
    }
  }
}
