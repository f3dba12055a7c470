/** internal/xray/hot_diff.go: which API operations bring a running core from
    one generated config to another, and when only a restart will do. */
module HotDiffs {
  import opened Text
  import opened Json
  import opened Values

  /** A handler of either kind; both are addressed by tag. */
  datatype Handler =
    | InboundConfig(tag: string, port: int, protocol: string, listen: string,
                    settings: string, streamSettings: string, sniffing: string)
    | Outbound(tag: string, raw: string)

  type Inbound = h: Handler | h.InboundConfig? witness InboundConfig("", 0, "", "", "", "", "")

  datatype Config = Config(
    log: string, router: string, dns: string, inbounds: seq<Inbound>, outbounds: string,
    transport: string, policy: string, api: string, stats: string, reverse: string,
    fakeDns: string, observatory: string, burstObservatory: string, metrics: string, geodata: string)

  /** The sections that have no reload API. */
  function StaticSections(cfg: Config): (s: seq<string>)
    ensures |s| == 12
  {
    [cfg.log, cfg.dns, cfg.transport, cfg.policy, cfg.api, cfg.stats, cfg.reverse, cfg.fakeDns,
     cfg.observatory, cfg.burstObservatory, cfg.metrics, cfg.geodata]
  }

  // ------------------------------------------------------- handlers by tag

  function Find(hs: seq<Handler>, tag: string): Option<Handler> {
    if hs == [] then None
    else if hs[0].tag == tag then Some(hs[0])
    else Find(hs[1..], tag)
  }

  /** Tags the API can address: non-empty and distinct. */
  predicate Usable(hs: seq<Handler>) {
    && (forall i :: 0 <= i < |hs| ==> hs[i].tag != "")
    && forall i, j :: 0 <= i < j < |hs| ==> hs[i].tag != hs[j].tag
  }

  /** inboundEqualNormalized, and the same-tag comparison of two outbounds. */
  predicate Same(c: Codec, a: Handler, b: Handler) {
    if a.InboundConfig? && b.InboundConfig? then
      && a.port == b.port && a.protocol == b.protocol && a.tag == b.tag
      && RawEqualNormalized(c, a.listen, b.listen)
      && RawEqualNormalized(c, a.settings, b.settings)
      && RawEqualNormalized(c, a.streamSettings, b.streamSettings)
      && RawEqualNormalized(c, a.sniffing, b.sniffing)
    else
      a.Outbound? && b.Outbound? && a.tag == b.tag && RawEqualNormalized(c, a.raw, b.raw)
  }

  /** h is carried over: hs has a handler under its tag that says the same. */
  predicate Kept(c: Codec, h: Handler, hs: seq<Handler>) {
    Find(hs, h.tag).Some? && Same(c, h, Find(hs, h.tag).value)
  }

  /** Tags of the old handlers that are not carried over, in old order. */
  function Dropped(c: Codec, prev: seq<Handler>, next: seq<Handler>): seq<string> {
    if prev == [] then []
    else
      var h := prev[|prev| - 1];
      Dropped(c, prev[..|prev| - 1], next) + if Kept(c, h, next) then [] else [h.tag]
  }

  /** The new versions of the dropped handlers that still exist, in old order. */
  function Replacements(c: Codec, prev: seq<Handler>, next: seq<Handler>): seq<Handler> {
    if prev == [] then []
    else
      var h := prev[|prev| - 1];
      Replacements(c, prev[..|prev| - 1], next)
      + if Kept(c, h, next) || Find(next, h.tag).None? then [] else [Find(next, h.tag).value]
  }

  /** The new handlers under tags the old config does not have. */
  function Fresh(prev: seq<Handler>, next: seq<Handler>): seq<Handler> {
    if next == [] then []
    else
      var h := next[|next| - 1];
      Fresh(prev, next[..|next| - 1]) + if Find(prev, h.tag).Some? then [] else [h]
  }

  lemma OldStep(c: Codec, prev: seq<Handler>, next: seq<Handler>, i: nat)
    requires i < |prev|
    ensures Dropped(c, prev[..i + 1], next)
         == Dropped(c, prev[..i], next) + if Kept(c, prev[i], next) then [] else [prev[i].tag]
    ensures Replacements(c, prev[..i + 1], next)
         == Replacements(c, prev[..i], next)
            + if Kept(c, prev[i], next) || Find(next, prev[i].tag).None? then []
              else [Find(next, prev[i].tag).value]
  {
    assert prev[..i + 1][..i] == prev[..i];
  }

  lemma FreshStep(prev: seq<Handler>, next: seq<Handler>, i: nat)
    requires i < |next|
    ensures Fresh(prev, next[..i + 1])
         == Fresh(prev, next[..i]) + if Find(prev, next[i].tag).Some? then [] else [next[i]]
  {
    assert next[..i + 1][..i] == next[..i];
  }

  // -------------------------------------------------------------- marshalling

  /** json.Marshal accepts a raw section that is empty or valid JSON. */
  predicate Emittable(c: Codec, h: Handler) {
    h.InboundConfig? ==>
      forall s :: s in [h.listen, h.settings, h.streamSettings, h.sniffing] ==> s == [] || c.valid(s)
  }

  /** A handler as it reaches the core. Inbounds are marshalled, outbounds are sent
      verbatim. Empty sections become null, or are left out under omitempty. */
  function Wire(c: Codec, h: Handler): (w: Handler)
    ensures w.tag == h.tag && w.InboundConfig? == h.InboundConfig?
  {
    if h.Outbound? then h
    else
      h.(listen := if h.listen == [] then "null" else c.compact(h.listen),
         settings := if h.settings == [] then "null" else c.compact(h.settings),
         streamSettings := if h.streamSettings == [] then "" else c.compact(h.streamSettings),
         sniffing := if h.sniffing == [] then "" else c.compact(h.sniffing))
  }

  function WireAll(c: Codec, hs: seq<Handler>): (ws: seq<Handler>)
    ensures |ws| == |hs| && forall i :: 0 <= i < |hs| ==> ws[i] == Wire(c, hs[i])
  {
    seq(|hs|, i requires 0 <= i < |hs| => Wire(c, hs[i]))
  }

  lemma WireAppend(c: Codec, hs: seq<Handler>, gs: seq<Handler>)
    ensures WireAll(c, hs + gs) == WireAll(c, hs) + WireAll(c, gs)
    ensures |gs| == 1 ==> WireAll(c, gs) == [Wire(c, gs[0])]
  {
  }

  /** What the panel and the core must agree on about JSON: a valid section decodes,
      re-emitting it keeps its value, and the text null is the null value. */
  ghost predicate Faithful(c: Codec) {
    && c.decode("null") == Some(Null)
    && forall s :: c.valid(s) ==>
         c.decode(s).Some? && c.compact(s) != [] && c.decode(c.compact(s)) == c.decode(s)
  }

  // ------------------------------------------------------------ the decisions

  /** apiTagFromConfig. */
  function ApiTag(c: Codec, api: string): string {
    if api != [] && c.tagOf(api).Some? && c.tagOf(api).value != "" then c.tagOf(api).value else "api"
  }

  predicate IsApi(tag: string, apiTag: string) {
    tag == apiTag || tag == "api"
  }

  predicate StaticUnchanged(c: Codec, prev: Config, next: Config) {
    forall i :: 0 <= i < 12 ==> RawEqualNormalized(c, StaticSections(prev)[i], StaticSections(next)[i])
  }

  /** An inbound change the API can apply: no inbound goes away, the API inbound is
      neither changed nor added, and everything to be added can be marshalled. */
  predicate InboundsHot(c: Codec, prev: seq<Handler>, next: seq<Handler>, apiTag: string) {
    && Usable(prev) && Usable(next)
    && (forall i :: 0 <= i < |prev| ==> OldInboundHot(c, prev[i], next, apiTag))
    && (forall i :: 0 <= i < |next| ==> NewInboundHot(c, prev, next[i], apiTag))
  }

  predicate OldInboundHot(c: Codec, h: Handler, next: seq<Handler>, apiTag: string) {
    Kept(c, h, next)
    || (!IsApi(h.tag, apiTag) && Find(next, h.tag).Some? && Emittable(c, Find(next, h.tag).value))
  }

  predicate NewInboundHot(c: Codec, prev: seq<Handler>, h: Handler, apiTag: string) {
    Find(prev, h.tag).Some? || (!IsApi(h.tag, apiTag) && Emittable(c, h))
  }

  /** One outbound element the API can address. */
  predicate EntryReadable(c: Codec, elem: string) {
    c.tagOf(elem).Some? && c.tagOf(elem).value != "" && CanonicalJSON(c, elem).Some?
  }

  function Entry(c: Codec, elem: string): Handler {
    Outbound(if c.tagOf(elem).Some? then c.tagOf(elem).value else "", elem)
  }

  function Entries(c: Codec, elems: seq<string>): (hs: seq<Handler>)
    ensures |hs| == |elems| && forall i :: 0 <= i < |elems| ==> hs[i] == Entry(c, elems[i])
  {
    seq(|elems|, i requires 0 <= i < |elems| => Entry(c, elems[i]))
  }

  /** The elements of the outbounds section; an empty section has none. */
  function Elements(c: Codec, raw: string): Option<seq<string>> {
    if raw == [] then Some([]) else c.elements(raw)
  }

  /** The outbounds parseOutbounds accepts. */
  function Outbounds(c: Codec, raw: string): (r: Option<seq<Handler>>)
    ensures r.Some? ==> Usable(r.value)
  {
    var elems := Elements(c, raw);
    if elems.Some? && (forall i :: 0 <= i < |elems.value| ==> EntryReadable(c, elems.value[i]))
       && Usable(Entries(c, elems.value))
    then Some(Entries(c, elems.value))
    else None
  }

  /** The default outbound stays what it is. */
  predicate SameDefault(c: Codec, prev: seq<Handler>, next: seq<Handler>) {
    (prev == [] <==> next == []) && (prev != [] && next != [] ==> Same(c, prev[0], next[0]))
  }

  predicate OutboundsHot(c: Codec, prev: string, next: string) {
    && Outbounds(c, prev).Some? && Outbounds(c, next).Some?
    && SameDefault(c, Outbounds(c, prev).value, Outbounds(c, next).value)
  }

  /** routingWithoutReloadable: the text that is fixed at process start. */
  function RoutingWithoutReloadable(c: Codec, raw: string): Option<string> {
    if raw == [] then Some(Print(Obj(map[])))
    else match c.decode(raw)
      case None => None
      case Some(v) =>
        if v.Null? then Some(Print(Null))
        else if v.Obj? then Some(Print(Obj(v.members - {"rules", "balancers"})))
        else None
  }

  predicate RoutingHot(c: Codec, prev: string, next: string) {
    prev == next
    || (prev != [] && next != []
        && RoutingWithoutReloadable(c, prev).Some?
        && RoutingWithoutReloadable(c, prev) == RoutingWithoutReloadable(c, next))
  }

  /** ComputeHotDiff returns ok. */
  predicate Hot(c: Codec, prev: Config, next: Config) {
    && StaticUnchanged(c, prev, next)
    && InboundsHot(c, prev.inbounds, next.inbounds, ApiTag(c, next.api))
    && OutboundsHot(c, prev.outbounds, next.outbounds)
    && RoutingHot(c, prev.router, next.router)
  }

  datatype Patch = Patch(
    removedInbounds: seq<string>, addedInbounds: seq<Handler>,
    removedOutbounds: seq<string>, addedOutbounds: seq<Handler>,
    routing: Option<string>)

  function AddedInbounds(c: Codec, prev: seq<Handler>, next: seq<Handler>): seq<Handler> {
    WireAll(c, Replacements(c, prev, next) + Fresh(prev, next))
  }

  /** The operations ComputeHotDiff returns when it returns ok. */
  function PatchOf(c: Codec, prev: Config, next: Config): Patch
    requires Hot(c, prev, next)
  {
    var oldOut, newOut := Outbounds(c, prev.outbounds).value, Outbounds(c, next.outbounds).value;
    Patch(Dropped(c, prev.inbounds, next.inbounds),
          AddedInbounds(c, prev.inbounds, next.inbounds),
          Dropped(c, oldOut, newOut),
          Replacements(c, oldOut, newOut) + Fresh(oldOut, newOut),
          if prev.router == next.router then None else Some(next.router))
  }

  lemma AppendTwice(c: Codec, start: seq<Handler>, prev: seq<Handler>, next: seq<Handler>)
    ensures start + WireAll(c, Replacements(c, prev, next)) + WireAll(c, Fresh(prev, next))
         == start + AddedInbounds(c, prev, next)
  {
    WireAppend(c, Replacements(c, prev, next), Fresh(prev, next));
    Reassociate(start, WireAll(c, Replacements(c, prev, next)), WireAll(c, Fresh(prev, next)));
  }

  // ------------------------------------------------------------------ lookups

  lemma {:induction false} FindSound(hs: seq<Handler>, tag: string)
    ensures Find(hs, tag).Some? ==> Find(hs, tag).value in hs && Find(hs, tag).value.tag == tag
    ensures (exists i :: 0 <= i < |hs| && hs[i].tag == tag) <==> Find(hs, tag).Some?
  {
    if hs != [] {
      FindSound(hs[1..], tag);
      if hs[0].tag != tag && Find(hs[1..], tag).Some? {
        var i :| 0 <= i < |hs[1..]| && hs[1..][i].tag == tag;
        assert hs[i + 1].tag == tag;
      }
      if i :| 0 <= i < |hs| && hs[i].tag == tag {
        assert i == 0 || hs[1..][i - 1].tag == tag;
      }
    }
  }

  lemma FindUsable(hs: seq<Handler>, i: nat)
    requires Usable(hs) && i < |hs|
    ensures Find(hs, hs[i].tag) == Some(hs[i])
  {
    FindSound(hs, hs[i].tag);
  }

  ghost predicate Indexes(byTag: map<string, Handler>, hs: seq<Handler>) {
    forall t :: (t in byTag <==> Find(hs, t).Some?) && (t in byTag ==> Find(hs, t) == Some(byTag[t]))
  }

  lemma {:induction false} FindSnoc(hs: seq<Handler>, h: Handler, tag: string)
    ensures Find(hs + [h], tag)
         == if Find(hs, tag).Some? then Find(hs, tag) else if h.tag == tag then Some(h) else None
  {
    if hs == [] {
      assert hs + [h] == [h] && Find([h][1..], tag) == None;
    } else {
      assert (hs + [h])[1..] == hs[1..] + [h];
      FindSnoc(hs[1..], h, tag);
    }
  }

  lemma IndexSnoc(byTag: map<string, Handler>, hs: seq<Handler>, h: Handler)
    requires Indexes(byTag, hs) && h.tag !in byTag
    ensures Indexes(byTag[h.tag := h], hs + [h])
  {
    forall t { FindSnoc(hs, h, t); }
  }

  lemma IndexUsable(byTag: map<string, Handler>, hs: seq<Handler>, h: Handler)
    requires Indexes(byTag, hs) && Usable(hs)
    ensures Usable(hs + [h]) <==> h.tag != "" && h.tag !in byTag
  {
    FindSound(hs, h.tag);
    var xs := hs + [h];
    assert xs[|hs|] == h;
    assert forall i :: 0 <= i < |hs| ==> xs[i] == hs[i];
  }

  lemma UsablePrefix(hs: seq<Handler>, n: nat)
    requires n <= |hs| && Usable(hs)
    ensures Usable(hs[..n])
  {
  }

  // --------------------------------------------------------------- the code

  method InboundsByTag(inbounds: seq<Inbound>) returns (byTag: map<string, Handler>, ok: bool)
    ensures ok <==> Usable(inbounds)
    ensures ok ==> Indexes(byTag, inbounds)
  {
    byTag := map[];
    for i := 0 to |inbounds|
      invariant Usable(inbounds[..i]) && Indexes(byTag, inbounds[..i])
    {
      var tag := inbounds[i].tag;
      assert inbounds[..i + 1] == inbounds[..i] + [inbounds[i]];
      IndexUsable(byTag, inbounds[..i], inbounds[i]);
      if tag == "" || tag in byTag {
        return byTag, false;
      }
      IndexSnoc(byTag, inbounds[..i], inbounds[i]);
      byTag := byTag[tag := inbounds[i]];
    }
    assert inbounds[..|inbounds|] == inbounds;
    return byTag, true;
  }

  /** The loops of diffOutbounds that index the parsed entries. */
  method IndexByTag(entries: seq<Handler>) returns (byTag: map<string, Handler>)
    requires Usable(entries)
    ensures Indexes(byTag, entries)
  {
    byTag := map[];
    for i := 0 to |entries|
      invariant Indexes(byTag, entries[..i])
    {
      assert entries[..i + 1] == entries[..i] + [entries[i]];
      UsablePrefix(entries, i);
      UsablePrefix(entries, i + 1);
      IndexUsable(byTag, entries[..i], entries[i]);
      IndexSnoc(byTag, entries[..i], entries[i]);
      byTag := byTag[entries[i].tag := entries[i]];
    }
    assert entries[..|entries|] == entries;
  }

  method ParseOutbounds(c: Codec, raw: string) returns (entries: seq<Handler>, ok: bool)
    ensures ok <==> Outbounds(c, raw).Some?
    ensures ok ==> entries == Outbounds(c, raw).value
  {
    if |raw| == 0 {
      return [], true;
    }
    var elems := c.elements(raw);
    if elems.None? {
      return [], false;
    }
    entries := [];
    var seen: map<string, Handler> := map[];
    for i := 0 to |elems.value|
      invariant entries == Entries(c, elems.value)[..i]
      invariant Usable(entries) && Indexes(seen, entries)
      invariant forall j :: 0 <= j < i ==> EntryReadable(c, elems.value[j])
    {
      var elem := elems.value[i];
      var meta := c.tagOf(elem);
      ghost var all := Entries(c, elems.value);
      assert all[..i + 1] == entries + [Entry(c, elem)];
      IndexUsable(seen, entries, Entry(c, elem));
      if Usable(all) {
        UsablePrefix(all, i + 1);
      }
      if meta.None? || meta.value == "" || meta.value in seen {
        return [], false;
      }
      IndexSnoc(seen, entries, Entry(c, elem));
      seen := seen[meta.value := Entry(c, elem)];
      if CanonicalJSON(c, elem).None? {
        return [], false;
      }
      entries := entries + [Entry(c, elem)];
    }
    assert Entries(c, elems.value)[..|elems.value|] == Entries(c, elems.value);
    return entries, true;
  }

  class HotDiff {
    var removedInboundTags: seq<string>
    var addedInbounds: seq<Handler>
    var removedOutboundTags: seq<string>
    var addedOutbounds: seq<Handler>
    var routingConfig: Option<string>

    constructor ()
      ensures Value() == Patch([], [], [], [], None)
    {
      removedInboundTags, addedInbounds, removedOutboundTags, addedOutbounds := [], [], [], [];
      routingConfig := None;
    }

    ghost function Value(): Patch
      reads this
    {
      Patch(removedInboundTags, addedInbounds, removedOutboundTags, addedOutbounds, routingConfig)
    }

    /** diffInbounds. */
    method DiffInbounds(c: Codec, oldCfg: Config, newCfg: Config) returns (ok: bool)
      modifies `removedInboundTags, `addedInbounds
      ensures ok <==> InboundsHot(c, oldCfg.inbounds, newCfg.inbounds, ApiTag(c, newCfg.api))
      ensures ok ==> removedInboundTags == old(removedInboundTags) + Dropped(c, oldCfg.inbounds, newCfg.inbounds)
      ensures ok ==> addedInbounds == old(addedInbounds) + AddedInbounds(c, oldCfg.inbounds, newCfg.inbounds)
    {
      var olds, news := oldCfg.inbounds, newCfg.inbounds;
      var oldByTag, okOld := InboundsByTag(olds);
      if !okOld {
        return false;
      }
      var newByTag, okNew := InboundsByTag(news);
      if !okNew {
        return false;
      }
      var apiTag := ApiTag(c, newCfg.api);
      ok := ReplaceChanged(c, olds, news, newByTag, apiTag);
      if !ok {
        return;
      }
      ok := AppendFresh(c, olds, oldByTag, news, apiTag);
      AppendTwice(c, old(addedInbounds), olds, news);
    }

    /** The loop of diffInbounds over the old inbounds. */
    method ReplaceChanged(c: Codec, olds: seq<Handler>, news: seq<Handler>, newByTag: map<string, Handler>,
                          apiTag: string)
      returns (ok: bool)
      requires Indexes(newByTag, news)
      modifies `removedInboundTags, `addedInbounds
      ensures ok <==> forall i :: 0 <= i < |olds| ==> OldInboundHot(c, olds[i], news, apiTag)
      ensures ok ==> removedInboundTags == old(removedInboundTags) + Dropped(c, olds, news)
      ensures ok ==> addedInbounds == old(addedInbounds) + WireAll(c, Replacements(c, olds, news))
    {
      assert old(removedInboundTags) + [] == old(removedInboundTags);
      assert old(addedInbounds) + [] == old(addedInbounds);
      for i := 0 to |olds|
        invariant forall j :: 0 <= j < i ==> OldInboundHot(c, olds[j], news, apiTag)
        invariant removedInboundTags == old(removedInboundTags) + Dropped(c, olds[..i], news)
        invariant addedInbounds == old(addedInbounds) + WireAll(c, Replacements(c, olds[..i], news))
      {
        var oldIb := olds[i];
        OldStep(c, olds, news, i);
        ghost var found := Find(news, oldIb.tag);
        assert found == if oldIb.tag in newByTag then Some(newByTag[oldIb.tag]) else None;
        if oldIb.tag in newByTag && Same(c, oldIb, newByTag[oldIb.tag]) {
          assert Kept(c, oldIb, news);
          continue;
        }
        assert !Kept(c, oldIb, news);
        if oldIb.tag == apiTag || oldIb.tag == "api" {
          assert !OldInboundHot(c, oldIb, news, apiTag);
          return false;
        }
        if oldIb.tag !in newByTag {
          assert !OldInboundHot(c, oldIb, news, apiTag);
          return false;
        }
        var newIb := newByTag[oldIb.tag];
        removedInboundTags := removedInboundTags + [oldIb.tag];
        if !Emittable(c, newIb) {
          assert !OldInboundHot(c, oldIb, news, apiTag);
          return false;
        }
        WireAppend(c, Replacements(c, olds[..i], news), [newIb]);
        addedInbounds := addedInbounds + [Wire(c, newIb)];
      }
      assert olds[..|olds|] == olds;
      return true;
    }

    /** The loop of diffInbounds over the new inbounds. */
    method AppendFresh(c: Codec, olds: seq<Handler>, oldByTag: map<string, Handler>, news: seq<Handler>, apiTag: string)
      returns (ok: bool)
      requires Indexes(oldByTag, olds)
      modifies this`addedInbounds
      ensures ok <==> forall i :: 0 <= i < |news| ==> NewInboundHot(c, olds, news[i], apiTag)
      ensures ok ==> addedInbounds == old(addedInbounds) + WireAll(c, Fresh(olds, news))
    {
      for i := 0 to |news|
        invariant forall j :: 0 <= j < i ==> NewInboundHot(c, olds, news[j], apiTag)
        invariant addedInbounds == old(addedInbounds) + WireAll(c, Fresh(olds, news[..i]))
      {
        var newIb := news[i];
        FreshStep(olds, news, i);
        if newIb.tag in oldByTag {
          continue;
        }
        if newIb.tag == apiTag || newIb.tag == "api" {
          assert !NewInboundHot(c, olds, newIb, apiTag);
          return false;
        }
        if !Emittable(c, newIb) {
          assert !NewInboundHot(c, olds, newIb, apiTag);
          return false;
        }
        WireAppend(c, Fresh(olds, news[..i]), [newIb]);
        addedInbounds := addedInbounds + [Wire(c, newIb)];
      }
      assert news[..|news|] == news;
      return true;
    }

    /** diffOutbounds. */
    method DiffOutbounds(c: Codec, oldCfg: Config, newCfg: Config) returns (ok: bool)
      modifies `removedOutboundTags, `addedOutbounds
      ensures ok <==> OutboundsHot(c, oldCfg.outbounds, newCfg.outbounds)
      ensures ok ==>
        var olds, news := Outbounds(c, oldCfg.outbounds).value, Outbounds(c, newCfg.outbounds).value;
        && removedOutboundTags == old(removedOutboundTags) + Dropped(c, olds, news)
        && addedOutbounds == old(addedOutbounds) + (Replacements(c, olds, news) + Fresh(olds, news))
    {
      var olds, okOld := ParseOutbounds(c, oldCfg.outbounds);
      if !okOld {
        return false;
      }
      var news, okNew := ParseOutbounds(c, newCfg.outbounds);
      if !okNew {
        return false;
      }
      if (|olds| == 0) != (|news| == 0) {
        return false;
      }
      if |olds| > 0 {
        if olds[0].tag != news[0].tag || !RawEqualNormalized(c, olds[0].raw, news[0].raw) {
          return false;
        }
      }
      var oldByTag := IndexByTag(olds);
      var newByTag := IndexByTag(news);
      ReplaceChangedOutbounds(c, olds, news, newByTag);
      AppendFreshOutbounds(olds, oldByTag, news);
      Reassociate(old(addedOutbounds), Replacements(c, olds, news), Fresh(olds, news));
      return true;
    }

    /** The loop of diffOutbounds over the old outbounds. */
    method ReplaceChangedOutbounds(c: Codec, olds: seq<Handler>, news: seq<Handler>, newByTag: map<string, Handler>)
      requires Indexes(newByTag, news)
      modifies `removedOutboundTags, `addedOutbounds
      ensures removedOutboundTags == old(removedOutboundTags) + Dropped(c, olds, news)
      ensures addedOutbounds == old(addedOutbounds) + Replacements(c, olds, news)
    {
      for i := 0 to |olds|
        invariant removedOutboundTags == old(removedOutboundTags) + Dropped(c, olds[..i], news)
        invariant addedOutbounds == old(addedOutbounds) + Replacements(c, olds[..i], news)
      {
        var oldE := olds[i];
        OldStep(c, olds, news, i);
        if oldE.tag in newByTag && Same(c, oldE, newByTag[oldE.tag]) {
          continue;
        }
        removedOutboundTags := removedOutboundTags + [oldE.tag];
        if oldE.tag in newByTag {
          addedOutbounds := addedOutbounds + [newByTag[oldE.tag]];
        }
      }
      assert olds[..|olds|] == olds;
    }

    /** The loop of diffOutbounds over the new outbounds. */
    method AppendFreshOutbounds(olds: seq<Handler>, oldByTag: map<string, Handler>, news: seq<Handler>)
      requires Indexes(oldByTag, olds)
      modifies `addedOutbounds
      ensures addedOutbounds == old(addedOutbounds) + Fresh(olds, news)
    {
      for i := 0 to |news|
        invariant addedOutbounds == old(addedOutbounds) + Fresh(olds, news[..i])
      {
        var newE := news[i];
        FreshStep(olds, news, i);
        if newE.tag !in oldByTag {
          addedOutbounds := addedOutbounds + [newE];
        }
      }
      assert news[..|news|] == news;
    }

    /** diffRouting. */
    method DiffRouting(c: Codec, oldCfg: Config, newCfg: Config) returns (ok: bool)
      modifies `routingConfig
      ensures ok <==> RoutingHot(c, oldCfg.router, newCfg.router)
      ensures ok ==> routingConfig == if oldCfg.router == newCfg.router then old(routingConfig)
                                      else Some(newCfg.router)
    {
      if oldCfg.router == newCfg.router {
        return true;
      }
      if |oldCfg.router| == 0 || |newCfg.router| == 0 {
        return false;
      }
      var oldRest := RoutingWithoutReloadable(c, oldCfg.router);
      if oldRest.None? {
        return false;
      }
      var newRest := RoutingWithoutReloadable(c, newCfg.router);
      if newRest.None? {
        return false;
      }
      if oldRest.value != newRest.value {
        return false;
      }
      routingConfig := Some(newCfg.router);
      return true;
    }
  }

  /** The loop of ComputeHotDiff over the sections that have no reload API. */
  method SectionsUnchanged(c: Codec, olds: seq<string>, news: seq<string>) returns (ok: bool)
    requires |olds| == |news|
    ensures ok <==> forall i :: 0 <= i < |olds| ==> RawEqualNormalized(c, olds[i], news[i])
  {
    for i := 0 to |olds|
      invariant forall j :: 0 <= j < i ==> RawEqualNormalized(c, olds[j], news[j])
    {
      if !RawEqualNormalized(c, olds[i], news[i]) {
        return false;
      }
    }
    return true;
  }

  /** ComputeHotDiff. A missing config is the nil pointer of the original. */
  method ComputeHotDiff(c: Codec, oldCfg: Option<Config>, newCfg: Option<Config>)
    returns (diff: HotDiff, ok: bool)
    ensures fresh(diff)
    ensures ok <==> oldCfg.Some? && newCfg.Some? && Hot(c, oldCfg.value, newCfg.value)
    ensures ok ==> diff.Value() == PatchOf(c, oldCfg.value, newCfg.value)
  {
    diff := new HotDiff();
    if oldCfg.None? || newCfg.None? {
      return diff, false;
    }
    ok := SectionsUnchanged(c, StaticSections(oldCfg.value), StaticSections(newCfg.value));
    if !ok {
      return;
    }
    ok := diff.DiffInbounds(c, oldCfg.value, newCfg.value);
    if !ok {
      return;
    }
    ok := diff.DiffOutbounds(c, oldCfg.value, newCfg.value);
    if !ok {
      return;
    }
    ok := diff.DiffRouting(c, oldCfg.value, newCfg.value);
  }
}
