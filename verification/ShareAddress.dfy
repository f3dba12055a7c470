/** Which address a client's configuration names. Rendering overwrites the inbound's own
    listen address and port in place, and the next client of the same inbound resolves
    its address from what was left there (internal/sub/service.go, json_service.go). */
module ShareAddress {
  import opened Text

  datatype IpKind = NotAnIp | Loopback | Unspecified | Ordinary

  /** What one request knows: node addresses, the configured domains, the host the
      subscriber asked for, and how texts parse. */
  datatype Panel = Panel(nodes: map<int, string>, subDomain: string, webDomain: string, address: string,
                         parseIP: string -> IpKind, trim: string -> string)

  /** The fields of an inbound that rendering never writes. */
  datatype Sharing = Sharing(nodeId: Option<int>, strategy: string, shareAddr: string)

  datatype Endpoint = Endpoint(dest: string, port: int)

  class Inbound {
    const sharing: Sharing
    var listen: string
    var port: int

    constructor (sharing: Sharing, listen: string, port: int)
      ensures this.sharing == sharing && this.listen == listen && this.port == port
    {
      this.sharing := sharing;
      this.listen := listen;
      this.port := port;
    }
  }

  // ----------------------------------------------------------------- resolving

  predicate IsRoutableHost(p: Panel, host: string) {
    host != "" && !p.parseIP(host).Loopback? && !p.parseIP(host).Unspecified?
  }

  function ConfiguredPublicHost(p: Panel): string {
    if p.subDomain != "" then p.subDomain else p.webDomain
  }

  function NodeAddress(p: Panel, s: Sharing): string {
    if s.nodeId.Some? && s.nodeId.value in p.nodes then p.nodes[s.nodeId.value] else ""
  }

  /** A listen address that may be advertised, or nothing. */
  function ListenAddress(p: Panel, listen: string): string {
    if listen != "" && listen[0] != '@' && listen[0] != '/' && IsRoutableHost(p, listen) then listen else ""
  }

  function Candidates(p: Panel, s: Sharing, listen: string): seq<string> {
    var node, own := NodeAddress(p, s), ListenAddress(p, listen);
    if s.strategy == "listen" then [own, node]
    else if s.strategy == "custom" then [p.trim(s.shareAddr), node, own]
    else [node, own]
  }

  function FirstOf(candidates: seq<string>, last: string): string {
    if candidates == [] then last
    else if candidates[0] != "" then candidates[0]
    else FirstOf(candidates[1..], last)
  }

  function Resolve(p: Panel, s: Sharing, listen: string): string {
    FirstOf(Candidates(p, s, listen), FirstOf([ConfiguredPublicHost(p)], p.address))
  }

  method ResolveInboundAddress(p: Panel, inbound: Inbound) returns (address: string)
    ensures address == Resolve(p, inbound.sharing, inbound.listen)
  {
    var candidates := Candidates(p, inbound.sharing, inbound.listen);
    assert candidates[0..] == candidates;
    for i := 0 to |candidates|
      invariant Resolve(p, inbound.sharing, inbound.listen)
             == FirstOf(candidates[i..], FirstOf([ConfiguredPublicHost(p)], p.address))
    {
      assert candidates[i..][0] == candidates[i] && candidates[i..][1..] == candidates[i + 1..];
      if candidates[i] != "" {
        return candidates[i];
      }
    }
    FirstOfOne(ConfiguredPublicHost(p), p.address);
    if ConfiguredPublicHost(p) != "" {
      return ConfiguredPublicHost(p);
    }
    return p.address;
  }

  // ----------------------------------------------------------------- rendering

  /** Where a client without external endpoints is sent. */
  function DefaultDest(p: Panel, s: Sharing, host: string, listen: string): string {
    if Resolve(p, s, listen) != "" then Resolve(p, s, listen) else host
  }

  /** The endpoints a configuration should name: the external ones when there are any,
      otherwise the inbound itself. */
  function Wanted(p: Panel, s: Sharing, host: string, external: seq<Endpoint>, listen: string, port: int)
    : (r: seq<Endpoint>)
    ensures r != []
  {
    if external != [] then external else [Endpoint(DefaultDest(p, s, host, listen), port)]
  }

  /** The endpoint loop of getConfig: each turn writes the inbound and prints from it. */
  method GetConfig(p: Panel, inbound: Inbound, host: string, external: seq<Endpoint>) returns (printed: seq<Endpoint>)
    modifies inbound`listen, inbound`port
    ensures printed == Wanted(p, inbound.sharing, host, external, old(inbound.listen), old(inbound.port))
    ensures inbound.listen == printed[|printed| - 1].dest && inbound.port == printed[|printed| - 1].port
  {
    var defaultDest := ResolveInboundAddress(p, inbound);
    if defaultDest == "" {
      defaultDest := host;
    }
    var externalProxies := external;
    if |externalProxies| == 0 {
      externalProxies := [Endpoint(defaultDest, inbound.port)];
    }
    printed := [];
    for i := 0 to |externalProxies|
      invariant printed == externalProxies[..i]
      invariant i > 0 ==> inbound.listen == externalProxies[i - 1].dest && inbound.port == externalProxies[i - 1].port
    {
      inbound.listen := externalProxies[i].dest;
      inbound.port := externalProxies[i].port;
      printed := printed + [Endpoint(inbound.listen, inbound.port)];
      assert externalProxies[..i + 1] == externalProxies[..i] + [externalProxies[i]];
    }
    assert externalProxies[..|externalProxies|] == externalProxies;
  }

  /** Writing the resolved address over the listen address does not change what is
      resolved, whatever the strategy. */
  lemma OverwriteKeepsDefault(p: Panel, s: Sharing, host: string, listen: string)
    ensures DefaultDest(p, s, host, DefaultDest(p, s, host, listen)) == DefaultDest(p, s, host, listen)
  {
    ResolveCases(p, s, listen);
    ResolveCases(p, s, DefaultDest(p, s, host, listen));
  }

  /** The chain of preference, spelled out. */
  function Preferred(p: Panel, s: Sharing, listen: string): string {
    if s.strategy == "custom" && p.trim(s.shareAddr) != "" then p.trim(s.shareAddr)
    else if s.strategy == "listen" && ListenAddress(p, listen) != "" then ListenAddress(p, listen)
    else if NodeAddress(p, s) != "" then NodeAddress(p, s)
    else if ListenAddress(p, listen) != "" then ListenAddress(p, listen)
    else if ConfiguredPublicHost(p) != "" then ConfiguredPublicHost(p)
    else p.address
  }

  lemma FirstOfOne(a: string, last: string)
    ensures FirstOf([a], last) == if a != "" then a else last
  {
  }

  lemma FirstOfTwo(a: string, b: string, last: string)
    ensures FirstOf([a, b], last) == if a != "" then a else FirstOf([b], last)
  {
    assert [a, b][1..] == [b];
  }

  lemma ResolveCases(p: Panel, s: Sharing, listen: string)
    ensures Resolve(p, s, listen) == Preferred(p, s, listen)
  {
    var custom, node, own := p.trim(s.shareAddr), NodeAddress(p, s), ListenAddress(p, listen);
    var last := FirstOf([ConfiguredPublicHost(p)], p.address);
    FirstOfOne(ConfiguredPublicHost(p), p.address);
    if s.strategy == "listen" {
      FirstOfTwo(own, node, last);
      FirstOfOne(node, last);
    } else {
      FirstOfTwo(node, own, last);
      FirstOfOne(own, last);
      if s.strategy == "custom" {
        assert [custom, node, own][1..] == [node, own];
      }
    }
  }

  /** A bind address that only the server itself can use: none or a wildcard, a loopback
      address, or a unix-domain socket. */
  predicate IsInternal(p: Panel, listen: string) {
    listen == "" || listen[0] == '@' || listen[0] == '/'
    || p.parseIP(listen) == Loopback || p.parseIP(listen) == Unspecified
  }

  /** Such an address is never advertised: the custom or node address, the configured
      domains and the requested host are all that is left. */
  lemma InternalNeverAdvertised(p: Panel, s: Sharing, listen: string)
    requires IsInternal(p, listen)
    ensures Resolve(p, s, listen)
         == if s.strategy == "custom" && p.trim(s.shareAddr) != "" then p.trim(s.shareAddr)
            else if s.nodeId.Some? && s.nodeId.value in p.nodes && p.nodes[s.nodeId.value] != "" then
              p.nodes[s.nodeId.value]
            else if p.subDomain != "" then p.subDomain
            else if p.webDomain != "" then p.webDomain
            else p.address
  {
    ResolveCases(p, s, listen);
  }

  /** Any other one is, unless a custom address or, when the strategy is not to listen
      first, a node's comes before it. */
  lemma RoutableAdvertised(p: Panel, s: Sharing, listen: string)
    requires !IsInternal(p, listen)
    ensures Resolve(p, s, listen)
         == if s.strategy == "custom" && p.trim(s.shareAddr) != "" then p.trim(s.shareAddr)
            else if s.strategy != "listen" && s.nodeId.Some? && s.nodeId.value in p.nodes
                    && p.nodes[s.nodeId.value] != "" then
              p.nodes[s.nodeId.value]
            else listen
  {
    ResolveCases(p, s, listen);
  }

  /** Every client of an inbound is sent to the same endpoints, those the inbound had
      before anything was rendered. */
  method RenderClients(p: Panel, inbound: Inbound, host: string, external: seq<Endpoint>, clients: nat)
    returns (configs: seq<seq<Endpoint>>)
    modifies inbound`listen, inbound`port
    ensures |configs| == clients
    ensures var address := Resolve(p, inbound.sharing, old(inbound.listen));
      forall k :: 0 <= k < clients ==>
        configs[k] == if external != [] then external
                      else [Endpoint(if address != "" then address else host, old(inbound.port))]
  {
    configs := [];
    for i := 0 to clients
      invariant |configs| == i
      invariant Wanted(p, inbound.sharing, host, external, inbound.listen, inbound.port)
             == Wanted(p, inbound.sharing, host, external, old(inbound.listen), old(inbound.port))
      invariant forall k :: 0 <= k < i ==>
                  configs[k] == Wanted(p, inbound.sharing, host, external, old(inbound.listen), old(inbound.port))
    {
      OverwriteKeepsDefault(p, inbound.sharing, host, inbound.listen);
      var config := GetConfig(p, inbound, host, external);
      configs := configs + [config];
    }
  }

  // --------------------------------------------- what external endpoints leave behind

  /** A custom or a node address comes before the listen address. */
  predicate Outranked(p: Panel, s: Sharing) {
    s.strategy != "listen" && (NodeAddress(p, s) != "" || (s.strategy == "custom" && p.trim(s.shareAddr) != ""))
  }

  /** The address behind the listen address in the chain. */
  function Behind(p: Panel, s: Sharing): string {
    if s.strategy == "listen" && NodeAddress(p, s) != "" then NodeAddress(p, s)
    else if ConfiguredPublicHost(p) != "" then ConfiguredPublicHost(p)
    else p.address
  }

  /** The two listen addresses advertise the same, or only one of them advertises
      anything and that is what stands behind it in the chain. */
  predicate SameStanding(p: Panel, s: Sharing, own: string, other: string) {
    own == other || (own == "" && other == Behind(p, s)) || (other == "" && own == Behind(p, s))
  }

  /** After external endpoints the listen address is the last one's. What is resolved
      from it is the old address exactly when something outranks it or the old and the
      new listen address have the same standing. */
  lemma ResolutionStaysIff(p: Panel, s: Sharing, listen: string, dest: string)
    ensures Resolve(p, s, dest) == Resolve(p, s, listen)
       <==> Outranked(p, s) || SameStanding(p, s, ListenAddress(p, listen), ListenAddress(p, dest))
  {
    ResolveCases(p, s, listen);
    ResolveCases(p, s, dest);
  }

  function NeverAnIp(host: string): IpKind {
    NotAnIp
  }

  function Untrimmed(text: string): string {
    text
  }

  /** A panel without nodes and domains, asked for at the host "panel". */
  const PLAIN_PANEL := Panel(map[], "", "", "panel", NeverAnIp, Untrimmed)
  const NO_NODE := Sharing(None, "node", "")
  const CDN := "cdn"

  /** A wildcard inbound resolves to the host the subscriber asked for, and after one
      external endpoint to that endpoint's. */
  lemma ExternalEndpointMovesResolution()
    ensures Resolve(PLAIN_PANEL, NO_NODE, "") == "panel"
    ensures Resolve(PLAIN_PANEL, NO_NODE, CDN) == CDN
  {
    ResolveCases(PLAIN_PANEL, NO_NODE, "");
    ResolveCases(PLAIN_PANEL, NO_NODE, CDN);
  }
}
