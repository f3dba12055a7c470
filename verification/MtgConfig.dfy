/** What mtg finds in the TOML that internal/mtproto/manager.go renders: a reader for the
    part of TOML it uses, and what every key and table holds. */
module MtgConfig {
  import opened Text
  import opened MtgInstance

  /** A key with the text of its value, and the table it stands in; "" is the top. */
  datatype Item = Item(table: string, key: string, value: string)

  // ------------------------------------------------------------------- reading

  /** Index of the first occurrence of c, or the length. */
  function IndexOf(s: string, c: char): (n: nat)
    ensures n <= |s| && Free(s[..n], c) && (n < |s| ==> s[n] == c)
  {
    if s == "" || s[0] == c then 0
    else
      var n := IndexOf(s[1..], c);
      assert s[..n + 1] == [s[0]] + s[1..][..n];
      1 + n
  }

  predicate IsHeader(line: string) {
    |line| >= 2 && line[0] == '[' && line[|line| - 1] == ']'
  }

  /** The key and value of a line, when it has an equals sign between spaces. */
  function KeyValue(line: string): Option<(string, string)> {
    var n := IndexOf(line, ' ');
    if n + 3 <= |line| && line[n..n + 3] == " = " then Some((line[..n], line[n + 3..])) else None
  }

  /** Line by line: a header opens a table, a key belongs to the table opened last. */
  function ReadToml(table: string, s: string): seq<Item>
    decreases |s|
  {
    if s == "" then []
    else
      var n := IndexOf(s, '\n');
      var line, rest := s[..n], if n < |s| then s[n + 1..] else "";
      if IsHeader(line) then ReadToml(line[1..|line| - 1], rest)
      else match KeyValue(line)
        case Some((key, value)) => [Item(table, key, value)] + ReadToml(table, rest)
        case None => ReadToml(table, rest)
  }

  // ----------------------------------------------------- what should be there

  /** A key of a table, which may be left out. */
  datatype Setting = Setting(present: bool, key: string, value: string)

  function TopSettings(quote: string -> string, inst: Instance): seq<Setting> {
    var address := (if inst.listen == "" then "0.0.0.0" else inst.listen) + ":" + Itoa(inst.port);
    [Setting(true, "secret", quote(inst.secret)),
     Setting(true, "bind-to", quote(address)),
     Setting(inst.debug, "debug", "true"),
     Setting(inst.proxyProtocolListener, "proxy-protocol-listener", "true"),
     Setting(inst.preferIP != "", "prefer-ip", quote(inst.preferIP))]
  }

  function FrontingSettings(quote: string -> string, inst: Instance): seq<Setting> {
    [Setting(inst.frontingIP != "", "ip", quote(inst.frontingIP)),
     Setting(inst.frontingPort > 0, "port", Itoa(inst.frontingPort)),
     Setting(inst.frontingProxyProtocol, "proxy-protocol", "true")]
  }

  function NetworkSettings(inst: Instance): seq<Setting> {
    [Setting(inst.routeThroughXray && inst.xrayRoutePort > 0,
             "proxies", "[\"socks5://127.0.0.1:" + Itoa(inst.xrayRoutePort) + "\"]")]
  }

  function StatsSettings(metricsPort: int): seq<Setting> {
    [Setting(true, "enabled", "true"),
     Setting(true, "bind-to", "\"127.0.0.1:" + Itoa(metricsPort) + "\""),
     Setting(true, "http-path", "\"/metrics\""),
     Setting(true, "metric-prefix", "\"mtg\"")]
  }

  function ItemOf(table: string, s: Setting): seq<Item> {
    if s.present then [Item(table, s.key, s.value)] else []
  }

  /** The settings that are present, as entries of a table. */
  function Items(table: string, settings: seq<Setting>): seq<Item> {
    if settings == [] then []
    else Items(table, settings[..|settings| - 1]) + ItemOf(table, settings[|settings| - 1])
  }

  function ConfigItems(quote: string -> string, inst: Instance, metricsPort: int): seq<Item> {
    Items("", TopSettings(quote, inst))
    + (Items("domain-fronting", FrontingSettings(quote, inst))
    + (Items("network", NetworkSettings(inst))
    + Items("stats.prometheus", StatsSettings(metricsPort))))
  }

  // ------------------------------------------------------------- line by line

  function Line(key: string, value: string): string {
    key + " = " + value + "\n"
  }

  function LineOf(s: Setting): string {
    if s.present then Line(s.key, s.value) else ""
  }

  function Lines(settings: seq<Setting>): string {
    if settings == [] then ""
    else Lines(settings[..|settings| - 1]) + LineOf(settings[|settings| - 1])
  }

  lemma LinesSnoc(settings: seq<Setting>, s: Setting)
    ensures Lines(settings + [s]) == Lines(settings) + LineOf(s)
  {
    assert (settings + [s])[..|settings|] == settings;
  }

  lemma Lines1(a: Setting)
    ensures Lines([a]) == LineOf(a)
  {
    LinesSnoc([], a);
    assert [] + [a] == [a] && "" + LineOf(a) == LineOf(a);
  }

  lemma Lines3(a: Setting, b: Setting, c: Setting)
    ensures Lines([a, b, c]) == LineOf(a) + LineOf(b) + LineOf(c)
  {
    Lines1(a);
    LinesSnoc([a], b);
    LinesSnoc([a, b], c);
    assert [a] + [b] == [a, b] && [a, b] + [c] == [a, b, c];
  }

  lemma Lines5(a: Setting, b: Setting, c: Setting, d: Setting, e: Setting)
    ensures Lines([a, b, c, d]) == LineOf(a) + LineOf(b) + LineOf(c) + LineOf(d)
    ensures Lines([a, b, c, d, e]) == Lines([a, b, c, d]) + LineOf(e)
  {
    Lines3(a, b, c);
    LinesSnoc([a, b, c], d);
    LinesSnoc([a, b, c, d], e);
    assert [a, b, c] + [d] == [a, b, c, d] && [a, b, c, d] + [e] == [a, b, c, d, e];
  }

  lemma {:induction false} IndexFound(s: string, c: char, rest: string)
    requires Free(s, c)
    ensures IndexOf(s + ([c] + rest), c) == |s|
  {
    var t := s + ([c] + rest);
    if s == "" {
      assert t[0] == c;
    } else {
      IndexFound(s[1..], c, rest);
      assert t[1..] == s[1..] + ([c] + rest);
    }
  }

  lemma FirstLine(table: string, line: string, rest: string)
    requires Free(line, '\n')
    ensures ReadToml(table, line + ("\n" + rest))
         == if IsHeader(line) then ReadToml(line[1..|line| - 1], rest)
            else if KeyValue(line).Some? then
              [Item(table, KeyValue(line).value.0, KeyValue(line).value.1)] + ReadToml(table, rest)
            else ReadToml(table, rest)
  {
    var s := line + ("\n" + rest);
    IndexFound(line, '\n', rest);
    assert s[..|line|] == line && s[|line| + 1..] == rest;
  }

  /** A key as the panel writes them. */
  predicate BareKey(key: string) {
    key != "" && key[0] != '[' && Free(key, ' ') && Free(key, '\n')
  }

  lemma KeyLine(table: string, key: string, value: string, rest: string)
    requires BareKey(key) && Free(value, '\n')
    ensures ReadToml(table, Line(key, value) + rest) == [Item(table, key, value)] + ReadToml(table, rest)
  {
    var line := key + ([' '] + ("= " + value));
    IndexFound(key, ' ', "= " + value);
    assert line == key + " = " + value;
    assert line[|key|..|key| + 3] == " = " && line[..|key|] == key && line[|key| + 3..] == value;
    assert line[0] == key[0];
    Reassociate(line, "\n", rest);
    FirstLine(table, line, rest);
  }

  lemma Header(table: string, name: string, rest: string)
    requires Free(name, '\n')
    ensures ReadToml(table, "\n[" + name + "]\n" + rest) == ReadToml(name, rest)
  {
    var line := "[" + name + "]";
    assert "\n[" + name + "]\n" + rest == "" + ("\n" + (line + ("\n" + rest)));
    assert line[1..|line| - 1] == name;
    FirstLine(table, "", line + ("\n" + rest));
    FirstLine(table, line, rest);
  }

  predicate Writable(s: Setting) {
    BareKey(s.key) && Free(s.value, '\n')
  }

  lemma LineRead(table: string, s: Setting, rest: string)
    requires Writable(s)
    ensures ReadToml(table, LineOf(s) + rest) == ItemOf(table, s) + ReadToml(table, rest)
  {
    if s.present {
      KeyLine(table, s.key, s.value, rest);
    } else {
      assert "" + rest == rest;
    }
  }

  /** The lines of a table are read as its settings. */
  lemma {:induction false} LinesRead(table: string, settings: seq<Setting>, rest: string)
    requires forall i :: 0 <= i < |settings| ==> Writable(settings[i])
    ensures ReadToml(table, Lines(settings) + rest) == Items(table, settings) + ReadToml(table, rest)
  {
    if settings == [] {
      assert "" + rest == rest;
    } else {
      var n := |settings| - 1;
      var s := settings[n];
      LinesRead(table, settings[..n], LineOf(s) + rest);
      LineRead(table, s, rest);
      Reassociate(Lines(settings[..n]), LineOf(s), rest);
      Reassociate(Items(table, settings[..n]), ItemOf(table, s), ReadToml(table, rest));
    }
  }

  /** A table behind its header. */
  function TableText(name: string, settings: seq<Setting>): string {
    "\n[" + name + "]\n" + Lines(settings)
  }

  lemma TableRead(table: string, name: string, settings: seq<Setting>, rest: string)
    requires Free(name, '\n') && forall i :: 0 <= i < |settings| ==> Writable(settings[i])
    ensures ReadToml(table, TableText(name, settings) + rest) == Items(name, settings) + ReadToml(name, rest)
  {
    Reassociate("\n[" + name + "]\n", Lines(settings), rest);
    Header(table, name, Lines(settings) + rest);
    LinesRead(name, settings, rest);
  }

  lemma {:induction false} NoItems(table: string, settings: seq<Setting>)
    requires forall i :: 0 <= i < |settings| ==> !settings[i].present
    ensures Items(table, settings) == []
  {
    if settings != [] {
      NoItems(table, settings[..|settings| - 1]);
    }
  }

  /** A table that is left out when it would be empty; after is the table that is open
      behind it. */
  lemma TableIfRead(table: string, name: string, settings: seq<Setting>, text: string, rest: string)
    returns (after: string)
    requires Free(name, '\n') && forall i :: 0 <= i < |settings| ==> Writable(settings[i])
    requires text == TableText(name, settings)
          || (text == "" && forall i :: 0 <= i < |settings| ==> !settings[i].present)
    ensures ReadToml(table, text + rest) == Items(name, settings) + ReadToml(after, rest)
  {
    if text == "" {
      after := table;
      NoItems(name, settings);
      assert "" + rest == rest && [] + ReadToml(table, rest) == ReadToml(table, rest);
    } else {
      after := name;
      TableRead(table, name, settings, rest);
    }
  }

  // ------------------------------------------------------------ table by table

  lemma AddressOneLine(open: string, i: int, close: string)
    requires Free(open, '\n') && Free(close, '\n')
    ensures Free(open + Itoa(i) + close, '\n')
  {
  }

  lemma TopKeys()
    ensures BareKey("secret") && BareKey("bind-to") && BareKey("debug") && BareKey("prefer-ip")
    ensures BareKey("proxy-protocol-listener")
  {
  }

  lemma TableKeys()
    ensures BareKey("ip") && BareKey("port") && BareKey("proxy-protocol") && BareKey("proxies")
    ensures BareKey("enabled") && BareKey("bind-to") && BareKey("http-path") && BareKey("metric-prefix")
  {
  }

  lemma TopWritable(quote: string -> string, inst: Instance, i: nat)
    requires IsQuote(quote) && i < |TopSettings(quote, inst)|
    ensures Writable(TopSettings(quote, inst)[i])
  {
    TopKeys();
  }

  lemma FrontingWritable(quote: string -> string, inst: Instance, i: nat)
    requires IsQuote(quote) && i < |FrontingSettings(quote, inst)|
    ensures Writable(FrontingSettings(quote, inst)[i])
  {
    TableKeys();
    AddressOneLine("", inst.frontingPort, "");
    assert "" + Itoa(inst.frontingPort) + "" == Itoa(inst.frontingPort);
  }

  lemma NetworkWritable(inst: Instance)
    ensures Writable(NetworkSettings(inst)[0])
  {
    TableKeys();
    AddressOneLine("[\"socks5://127.0.0.1:", inst.xrayRoutePort, "\"]");
  }

  lemma StatsWritable(metricsPort: int, i: nat)
    requires i < |StatsSettings(metricsPort)|
    ensures Writable(StatsSettings(metricsPort)[i])
  {
    TableKeys();
    AddressOneLine("\"127.0.0.1:", metricsPort, "\"");
  }

  lemma TopShape(quote: string -> string, inst: Instance, metricsPort: int)
    ensures RenderConfig(quote, inst, metricsPort)
         == Lines(TopSettings(quote, inst)) + Sections(quote, TuningOf(inst), metricsPort)
  {
    var t, s := TuningOf(inst), TopSettings(quote, inst);
    var sections := Sections(quote, t, metricsPort);
    Lines5(s[0], s[1], s[2], s[3], s[4]);
    SecretShape(quote, t);
    MiddleShape(quote, t, s[0], s[1], s[2], s[3]);
    PreferShape(quote, t, metricsPort);
    var first, middle := LineOf(s[0]), MiddleLines(quote, t);
    Reassociate(first, middle, LineOf(s[4]) + sections);
    Reassociate(first + middle, LineOf(s[4]), sections);
    assert s == [s[0], s[1], s[2], s[3], s[4]];
  }

  lemma SecretShape(quote: string -> string, t: Tuning)
    ensures SecretLine(quote, t) + "\n" == Line("secret", quote(t.secret))
  {
    assert "secret = " == "secret" + " = ";
  }

  lemma MiddleShape(quote: string -> string, t: Tuning, a: Setting, b: Setting, c: Setting, d: Setting)
    requires b == Setting(true, "bind-to", quote(t.bindTo)) && c == Setting(t.debug, "debug", "true")
    requires d == Setting(t.proxyProtocolListener, "proxy-protocol-listener", "true")
    ensures LineOf(a) + LineOf(b) + LineOf(c) + LineOf(d) == LineOf(a) + MiddleLines(quote, t)
  {
    assert "bind-to = " == "bind-to" + " = ";
    assert LineOf(c) == if t.debug then "debug = true\n" else "";
    assert LineOf(d) == if t.proxyProtocolListener then "proxy-protocol-listener = true\n" else "";
    Reassociate(LineOf(a), LineOf(b), LineOf(c));
    Reassociate(LineOf(a), LineOf(b) + LineOf(c), LineOf(d));
  }

  lemma PreferShape(quote: string -> string, t: Tuning, metricsPort: int)
    ensures FromPrefer(quote, t, metricsPort)
         == LineOf(Setting(t.preferIP != "", "prefer-ip", quote(t.preferIP))) + Sections(quote, t, metricsPort)
  {
    assert "prefer-ip = " == "prefer-ip" + " = ";
  }

  lemma FrontingShape(quote: string -> string, inst: Instance)
    requires inst.frontingIP != "" || inst.frontingPort > 0 || inst.frontingProxyProtocol
    ensures FrontingSection(quote, TuningOf(inst)) == TableText("domain-fronting", FrontingSettings(quote, inst))
  {
    var s, open := FrontingSettings(quote, inst), "\n[domain-fronting]\n";
    var a, b, c := LineOf(s[0]), LineOf(s[1]), LineOf(s[2]);
    Lines3(s[0], s[1], s[2]);
    assert s == [s[0], s[1], s[2]];
    assert "\n[" + "domain-fronting" + "]\n" == open;
    FrontingLines(quote, inst);
    Reassociate(open, a, b);
    Reassociate(open, a + b, c);
  }

  lemma FrontingLines(quote: string -> string, inst: Instance)
    ensures var s := FrontingSettings(quote, inst);
      && LineOf(s[0]) == (if inst.frontingIP != "" then "ip = " + quote(inst.frontingIP) + "\n" else "")
      && LineOf(s[1]) == (if inst.frontingPort > 0 then "port = " + Itoa(inst.frontingPort) + "\n" else "")
      && LineOf(s[2]) == (if inst.frontingProxyProtocol then "proxy-protocol = true\n" else "")
  {
    assert "ip = " == "ip" + " = " && "port = " == "port" + " = ";
    assert "proxy-protocol = true\n" == Line("proxy-protocol", "true");
  }

  lemma NetworkHeader()
    ensures "\n[network]\n" == "\n[" + "network" + "]\n"
  {
  }

  lemma NetworkLine(port: string)
    ensures "proxies = [\"socks5://127.0.0.1:" + port + "\"]\n"
         == Line("proxies", "[\"socks5://127.0.0.1:" + port + "\"]")
  {
    assert "proxies = [\"socks5://127.0.0.1:" == "proxies" + " = " + "[\"socks5://127.0.0.1:";
    assert "\"]" + "\n" == "\"]\n";
    AroundPort("proxies" + " = ", "[\"socks5://127.0.0.1:", port, "\"]", "\n");
  }

  lemma NetworkShape(inst: Instance)
    requires inst.routeThroughXray && inst.xrayRoutePort > 0
    ensures NetworkSection(TuningOf(inst)) == TableText("network", NetworkSettings(inst))
  {
    Lines1(NetworkSettings(inst)[0]);
    NetworkHeader();
    NetworkLine(Itoa(inst.xrayRoutePort));
  }

  lemma AroundPort(key: string, open: string, port: string, close: string, end: string)
    ensures key + open + port + (close + end) == key + (open + port + close) + end
  {
  }

  lemma FirstStatsLines(metricsPort: int)
    ensures var s := StatsSettings(metricsPort);
      && LineOf(s[0]) == "enabled = true\n"
      && LineOf(s[1]) == "bind-to = \"127.0.0.1:" + Itoa(metricsPort) + "\"\n"
  {
    assert "enabled = true\n" == "enabled" + " = " + "true" + "\n";
    assert "bind-to = \"127.0.0.1:" == "bind-to" + " = " + "\"127.0.0.1:";
    AroundPort("bind-to" + " = ", "\"127.0.0.1:", Itoa(metricsPort), "\"", "\n");
    assert "\"" + "\n" == "\"\n";
  }

  lemma LastStatsLines(metricsPort: int)
    ensures var s := StatsSettings(metricsPort);
      && LineOf(s[2]) == "http-path = \"/metrics\"\n"
      && LineOf(s[3]) == "metric-prefix = \"mtg\"\n"
  {
    assert "http-path = \"/metrics\"\n" == "http-path" + " = " + "\"/metrics\"" + "\n";
    assert "metric-prefix = \"mtg\"\n" == "metric-prefix" + " = " + "\"mtg\"" + "\n";
  }

  lemma StatsHeader()
    ensures "\n[stats.prometheus]\n" == "\n[" + "stats.prometheus" + "]\n"
  {
  }

  lemma FourLines(a: Setting, b: Setting, c: Setting, d: Setting, open: string)
    ensures open + Lines([a, b, c, d]) == open + LineOf(a) + LineOf(b) + LineOf(c) + LineOf(d)
  {
    Lines5(a, b, c, d, a);
    Reassociate(open, LineOf(a), LineOf(b));
    Reassociate(open, LineOf(a) + LineOf(b), LineOf(c));
    Reassociate(open, LineOf(a) + LineOf(b) + LineOf(c), LineOf(d));
  }

  lemma StatsShape(metricsPort: int)
    ensures StatsSection(metricsPort) == TableText("stats.prometheus", StatsSettings(metricsPort))
  {
    var s := StatsSettings(metricsPort);
    FirstStatsLines(metricsPort);
    LastStatsLines(metricsPort);
    StatsHeader();
    FourLines(s[0], s[1], s[2], s[3], "\n[stats.prometheus]\n");
  }

  lemma FrontingRead(quote: string -> string, inst: Instance, table: string, rest: string) returns (after: string)
    requires IsQuote(quote)
    ensures ReadToml(table, FrontingSection(quote, TuningOf(inst)) + rest)
         == Items("domain-fronting", FrontingSettings(quote, inst)) + ReadToml(after, rest)
  {
    var s := FrontingSettings(quote, inst);
    forall i | 0 <= i < |s| ensures Writable(s[i]) {
      FrontingWritable(quote, inst, i);
    }
    if inst.frontingIP != "" || inst.frontingPort > 0 || inst.frontingProxyProtocol {
      FrontingShape(quote, inst);
    }
    after := TableIfRead(table, "domain-fronting", s, FrontingSection(quote, TuningOf(inst)), rest);
  }

  lemma NetworkRead(inst: Instance, table: string, rest: string) returns (after: string)
    ensures ReadToml(table, NetworkSection(TuningOf(inst)) + rest)
         == Items("network", NetworkSettings(inst)) + ReadToml(after, rest)
  {
    NetworkWritable(inst);
    if inst.routeThroughXray && inst.xrayRoutePort > 0 {
      NetworkShape(inst);
    }
    after := TableIfRead(table, "network", NetworkSettings(inst), NetworkSection(TuningOf(inst)), rest);
  }

  lemma StatsRead(table: string, metricsPort: int)
    ensures ReadToml(table, StatsSection(metricsPort)) == Items("stats.prometheus", StatsSettings(metricsPort))
  {
    var s := StatsSettings(metricsPort);
    forall i | 0 <= i < |s| ensures Writable(s[i]) {
      StatsWritable(metricsPort, i);
    }
    StatsShape(metricsPort);
    TableRead(table, "stats.prometheus", s, "");
    assert StatsSection(metricsPort) + "" == StatsSection(metricsPort);
    assert Items("stats.prometheus", s) + [] == Items("stats.prometheus", s);
  }

  /** The rendered config holds every setting of the instance under its key and in its
      table, and nothing else: no table takes keys of another one in, and the optional
      keys in front stay at the top. */
  lemma ConfigReadsBack(quote: string -> string, inst: Instance, metricsPort: int)
    requires IsQuote(quote)
    ensures ReadToml("", RenderConfig(quote, inst, metricsPort)) == ConfigItems(quote, inst, metricsPort)
  {
    var t := TuningOf(inst);
    var fronting, network, stats := FrontingSection(quote, t), NetworkSection(t), StatsSection(metricsPort);
    TopShape(quote, inst, metricsPort);
    forall i | 0 <= i < |TopSettings(quote, inst)| ensures Writable(TopSettings(quote, inst)[i]) {
      TopWritable(quote, inst, i);
    }
    LinesRead("", TopSettings(quote, inst), Sections(quote, t, metricsPort));
    Reassociate(fronting, network, stats);
    var x := FrontingRead(quote, inst, "", network + stats);
    var y := NetworkRead(inst, x, stats);
    StatsRead(y, metricsPort);
  }
}
