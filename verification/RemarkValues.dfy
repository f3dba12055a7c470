/** What remark tokens resolve to (remarkVarValue in internal/sub/remark_vars.go), which of
    them tell a client's usage, and which say that it is unlimited. */
module RemarkValues {
  import opened Text
  import opened RemarkTemplate
  import opened RemarkExpand
  import opened RemarkUsage

  /** The client's traffic record. A negative expiry is a duration that has not begun. */
  datatype Stats = Stats(up: int, down: int, total: int, expiry: int, enable: bool)

  /** The time of the request, and how amounts and dates are written. */
  datatype Labels = Labels(
    now: int, formatTraffic: int -> string, calendar: int -> string, jalali: int -> string,
    percent: (int, int) -> string)

  const UNLIMITED := "\U{221E}"

  /** Integer division as Go does it. */
  function Quo(a: int, b: int): int
    requires b > 0
  {
    if a >= 0 then a / b else -((-a) / b)
  }

  function Left(total: int, used: int): int {
    if total - used > 0 then total - used else 0
  }

  /** clientStatus. */
  function Status(l: Labels, st: Stats): string {
    if !st.enable then "disabled"
    else if st.expiry > 0 && Quo(st.expiry, 1000) < l.now then "expired"
    else if st.total > 0 && st.up + st.down >= st.total then "depleted"
    else "active"
  }

  function StatusEmoji(l: Labels, st: Stats): string {
    var status := Status(l, st);
    if status == "active" then "\U{2705}"
    else if status == "expired" then "\U{23F3}"
    else "\U{1F6AB}"
  }

  /** Seconds until the expiry, or the duration that has not begun. */
  function Remaining(l: Labels, expiry: int): int {
    var exp := Quo(expiry, 1000);
    if exp > 0 then exp - l.now else -exp
  }

  function DaysLeft(l: Labels, expiry: int): string {
    if expiry == 0 then UNLIMITED
    else
      var days := Quo(Remaining(l, expiry), 86400);
      if days < 0 then "0" else Itoa(days)
  }

  function TimeLeft(l: Labels, expiry: int): string {
    if expiry == 0 then UNLIMITED
    else
      var secs := Remaining(l, expiry);
      if secs <= 0 then "0"
      else
        Duration(secs / 86400, secs % 86400 / 3600, secs % 3600 / 60)
  }

  function Duration(days: int, hours: int, mins: int): string {
    if days > 0 then Itoa(days) + "d " + Itoa(hours) + "h " + Itoa(mins) + "m"
    else if hours > 0 then Itoa(hours) + "h " + Itoa(mins) + "m"
    else Itoa(mins) + "m"
  }

  // The tokens that read the traffic record.

  function StatusValue(l: Labels, st: Stats, token: string): Option<string> {
    if token == "STATUS" then Some(Status(l, st))
    else if token == "STATUS_EMOJI" then Some(StatusEmoji(l, st))
    else if token == "USAGE_PERCENTAGE" then Some(if st.total <= 0 then "" else l.percent(st.up + st.down, st.total))
    else None
  }

  function ExpiryValue(l: Labels, st: Stats, token: string): Option<string> {
    if token == "DAYS_LEFT" then Some(DaysLeft(l, st.expiry))
    else if token == "TIME_LEFT" then Some(TimeLeft(l, st.expiry))
    else if token == "EXPIRE_DATE" then Some(if st.expiry <= 0 then "" else l.calendar(Quo(st.expiry, 1000)))
    else if token == "JALALI_EXPIRE_DATE" then Some(if st.expiry <= 0 then "" else l.jalali(Quo(st.expiry, 1000)))
    else if token == "EXPIRE_UNIX" then Some(if st.expiry <= 0 then "0" else Itoa(Quo(st.expiry, 1000)))
    else None
  }

  datatype Amount = Unlimited | Of(bytes: int)

  function AmountOf(st: Stats, token: string): Option<Amount> {
    if token == "TRAFFIC_USED" then Some(Of(st.up + st.down))
    else if token == "TRAFFIC_LEFT" then Some(if st.total <= 0 then Unlimited else Of(Left(st.total, st.up + st.down)))
    else if token == "TRAFFIC_TOTAL" then Some(if st.total <= 0 then Unlimited else Of(st.total))
    else if token == "UP" then Some(Of(st.up))
    else if token == "DOWN" then Some(Of(st.down))
    else None
  }

  function Shown(l: Labels, a: Amount): string {
    if a.Unlimited? then UNLIMITED else l.formatTraffic(a.bytes)
  }

  function TrafficValue(l: Labels, st: Stats, token: string): Option<string> {
    var a := AmountOf(st, token);
    if a.None? then None else Some(Shown(l, a.value))
  }

  function BytesValue(st: Stats, token: string): Option<string> {
    if token == "TRAFFIC_USED_BYTES" then Some(Itoa(st.up + st.down))
    else if token == "TRAFFIC_LEFT_BYTES" then
      Some(if st.total <= 0 then "0" else Itoa(Left(st.total, st.up + st.down)))
    else if token == "TRAFFIC_TOTAL_BYTES" then Some(Itoa(st.total))
    else None
  }

  function StatsValue(l: Labels, st: Stats, token: string): Option<string> {
    if StatusValue(l, st, token).Some? then StatusValue(l, st, token)
    else if ExpiryValue(l, st, token).Some? then ExpiryValue(l, st, token)
    else if TrafficValue(l, st, token).Some? then TrafficValue(l, st, token)
    else BytesValue(st, token)
  }

  /** remarkVarValue; identity is what the tokens resolve to that read the client, the
      inbound or the link instead of the traffic record. */
  function Value(l: Labels, identity: string -> string, st: Stats, token: string): string {
    var shown := StatsValue(l, st, token);
    if shown.Some? then shown.value else identity(token)
  }

  function ClientOf(l: Labels, identity: string -> string, st: Stats): Client {
    Client(token => Value(l, identity, st, token), DropTokens(), UNLIMITED)
  }

  // ------------------------------------------------------- what the values say

  /** The traffic tokens fit together: what is used is up and down, and what is left makes
      up the quota with it, or is nothing once the quota is used up. */
  lemma AmountsAddUp(st: Stats)
    ensures var used := st.up + st.down;
      && AmountOf(st, "UP") == Some(Of(st.up)) && AmountOf(st, "DOWN") == Some(Of(st.down))
      && AmountOf(st, "TRAFFIC_USED") == Some(Of(used)) && BytesValue(st, "TRAFFIC_USED_BYTES") == Some(Itoa(used))
    ensures st.total <= 0 ==>
      && AmountOf(st, "TRAFFIC_LEFT") == AmountOf(st, "TRAFFIC_TOTAL") == Some(Unlimited)
      && BytesValue(st, "TRAFFIC_LEFT_BYTES") == Some("0")
    ensures st.total > 0 ==> exists left: nat ::
      && (left + (st.up + st.down) == st.total || (left == 0 && st.up + st.down >= st.total))
      && AmountOf(st, "TRAFFIC_LEFT") == Some(Of(left)) && BytesValue(st, "TRAFFIC_LEFT_BYTES") == Some(Itoa(left))
      && AmountOf(st, "TRAFFIC_TOTAL") == Some(Of(st.total))
      && BytesValue(st, "TRAFFIC_TOTAL_BYTES") == Some(Itoa(st.total))
  {
    AmountTokens(st);
    var left: nat := Left(st.total, st.up + st.down);
    assert st.total > 0 ==> AmountOf(st, "TRAFFIC_LEFT") == Some(Of(left));
  }

  lemma AmountTokens(st: Stats)
    ensures var used := st.up + st.down;
      && AmountOf(st, "UP") == Some(Of(st.up)) && AmountOf(st, "DOWN") == Some(Of(st.down))
      && AmountOf(st, "TRAFFIC_USED") == Some(Of(used))
      && AmountOf(st, "TRAFFIC_LEFT") == Some(if st.total <= 0 then Unlimited else Of(Left(st.total, used)))
      && AmountOf(st, "TRAFFIC_TOTAL") == Some(if st.total <= 0 then Unlimited else Of(st.total))
      && BytesValue(st, "TRAFFIC_USED_BYTES") == Some(Itoa(used))
      && BytesValue(st, "TRAFFIC_LEFT_BYTES") == Some(if st.total <= 0 then "0" else Itoa(Left(st.total, used)))
      && BytesValue(st, "TRAFFIC_TOTAL_BYTES") == Some(Itoa(st.total))
  {
  }

  /** A client is called depleted when nothing of a quota is left, and expired when its
      fixed date is past, the stop by hand and then the date coming first. */
  lemma StatusSays(l: Labels, st: Stats)
    ensures var expired := st.expiry > 0 && st.expiry / 1000 < l.now;
      Status(l, st) == if !st.enable then "disabled"
                       else if expired then "expired"
                       else if AmountOf(st, "TRAFFIC_LEFT") == Some(Of(0)) then "depleted"
                       else "active"
  {
    AmountTokens(st);
  }

  /** Leading parts that are zero are not written. */
  lemma DurationShown(days: nat, hours: nat, mins: nat)
    ensures var d, h, m := Itoa(days) + "d ", Itoa(hours) + "h ", Itoa(mins) + "m";
      Duration(days, hours, mins)
        == (if days > 0 then d else "") + ((if days > 0 || hours > 0 then h else "") + m)
  {
    var d, h, m := Itoa(days) + "d ", Itoa(hours) + "h ", Itoa(mins) + "m";
    if days > 0 {
      Reassociate(d, Itoa(hours), "h ");
      Reassociate(d + h, Itoa(mins), "m");
      Reassociate(d, h, m);
    } else if hours > 0 {
      Reassociate(h, Itoa(mins), "m");
      assert "" + (h + m) == h + m;
    } else {
      assert "" + ("" + m) == m;
    }
  }

  /** The remaining time is split into whole days, hours and minutes, rounded down, and
      both tokens count the same days. */
  lemma TimeLeftParts(l: Labels, expiry: int)
    requires expiry != 0 && Remaining(l, expiry) > 0
    ensures exists days: nat, hours: nat, mins: nat ::
      && hours < 24 && mins < 60
      && 0 <= Remaining(l, expiry) - 60 * (60 * (24 * days + hours) + mins) < 60
      && DaysLeft(l, expiry) == Itoa(days) && TimeLeft(l, expiry) == Duration(days, hours, mins)
  {
    var secs := Remaining(l, expiry);
    var days: nat, hours: nat, mins: nat := secs / 86400, secs % 86400 / 3600, secs % 3600 / 60;
    TimeParts(secs);
    assert DaysLeft(l, expiry) == Itoa(days) && TimeLeft(l, expiry) == Duration(days, hours, mins);
  }

  lemma TimeParts(secs: nat)
    ensures var days, hours, mins := secs / 86400, secs % 86400 / 3600, secs % 3600 / 60;
      && hours < 24 && mins < 60
      && 0 <= secs - 60 * (60 * (24 * days + hours) + mins) < 60
  {
    assert secs % 3600 == secs % 86400 % 3600;
  }

  // --------------------------------------------------- the tables of the package

  function Nobody(token: string): string {
    ""
  }

  const IDLE := Stats(0, 0, 0, 0, true)

  /** Writing an amount or a date says something, and different things of 0 and 1. */
  ghost predicate Telling(l: Labels) {
    && l.formatTraffic(0) != l.formatTraffic(1)
    && (forall n :: l.formatTraffic(n) != "" && l.formatTraffic(n) != UNLIMITED)
    && (forall n :: l.calendar(n) != "" && l.jalali(n) != "")
    && (forall n, m :: l.percent(n, m) != "")
  }

  /** The table of usage tokens, one by one. */
  lemma UsageTokenIs(token: string)
    ensures token in UsageTokens() <==>
      || token == "TRAFFIC_USED" || token == "TRAFFIC_LEFT" || token == "TRAFFIC_TOTAL"
      || token == "TRAFFIC_USED_BYTES" || token == "TRAFFIC_LEFT_BYTES" || token == "TRAFFIC_TOTAL_BYTES"
      || token == "UP" || token == "DOWN" || token == "DAYS_LEFT" || token == "EXPIRE_DATE"
      || token == "EXPIRE_UNIX" || token == "STATUS" || token == "STATUS_EMOJI"
      || token == "USAGE_PERCENTAGE" || token == "TIME_LEFT" || token == "JALALI_EXPIRE_DATE"
  {
    var u := UsageTokens();
    assert u[0] == "TRAFFIC_USED" && u[1] == "TRAFFIC_LEFT" && u[2] == "TRAFFIC_TOTAL";
    assert u[3] == "TRAFFIC_USED_BYTES" && u[4] == "TRAFFIC_LEFT_BYTES" && u[5] == "TRAFFIC_TOTAL_BYTES";
    assert u[6] == "UP" && u[7] == "DOWN" && u[8] == "DAYS_LEFT" && u[9] == "EXPIRE_DATE";
    assert u[10] == "EXPIRE_UNIX" && u[11] == "STATUS" && u[12] == "STATUS_EMOJI";
    assert u[13] == "USAGE_PERCENTAGE" && u[14] == "TIME_LEFT" && u[15] == "JALALI_EXPIRE_DATE";
  }

  lemma ReadsStatsIffListed(l: Labels, st: Stats, token: string)
    ensures StatsValue(l, st, token).Some? <==> token in UsageTokens()
  {
    UsageTokenIs(token);
  }

  lemma DigitsDiffer()
    ensures Itoa(0) == "0" && Itoa(1) == "1" && "0" != "1"
    ensures Itoa(0) != UNLIMITED && Itoa(0) + "m" != UNLIMITED
  {
    assert Itoa(0)[0] == '0' && UNLIMITED[0] != '0';
    assert (Itoa(0) + "m")[0] == '0';
  }

  lemma StatusTellsApart(l: Labels, token: string) returns (t: Stats)
    requires Telling(l) && StatusValue(l, IDLE, token).Some?
    ensures StatusValue(l, t, token) != StatusValue(l, IDLE, token)
  {
    t := if token == "USAGE_PERCENTAGE" then IDLE.(total := 1) else IDLE.(enable := false);
    assert "active" != "disabled" && "\U{2705}" != "\U{1F6AB}";
  }

  lemma ExpiryTellsApart(l: Labels, token: string) returns (t: Stats)
    requires Telling(l) && ExpiryValue(l, IDLE, token).Some?
    ensures ExpiryValue(l, t, token) != ExpiryValue(l, IDLE, token)
  {
    t := IDLE.(expiry := if token == "DAYS_LEFT" || token == "TIME_LEFT" then -1000 else 1000);
    DigitsDiffer();
    assert Remaining(l, -1000) == 1;
  }

  lemma AmountsDiffer(token: string) returns (t: Stats)
    requires AmountOf(IDLE, token).Some?
    ensures AmountOf(t, token) == Some(Of(1))
  {
    if token == "TRAFFIC_USED" {
      t := Stats(1, 0, 0, 0, true);
    } else if token == "TRAFFIC_LEFT" {
      t := Stats(0, 0, 1, 0, true);
    } else if token == "TRAFFIC_TOTAL" {
      t := Stats(0, 0, 1, 0, true);
    } else if token == "UP" {
      t := Stats(1, 0, 0, 0, true);
    } else {
      t := Stats(0, 1, 0, 0, true);
    }
  }

  lemma IdleAmount(token: string)
    ensures AmountOf(IDLE, token) in {None, Some(Of(0)), Some(Unlimited)}
  {
  }

  lemma TrafficTellsApart(l: Labels, token: string) returns (t: Stats)
    requires Telling(l) && TrafficValue(l, IDLE, token).Some?
    ensures TrafficValue(l, t, token) != TrafficValue(l, IDLE, token)
  {
    t := AmountsDiffer(token);
    IdleAmount(token);
    AmountsShow(l);
  }

  lemma AmountsShow(l: Labels)
    requires Telling(l)
    ensures Shown(l, Of(1)) != Shown(l, Of(0)) && Shown(l, Of(1)) != Shown(l, Unlimited)
    ensures Shown(l, Of(0)) != UNLIMITED
  {
  }

  lemma BytesTellApart(token: string) returns (t: Stats)
    requires BytesValue(IDLE, token).Some?
    ensures BytesValue(t, token) != BytesValue(IDLE, token)
  {
    t := if token == "TRAFFIC_USED_BYTES" then IDLE.(up := 1) else IDLE.(total := 1);
    DigitsDiffer();
    assert Left(t.total, t.up + t.down) == (if token == "TRAFFIC_USED_BYTES" then 0 else 1);
  }

  /** The groups have no token in common. */
  lemma OneGroup(l: Labels, identity: string -> string, st: Stats, token: string)
    ensures StatusValue(l, st, token).Some? ==> Value(l, identity, st, token) == StatusValue(l, st, token).value
    ensures ExpiryValue(l, st, token).Some? ==> Value(l, identity, st, token) == ExpiryValue(l, st, token).value
    ensures TrafficValue(l, st, token).Some? ==> Value(l, identity, st, token) == TrafficValue(l, st, token).value
    ensures BytesValue(st, token).Some? ==> Value(l, identity, st, token) == BytesValue(st, token).value
  {
  }

  /** Which group a token is in does not depend on the record. */
  lemma SameGroup(l: Labels, s: Stats, t: Stats, token: string)
    ensures StatusValue(l, s, token).Some? <==> StatusValue(l, t, token).Some?
    ensures ExpiryValue(l, s, token).Some? <==> ExpiryValue(l, t, token).Some?
    ensures TrafficValue(l, s, token).Some? <==> TrafficValue(l, t, token).Some?
    ensures BytesValue(s, token).Some? <==> BytesValue(t, token).Some?
  {
  }

  lemma ReaderTellsApart(l: Labels, identity: string -> string, token: string) returns (t: Stats)
    requires Telling(l) && StatsValue(l, IDLE, token).Some?
    ensures Value(l, identity, t, token) != Value(l, identity, IDLE, token)
  {
    if StatusValue(l, IDLE, token).Some? {
      t := StatusTellsApart(l, token);
    } else if ExpiryValue(l, IDLE, token).Some? {
      t := ExpiryTellsApart(l, token);
    } else if TrafficValue(l, IDLE, token).Some? {
      t := TrafficTellsApart(l, token);
    } else {
      t := BytesTellApart(token);
    }
    SameGroup(l, IDLE, t, token);
    OneGroup(l, identity, IDLE, token);
    OneGroup(l, identity, t, token);
  }

  /** The package's list of usage tokens is complete and holds nothing else: a token is in
      it exactly when its value depends on the traffic record. */
  lemma UsageTokensExact(l: Labels, identity: string -> string, token: string)
    requires Telling(l)
    ensures token in UsageTokens() <==> exists s, t :: Value(l, identity, s, token) != Value(l, identity, t, token)
  {
    if token in UsageTokens() {
      ReadsStatsIffListed(l, IDLE, token);
      var t := ReaderTellsApart(l, identity, token);
    } else {
      forall s, t ensures Value(l, identity, s, token) == Value(l, identity, t, token) {
        ReadsStatsIffListed(l, s, token);
        ReadsStatsIffListed(l, t, token);
      }
    }
  }

  predicate Limitless(st: Stats) {
    st.total <= 0 && st.expiry == 0
  }

  lemma LimitlessShows(l: Labels, identity: string -> string, st: Stats, token: string)
    requires Limitless(st) && token in DropTokens()
    ensures Value(l, identity, st, token) == UNLIMITED
  {
    OneGroup(l, identity, st, token);
  }

  lemma NothingUnlimited(l: Labels, token: string)
    requires Telling(l) && token !in DropTokens()
    ensures Value(l, Nobody, IDLE, token) != UNLIMITED
  {
    OneGroup(l, Nobody, IDLE, token);
    if StatusValue(l, IDLE, token).Some? {
      assert UNLIMITED[0] != "active"[0] && UNLIMITED[0] != "\U{2705}"[0];
    } else if ExpiryValue(l, IDLE, token).Some? {
      assert UNLIMITED[0] != "0"[0];
    } else if TrafficValue(l, IDLE, token).Some? {
      IdleAmount(token);
      AmountsShow(l);
    } else if BytesValue(IDLE, token).Some? {
      DigitsDiffer();
    }
  }

  /** The tokens that may make a segment drop out are exactly those that say "unlimited"
      of every client without quota and expiry. */
  lemma DropTokensExact(l: Labels, token: string)
    requires Telling(l)
    ensures token in DropTokens() <==>
      forall identity, st :: Limitless(st) ==> Value(l, identity, st, token) == UNLIMITED
  {
    if token in DropTokens() {
      forall identity, st | Limitless(st) ensures Value(l, identity, st, token) == UNLIMITED {
        LimitlessShows(l, identity, st, token);
      }
    } else {
      NothingUnlimited(l, token);
      assert Limitless(IDLE);
    }
  }

  // ------------------------------------------------------ what the results mean

  /** Clients that differ in their traffic records alone are what the results on usage
      speak of. */
  lemma StatsAreUsage(rules: Rules, l: Labels, identity: string -> string, s: Stats, t: Stats)
    requires PanelRules(rules)
    ensures SameButUsage(rules, ClientOf(l, identity, s), ClientOf(l, identity, t))
  {
    forall token | token !in rules.usage ensures Value(l, identity, s, token) == Value(l, identity, t, token) {
      ReadsStatsIffListed(l, s, token);
      ReadsStatsIffListed(l, t, token);
    }
  }

  /** Over all links of a request, any but the first of a client reads the same for every
      traffic record the client could have. */
  lemma RecordShownOnce(rules: Rules, template: string, emails: seq<string>, i: nat, j: nat,
                        l: Labels, identity: string -> string, s: Stats, t: Stats)
    requires PanelRules(rules) && i < j < |emails| && emails[i] == emails[j]
    ensures var text := Templates(rules, template, map[], emails)[j];
      Rendered(rules, ClientOf(l, identity, s), text) == Rendered(rules, ClientOf(l, identity, t), text)
  {
    StatsAreUsage(rules, l, identity, s, t);
    UiTokensBraceFree();
    UsageShownOnce(rules, template, emails, i, j, ClientOf(l, identity, s), ClientOf(l, identity, t));
  }

  lemma OnlyDropTokens(client: Client, segs: seq<string>, seg: string)
    requires forall t :: t in client.dropTokens ==> client.value(t) == client.unlimited
    ensures Tokens(seg) != [] && (forall t :: t in Tokens(seg) ==> t in client.dropTokens) ==>
      KeptSegments(client, segs + [seg]) == KeptSegments(client, segs)
    ensures (exists t :: t in Tokens(seg) && t !in client.dropTokens && client.value(t) != "") ==>
      KeptSegments(client, segs + [seg]) == KeptSegments(client, segs) + [Expand(client.value, seg)]
  {
    SegmentGoesIff(client, segs, seg);
    assert Tokens(seg) != [] ==> Tokens(seg)[0] in Tokens(seg);
  }

  /** A client without quota and expiry gets no segment that is made of such tokens alone;
      one in which another token shows something stays. */
  lemma LimitlessSegments(l: Labels, identity: string -> string, st: Stats, segs: seq<string>, seg: string)
    requires Limitless(st)
    ensures var client := ClientOf(l, identity, st);
      && (Tokens(seg) != [] && (forall t :: t in Tokens(seg) ==> t in DropTokens()) ==>
            KeptSegments(client, segs + [seg]) == KeptSegments(client, segs))
      && ((exists t :: t in Tokens(seg) && t !in DropTokens() && Value(l, identity, st, t) != "") ==>
            KeptSegments(client, segs + [seg]) == KeptSegments(client, segs) + [Expand(client.value, seg)])
  {
    var client := ClientOf(l, identity, st);
    forall t | t in client.dropTokens ensures client.value(t) == client.unlimited {
      LimitlessShows(l, identity, st, t);
    }
    OnlyDropTokens(client, segs, seg);
  }
}
