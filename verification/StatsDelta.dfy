/** The delta accounting of internal/xray/api.go: counters become per-poll deltas, and
    baselines of vanished counters are dropped now and then. */
module StatsDelta {
  import opened Text

  datatype Stat = Stat(name: string, value: int)

  /** What the two regular expressions make of a counter name. */
  datatype Kind =
    | Link(isInbound: bool, tag: string, isDown: bool)
    | User(email: string, isDown: bool)
    | Other

  datatype Entry = Entry(isInbound: bool, key: string, up: int, down: int)

  /** Baselines and the deltas of the poll in progress, by tag and by email. */
  datatype Tally = Tally(last: map<string, int>, links: map<string, Entry>, users: map<string, Entry>)

  function Put(m: map<string, Entry>, isInbound: bool, key: string, isDown: bool, value: int): map<string, Entry> {
    var e := if key in m then m[key] else Entry(isInbound, key, 0, 0);
    m[key := if isDown then e.(down := value) else e.(up := value)]
  }

  /** The delta of a counter against its baseline. None: seen for the first time, or
      the counter went back. */
  function Delta(last: map<string, int>, s: Stat): Option<int> {
    if s.name in last && s.value >= last[s.name] then Some(s.value - last[s.name]) else None
  }

  function Count(kind: string -> Kind, t: Tally, s: Stat): Tally {
    var d, last := Delta(t.last, s), t.last[s.name := s.value];
    if d.None? then t.(last := last)
    else match kind(s.name)
      case Link(isInbound, tag, isDown) =>
        if tag == "api" then t.(last := last)
        else Tally(last, Put(t.links, isInbound, tag, isDown, d.value), t.users)
      case User(email, isDown) => Tally(last, t.links, Put(t.users, false, email, isDown, d.value))
      case Other => t.(last := last)
  }

  function CountAll(kind: string -> Kind, t: Tally, stats: seq<Stat>): Tally {
    if stats == [] then t
    else Count(kind, CountAll(kind, t, stats[..|stats| - 1]), stats[|stats| - 1])
  }

  function Polled(kind: string -> Kind, last: map<string, int>, stats: seq<Stat>): Tally {
    CountAll(kind, Tally(last, map[], map[]), stats)
  }

  function Names(stats: seq<Stat>): set<string> {
    set s | s in stats :: s.name
  }

  /** The baselines kept after a poll. */
  function Kept(last: map<string, int>, stats: seq<Stat>): map<string, int> {
    if |stats| > 0 && |last| > 2 * |stats| then map k | k in last && k in Names(stats) :: last[k] else last
  }

  class XrayApi {
    var statsLastValues: map<string, int>
    const kind: string -> Kind

    constructor (kind: string -> Kind)
      ensures this.kind == kind && statsLastValues == map[]
    {
      this.kind := kind;
      statsLastValues := map[];
    }

    /** GetTraffic after a successful query. The two results are returned as maps; the
        original lists their values in no particular order. */
    method GetTraffic(stats: seq<Stat>) returns (links: map<string, Entry>, users: map<string, Entry>)
      modifies this
      ensures var t := Polled(kind, old(statsLastValues), stats);
        && links == t.links && users == t.users
        && statsLastValues == Kept(t.last, stats)
    {
      links, users := map[], map[];
      for i := 0 to |stats|
        invariant Tally(statsLastValues, links, users) == Polled(kind, old(statsLastValues), stats[..i])
      {
        assert stats[..i + 1][..i] == stats[..i];
        var stat := stats[i];
        var known := stat.name in statsLastValues;
        var lastValue := if known then statsLastValues[stat.name] else 0;
        statsLastValues := statsLastValues[stat.name := stat.value];
        if !known || stat.value < lastValue {
          continue;
        }
        var value := stat.value - lastValue;
        match kind(stat.name) {
          case Link(isInbound, tag, isDown) =>
            if tag != "api" {
              links := Put(links, isInbound, tag, isDown, value);
            }
          case User(email, isDown) =>
            users := Put(users, false, email, isDown, value);
          case Other =>
        }
      }
      assert stats[..|stats|] == stats;
      NamesCounted(kind, Tally(old(statsLastValues), map[], map[]), stats);
      PruneBaselines(stats);
    }

    /** The last part of GetTraffic. */
    method PruneBaselines(stats: seq<Stat>)
      requires Names(stats) <= statsLastValues.Keys
      modifies this
      ensures statsLastValues == Kept(old(statsLastValues), stats)
    {
      if |stats| > 0 && |statsLastValues| > 2 * |stats| {
        var pruned: map<string, int> := map[];
        for i := 0 to |stats|
          invariant pruned.Keys == Names(stats[..i])
          invariant forall k :: k in pruned ==> k in statsLastValues && pruned[k] == statsLastValues[k]
          invariant statsLastValues == old(statsLastValues)
        {
          assert stats[..i + 1] == stats[..i] + [stats[i]];
          assert stats[i].name in Names(stats);
          pruned := pruned[stats[i].name := statsLastValues[stats[i].name]];
        }
        assert stats[..|stats|] == stats;
        statsLastValues := pruned;
      }
    }
  }

  // ------------------------------------------------------------ one poll

  lemma {:induction false} NamesCounted(kind: string -> Kind, t: Tally, stats: seq<Stat>)
    ensures CountAll(kind, t, stats).last.Keys == t.last.Keys + Names(stats)
    ensures forall k :: k in t.last && k !in Names(stats) ==> CountAll(kind, t, stats).last[k] == t.last[k]
  {
    if stats != [] {
      var n := |stats| - 1;
      NamesCounted(kind, t, stats[..n]);
      assert stats == stats[..n] + [stats[n]];
      assert Names(stats) == Names(stats[..n]) + {stats[n].name};
    }
  }

  predicate NonNegative(m: map<string, Entry>) {
    forall k :: k in m ==> m[k].up >= 0 && m[k].down >= 0
  }

  lemma PutNonNegative(m: map<string, Entry>, isInbound: bool, key: string, isDown: bool, value: int)
    requires NonNegative(m) && value >= 0
    ensures NonNegative(Put(m, isInbound, key, isDown, value))
  {
  }

  lemma CountNonNegative(kind: string -> Kind, t: Tally, s: Stat)
    requires NonNegative(t.links) && NonNegative(t.users)
    ensures NonNegative(Count(kind, t, s).links) && NonNegative(Count(kind, t, s).users)
  {
    var d := Delta(t.last, s);
    if d.Some? {
      match kind(s.name)
      case Link(isInbound, tag, isDown) => PutNonNegative(t.links, isInbound, tag, isDown, d.value);
      case User(email, isDown) => PutNonNegative(t.users, false, email, isDown, d.value);
      case Other =>
    }
  }

  /** No poll reports a negative delta. */
  lemma {:induction false} DeltasNonNegative(kind: string -> Kind, last: map<string, int>, stats: seq<Stat>)
    ensures NonNegative(Polled(kind, last, stats).links) && NonNegative(Polled(kind, last, stats).users)
  {
    if stats != [] {
      var n := |stats| - 1;
      DeltasNonNegative(kind, last, stats[..n]);
      CountNonNegative(kind, Polled(kind, last, stats[..n]), stats[n]);
    }
  }

  predicate UniqueNames(stats: seq<Stat>) {
    forall i, j :: 0 <= i < j < |stats| ==> stats[i].name != stats[j].name
  }

  lemma NotBefore(stats: seq<Stat>, i: nat)
    requires UniqueNames(stats) && i < |stats|
    ensures stats[i].name !in Names(stats[..i])
  {
    forall s | s in stats[..i] ensures s.name != stats[i].name {
      var j :| 0 <= j < i && stats[..i][j] == s;
      assert stats[j] == s;
    }
  }

  lemma UniquePrefix(stats: seq<Stat>, n: nat)
    requires UniqueNames(stats) && n <= |stats|
    ensures UniqueNames(stats[..n])
  {
    assert forall i :: 0 <= i < n ==> stats[..n][i] == stats[i];
  }

  /** A core names each counter once, so its delta is taken against the baseline the
      poll began with. */
  lemma BaselineOfPoll(kind: string -> Kind, last: map<string, int>, stats: seq<Stat>, i: nat)
    requires UniqueNames(stats) && i < |stats|
    ensures Delta(Polled(kind, last, stats[..i]).last, stats[i]) == Delta(last, stats[i])
    ensures stats[i].name in Polled(kind, last, stats).last
    ensures Polled(kind, last, stats).last[stats[i].name] == stats[i].value
  {
    NotBefore(stats, i);
    NamesCounted(kind, Tally(last, map[], map[]), stats[..i]);
    ValueKept(kind, last, stats, i);
  }

  lemma {:induction false} ValueKept(kind: string -> Kind, last: map<string, int>, stats: seq<Stat>, i: nat)
    requires UniqueNames(stats) && i < |stats|
    ensures stats[i].name in Polled(kind, last, stats).last
    ensures Polled(kind, last, stats).last[stats[i].name] == stats[i].value
    decreases |stats|
  {
    var n := |stats| - 1;
    if i < n {
      UniquePrefix(stats, n);
      assert stats[..n][i] == stats[i];
      ValueKept(kind, last, stats[..n], i);
      assert stats[n].name != stats[i].name;
    }
  }

  /** The counter goes to this table under this key and direction. */
  predicate Hits(k: Kind, links: bool, key: string, isDown: bool) {
    if links then k.Link? && k.tag == key && k.tag != "api" && k.isDown == isDown
    else k.User? && k.email == key && k.isDown == isDown
  }

  function Side(t: Tally, links: bool, key: string, isDown: bool): Option<int> {
    var m := if links then t.links else t.users;
    if key !in m then None else Some(if isDown then m[key].down else m[key].up)
  }

  /** No counter from index i on has a delta that goes to this key and direction. */
  predicate QuietFrom(kind: string -> Kind, last: map<string, int>, stats: seq<Stat>, i: nat,
                      links: bool, key: string, isDown: bool)
  {
    forall j :: i <= j < |stats| ==> !(Hits(kind(stats[j].name), links, key, isDown) && Delta(last, stats[j]).Some?)
  }

  lemma {:induction false} LaterStatsKeep(kind: string -> Kind, last: map<string, int>, stats: seq<Stat>, n: nat,
                                          links: bool, key: string, isDown: bool)
    requires n <= |stats| && UniqueNames(stats) && QuietFrom(kind, last, stats, n, links, key, isDown)
    ensures Side(Polled(kind, last, stats[..n]), links, key, isDown).Some? ==>
      Side(Polled(kind, last, stats), links, key, isDown) == Side(Polled(kind, last, stats[..n]), links, key, isDown)
    decreases |stats|
  {
    if n == |stats| {
      assert stats[..n] == stats;
    } else {
      var m := |stats| - 1;
      assert stats[..m][..n] == stats[..n];
      UniquePrefix(stats, m);
      LaterStatsKeep(kind, last, stats[..m], n, links, key, isDown);
      BaselineOfPoll(kind, last, stats, m);
      assert !(Hits(kind(stats[m].name), links, key, isDown) && Delta(last, stats[m]).Some?);
      QuietStat(kind, Polled(kind, last, stats[..m]), stats[m], links, key, isDown);
    }
  }

  /** A counter without a delta, or for another key and direction, leaves this one. */
  lemma QuietStat(kind: string -> Kind, t: Tally, s: Stat, links: bool, key: string, isDown: bool)
    requires !(Hits(kind(s.name), links, key, isDown) && Delta(t.last, s).Some?)
    ensures Side(t, links, key, isDown).Some? ==>
      Side(Count(kind, t, s), links, key, isDown) == Side(t, links, key, isDown)
  {
  }

  /** The reported value of a tag or email in one direction is the delta of the last
      counter that has one and goes there; with one counter per direction, of that
      counter. When an inbound and an outbound share a tag, the earlier delta is lost. */
  lemma LastStatReported(kind: string -> Kind, last: map<string, int>, stats: seq<Stat>, i: nat,
                         links: bool, key: string, isDown: bool)
    requires UniqueNames(stats) && i < |stats|
    requires Hits(kind(stats[i].name), links, key, isDown) && QuietFrom(kind, last, stats, i + 1, links, key, isDown)
    requires Delta(last, stats[i]).Some?
    ensures Side(Polled(kind, last, stats), links, key, isDown) == Delta(last, stats[i])
  {
    BaselineOfPoll(kind, last, stats, i);
    assert stats[..i + 1][..i] == stats[..i];
    LaterStatsKeep(kind, last, stats, i + 1, links, key, isDown);
  }

  /** The counter at index i has a delta, and it goes to this key in some direction. The
      tag of the panel's own API inbound is nobody's key. */
  predicate Moves(kind: string -> Kind, last: map<string, int>, stats: seq<Stat>, i: nat, links: bool, key: string) {
    i < |stats| && Delta(last, stats[i]).Some? && var k := kind(stats[i].name);
      if links then k.Link? && k.tag == key && key != "api" else k.User? && k.email == key
  }

  predicate FirstMove(kind: string -> Kind, last: map<string, int>, stats: seq<Stat>, i: nat, links: bool, key: string)
  {
    Moves(kind, last, stats, i, links, key) && forall j :: 0 <= j < i ==> !Moves(kind, last, stats, j, links, key)
  }

  function Table(t: Tally, links: bool): map<string, Entry> {
    if links then t.links else t.users
  }

  lemma TableStep(kind: string -> Kind, last: map<string, int>, stats: seq<Stat>, links: bool, key: string)
    requires stats != [] && UniqueNames(stats)
    ensures var n := |stats| - 1;
      var before, after := Table(Polled(kind, last, stats[..n]), links), Table(Polled(kind, last, stats), links);
      if !Moves(kind, last, stats, n, links, key) then
        (key in after <==> key in before) && (key in after ==> after[key] == before[key])
      else
        key in after && if key in before then
          after[key].isInbound == before[key].isInbound && after[key].key == before[key].key
        else after[key].isInbound == (links && kind(stats[n].name).isInbound) && after[key].key == key
  {
    BaselineOfPoll(kind, last, stats, |stats| - 1);
  }

  lemma MovesBefore(kind: string -> Kind, last: map<string, int>, stats: seq<Stat>, i: nat, n: nat,
                    links: bool, key: string)
    requires i < n <= |stats|
    ensures Moves(kind, last, stats[..n], i, links, key) <==> Moves(kind, last, stats, i, links, key)
  {
  }

  /** A poll returns an entry for exactly the tags or emails with a moving counter, and an
      entry has the direction of the first of them: when an inbound and an outbound share
      a tag, the one the core lists first decides. */
  lemma {:induction false} EntryOfFirst(kind: string -> Kind, last: map<string, int>, stats: seq<Stat>,
                                        links: bool, key: string)
    requires UniqueNames(stats)
    ensures var m := Table(Polled(kind, last, stats), links);
      && (key in m <==> exists i: nat :: Moves(kind, last, stats, i, links, key))
      && forall i: nat :: FirstMove(kind, last, stats, i, links, key) ==>
           m[key].key == key && m[key].isInbound == (links && kind(stats[i].name).isInbound)
  {
    if stats != [] {
      var n := |stats| - 1;
      UniquePrefix(stats, n);
      EntryOfFirst(kind, last, stats[..n], links, key);
      TableStep(kind, last, stats, links, key);
      forall i | 0 <= i < n
        ensures Moves(kind, last, stats[..n], i, links, key) <==> Moves(kind, last, stats, i, links, key)
      {
        MovesBefore(kind, last, stats, i, n, links, key);
      }
      forall i: nat | FirstMove(kind, last, stats, i, links, key) && i < n
        ensures FirstMove(kind, last, stats[..n], i, links, key)
      {
      }
    }
  }

  /** A direction in which nothing moved is reported as zero. */
  lemma {:induction false} SilentSideZero(kind: string -> Kind, last: map<string, int>, stats: seq<Stat>,
                                          links: bool, key: string, isDown: bool)
    requires UniqueNames(stats) && QuietFrom(kind, last, stats, 0, links, key, isDown)
    ensures OrZero(Side(Polled(kind, last, stats), links, key, isDown)) == 0
  {
    if stats != [] {
      var n := |stats| - 1;
      UniquePrefix(stats, n);
      SilentSideZero(kind, last, stats[..n], links, key, isDown);
      BaselineOfPoll(kind, last, stats, n);
      assert !(Hits(kind(stats[n].name), links, key, isDown) && Delta(last, stats[n]).Some?);
    }
  }

  // ------------------------------------------------------------- runs of polls

  function After(kind: string -> Kind, polls: seq<seq<Stat>>): map<string, int> {
    if polls == [] then map[]
    else
      var n := |polls| - 1;
      Kept(Polled(kind, After(kind, polls[..n]), polls[n]).last, polls[n])
  }

  /** The baselines of a poller that never drops any. */
  function Unpruned(kind: string -> Kind, polls: seq<seq<Stat>>): map<string, int> {
    if polls == [] then map[]
    else
      var n := |polls| - 1;
      Polled(kind, Unpruned(kind, polls[..n]), polls[n]).last
  }

  /** The counters of the last poll that had any. */
  function Live(polls: seq<seq<Stat>>): set<string> {
    if polls == [] then {}
    else if polls[|polls| - 1] != [] then Names(polls[|polls| - 1])
    else Live(polls[..|polls| - 1])
  }

  lemma {:induction false} SameBaselines(kind: string -> Kind, t: Tally, u: Tally, stats: seq<Stat>)
    requires forall k :: k in t.last ==> k in u.last && u.last[k] == t.last[k]
    ensures forall k :: k in CountAll(kind, t, stats).last ==>
      k in CountAll(kind, u, stats).last && CountAll(kind, u, stats).last[k] == CountAll(kind, t, stats).last[k]
  {
    if stats != [] {
      SameBaselines(kind, t, u, stats[..|stats| - 1]);
    }
  }

  lemma {:induction false} PrunedBaselinesAgree(kind: string -> Kind, polls: seq<seq<Stat>>)
    ensures forall k :: k in After(kind, polls) ==>
      k in Unpruned(kind, polls) && Unpruned(kind, polls)[k] == After(kind, polls)[k]
  {
    if polls != [] {
      var n := |polls| - 1;
      PrunedBaselinesAgree(kind, polls[..n]);
      SameBaselines(kind, Tally(After(kind, polls[..n]), map[], map[]),
                    Tally(Unpruned(kind, polls[..n]), map[], map[]), polls[n]);
    }
  }

  lemma {:induction false} LiveKept(kind: string -> Kind, polls: seq<seq<Stat>>)
    ensures Live(polls) <= After(kind, polls).Keys
  {
    if polls != [] {
      var n := |polls| - 1;
      LiveKept(kind, polls[..n]);
      NamesCounted(kind, Tally(After(kind, polls[..n]), map[], map[]), polls[n]);
    }
  }

  /** Dropping baselines never touches a counter the core still reports: its delta in
      the next poll is what a poller that never drops any would report. */
  lemma PruningInvisible(kind: string -> Kind, polls: seq<seq<Stat>>, s: Stat)
    requires s.name in Live(polls)
    ensures Delta(After(kind, polls), s) == Delta(Unpruned(kind, polls), s)
    ensures s.name in Unpruned(kind, polls)
    ensures Delta(After(kind, polls), s).None? <==> s.value < Unpruned(kind, polls)[s.name]
  {
    PrunedBaselinesAgree(kind, polls);
    LiveKept(kind, polls);
  }

  lemma {:induction false} NamesBounded(stats: seq<Stat>)
    ensures |Names(stats)| <= |stats|
  {
    if stats != [] {
      var n := |stats| - 1;
      NamesBounded(stats[..n]);
      assert stats == stats[..n] + [stats[n]];
      assert Names(stats) == Names(stats[..n]) + {stats[n].name};
    }
  }

  lemma SmallerKeys<T>(a: set<T>, b: set<T>)
    requires a <= b
    ensures |a| <= |b|
  {
    assert b == a + (b - a);
  }

  /** After a poll that reported anything, at most twice as many baselines as counters
      are kept. */
  lemma MapStaysSmall(kind: string -> Kind, polls: seq<seq<Stat>>)
    requires polls != [] && polls[|polls| - 1] != []
    ensures |After(kind, polls)| <= 2 * |polls[|polls| - 1]|
  {
    var n := |polls| - 1;
    var last := Polled(kind, After(kind, polls[..n]), polls[n]).last;
    if |last| > 2 * |polls[n]| {
      NamesBounded(polls[n]);
      SmallerKeys(After(kind, polls).Keys, Names(polls[n]));
    }
  }

  // -------------------------------------------------------------- conservation

  /** The value of a counter in a poll. */
  function ValueIn(stats: seq<Stat>, name: string): Option<int> {
    if stats == [] then None
    else if stats[|stats| - 1].name == name then Some(stats[|stats| - 1].value)
    else ValueIn(stats[..|stats| - 1], name)
  }

  lemma {:induction false} ValueBecomesBaseline(kind: string -> Kind, t: Tally, stats: seq<Stat>, name: string)
    ensures ValueIn(stats, name).Some? <==> name in Names(stats)
    ensures ValueIn(stats, name).Some? ==>
      name in CountAll(kind, t, stats).last && CountAll(kind, t, stats).last[name] == ValueIn(stats, name).value
  {
    if stats != [] {
      var n := |stats| - 1;
      ValueBecomesBaseline(kind, t, stats[..n], name);
      assert stats == stats[..n] + [stats[n]];
      assert Names(stats) == Names(stats[..n]) + {stats[n].name};
    }
  }

  /** The counter is in every poll from a to b, and never goes back. */
  predicate Steady(polls: seq<seq<Stat>>, a: nat, b: nat, name: string)
    requires a <= b < |polls|
  {
    && (forall i :: a <= i <= b ==> ValueIn(polls[i], name).Some?)
    && forall i :: a < i <= b ==> ValueIn(polls[i - 1], name).value <= ValueIn(polls[i], name).value
  }

  /** What GetTraffic returned at poll i under a key and direction, nothing being zero. */
  function ReportedAt(kind: string -> Kind, polls: seq<seq<Stat>>, i: nat, links: bool, key: string, isDown: bool): int
    requires i < |polls|
  {
    OrZero(Side(Polled(kind, After(kind, polls[..i]), polls[i]), links, key, isDown))
  }

  function OrZero(o: Option<int>): int {
    if o.Some? then o.value else 0
  }

  /** What each poll returned. */
  function Returned(kind: string -> Kind, polls: seq<seq<Stat>>, links: bool, key: string, isDown: bool): (r: seq<int>)
    ensures |r| == |polls|
  {
    seq(|polls|, i requires 0 <= i < |polls| => ReportedAt(kind, polls, i, links, key, isDown))
  }

  /** The values after index a, up to b, added. */
  function Sum(xs: seq<int>, a: nat, b: nat): int
    requires a <= b < |xs|
  {
    if a == b then 0 else Sum(xs, a, b - 1) + xs[b]
  }

  lemma {:induction false} SumOfSteps(xs: seq<int>, values: seq<int>, a: nat, b: nat)
    requires a <= b < |xs| == |values| && forall i :: a < i <= b ==> xs[i] == values[i] - values[i - 1]
    ensures Sum(xs, a, b) == values[b] - values[a]
    decreases b
  {
    if a < b {
      SumOfSteps(xs, values, a, b - 1);
    }
  }

  /** Names are unique in the poll, and this counter alone goes to the key and direction. */
  predicate OnlyCounter(kind: string -> Kind, stats: seq<Stat>, name: string, links: bool, key: string, isDown: bool) {
    && UniqueNames(stats)
    && forall j :: 0 <= j < |stats| ==> (Hits(kind(stats[j].name), links, key, isDown) <==> stats[j].name == name)
  }

  lemma {:induction false} IndexOfValue(stats: seq<Stat>, name: string) returns (i: nat)
    requires ValueIn(stats, name).Some?
    ensures i < |stats| && stats[i] == Stat(name, ValueIn(stats, name).value)
  {
    var n := |stats| - 1;
    if stats[n].name == name {
      return n;
    }
    i := IndexOfValue(stats[..n], name);
    assert stats[..n][i] == stats[i];
  }

  /** Over a stretch of polls in which a counter is present and never goes back, what
      GetTraffic returned for it adds up to its last value minus its first. */
  lemma DeltasTelescope(kind: string -> Kind, polls: seq<seq<Stat>>, a: nat, b: nat, name: string,
                        links: bool, key: string, isDown: bool)
    requires a <= b < |polls| && Steady(polls, a, b, name)
    requires forall i :: a < i <= b ==> OnlyCounter(kind, polls[i], name, links, key, isDown)
    ensures Sum(Returned(kind, polls, links, key, isDown), a, b)
         == ValueIn(polls[b], name).value - ValueIn(polls[a], name).value
  {
    var xs := Returned(kind, polls, links, key, isDown);
    var values := seq(|polls|, i requires 0 <= i < |polls| => OrZero(ValueIn(polls[i], name)));
    forall i | a < i <= b ensures xs[i] == values[i] - values[i - 1] {
      ReportedStep(kind, polls, i, name, links, key, isDown);
    }
    SumOfSteps(xs, values, a, b);
  }

  lemma ReportedStep(kind: string -> Kind, polls: seq<seq<Stat>>, b: nat, name: string,
                     links: bool, key: string, isDown: bool)
    requires 0 < b < |polls| && ValueIn(polls[b - 1], name).Some? && ValueIn(polls[b], name).Some?
    requires ValueIn(polls[b - 1], name).value <= ValueIn(polls[b], name).value
    requires OnlyCounter(kind, polls[b], name, links, key, isDown)
    ensures ReportedAt(kind, polls, b, links, key, isDown)
         == ValueIn(polls[b], name).value - ValueIn(polls[b - 1], name).value
  {
    BaselineAfterPoll(kind, polls, b - 1, name);
    var i := IndexOfValue(polls[b], name);
    LastStatReported(kind, After(kind, polls[..b]), polls[b], i, links, key, isDown);
  }

  lemma BaselineAfterPoll(kind: string -> Kind, polls: seq<seq<Stat>>, b: nat, name: string)
    requires b < |polls| && ValueIn(polls[b], name).Some?
    ensures name in After(kind, polls[..b + 1]) && After(kind, polls[..b + 1])[name] == ValueIn(polls[b], name).value
  {
    assert polls[..b + 1][..b] == polls[..b];
    ValueBecomesBaseline(kind, Tally(After(kind, polls[..b]), map[], map[]), polls[b], name);
  }
}
