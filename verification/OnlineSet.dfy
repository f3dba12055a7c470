/** The local online set of internal/xray/process.go: kept up to date by pruning, it
    must agree with the whole history of reports. */
module OnlineSet {
  import opened Text

  function Marked(seen: map<string, int>, active: set<string>, now: int): map<string, int> {
    map k | k in seen.Keys + active :: if k in active then now else seen[k]
  }

  /** What is left of the last-seen times after a report at now. */
  function Refreshed(seen: map<string, int>, active: seq<string>, now: int, grace: int): map<string, int> {
    var m := Marked(seen, Members(active), now);
    map k | k in m && now - m[k] < grace :: m[k]
  }

  /** A listing of a map's keys in some order, each once. */
  predicate Lists(xs: seq<string>, keys: set<string>) {
    Members(xs) == keys && NoRepeats(xs)
  }

  class OnlineTracker {
    var onlineClients: seq<string>
    var localActiveInbounds: seq<string>
    var localLastOnline: map<string, int>
    var localInboundLastActive: map<string, int>

    constructor ()
      ensures localLastOnline == map[] && localInboundLastActive == map[]
      ensures onlineClients == [] && localActiveInbounds == []
    {
      onlineClients, localActiveInbounds := [], [];
      localLastOnline, localInboundLastActive := map[], map[];
    }

    method RefreshLocalOnline(activeEmails: seq<string>, activeInboundTags: seq<string>, now: int, graceMs: int)
      modifies this
      ensures localLastOnline == Refreshed(old(localLastOnline), activeEmails, now, graceMs)
      ensures Lists(onlineClients, localLastOnline.Keys)
      ensures localInboundLastActive == Refreshed(old(localInboundLastActive), activeInboundTags, now, graceMs)
      ensures Lists(localActiveInbounds, localInboundLastActive.Keys)
    {
      localLastOnline, onlineClients := Age(localLastOnline, activeEmails, now, graceMs);
      localInboundLastActive, localActiveInbounds := Age(localInboundLastActive, activeInboundTags, now, graceMs);
    }
  }

  /** One half of RefreshLocalOnline: mark the active keys, then age the map. */
  method Age(seen: map<string, int>, active: seq<string>, now: int, grace: int)
    returns (times: map<string, int>, listed: seq<string>)
    ensures times == Refreshed(seen, active, now, grace)
    ensures Lists(listed, times.Keys)
  {
    times := seen;
    for i := 0 to |active|
      invariant times == Marked(seen, Members(active[..i]), now)
    {
      assert active[..i + 1] == active[..i] + [active[i]];
      times := times[active[i] := now];
    }
    assert active[..|active|] == active;
    times, listed := DropExpired(times, now, grace);
  }

  /** Walks the map, listing what is within grace and deleting the rest. */
  method DropExpired(marked: map<string, int>, now: int, grace: int)
    returns (times: map<string, int>, listed: seq<string>)
    ensures times == map k | k in marked && now - marked[k] < grace :: marked[k]
    ensures Lists(listed, times.Keys)
  {
    times, listed := marked, [];
    var todo := times.Keys;
    ghost var done: set<string> := {};
    while todo != {}
      invariant todo <= marked.Keys && done !! todo
      invariant times.Keys == done + todo && Survives(times, marked, todo, now, grace)
      invariant Lists(listed, done)
      decreases todo
    {
      var k := Pick(todo);
      todo := todo - {k};
      if now - times[k] < grace {
        ListsSnoc(listed, done, k);
        listed := listed + [k];
        done := done + {k};
      } else {
        times := times - {k};
      }
    }
  }

  /** The walk so far: visited keys are left exactly when they are within grace. */
  ghost predicate Survives(times: map<string, int>, marked: map<string, int>, todo: set<string>, now: int, grace: int) {
    && (forall k :: k in times ==> k in marked && times[k] == marked[k])
    && (forall k :: k in marked && k !in todo ==> (k in times <==> now - marked[k] < grace))
  }

  lemma ListsSnoc(xs: seq<string>, keys: set<string>, k: string)
    requires Lists(xs, keys) && k !in keys
    ensures Lists(xs + [k], keys + {k})
  {
    var ys := xs + [k];
    assert forall i :: 0 <= i < |xs| ==> ys[i] == xs[i] && xs[i] in Members(xs);
    assert ys[|xs|] == k;
    assert Members(ys) == Members(xs) + {k};
  }

  // --------------------------------------------------------------- whole histories

  /** One report of keys seen active. */
  datatype Report = Report(active: seq<string>, now: int)

  predicate Ordered(reports: seq<Report>) {
    forall i, j :: 0 <= i < j < |reports| ==> reports[i].now <= reports[j].now
  }

  function After(reports: seq<Report>, grace: int): map<string, int> {
    if reports == [] then map[]
    else
      var r := reports[|reports| - 1];
      Refreshed(After(reports[..|reports| - 1], grace), r.active, r.now, grace)
  }

  /** The key was reported less than the grace period before the last report. */
  ghost predicate Recent(reports: seq<Report>, grace: int, key: string) {
    exists i :: 0 <= i < |reports| && key in reports[i].active && reports[|reports| - 1].now - reports[i].now < grace
  }

  /** The last report that names the key, or -1. */
  function LastIndex(reports: seq<Report>, key: string): (l: int)
    ensures -1 <= l < |reports| && (l >= 0 ==> key in reports[l].active)
    ensures forall i :: l < i < |reports| ==> key !in reports[i].active
  {
    if reports == [] then -1
    else if key in reports[|reports| - 1].active then |reports| - 1
    else LastIndex(reports[..|reports| - 1], key)
  }

  /** At every later reading of the clock, report l was less than the grace period old. */
  predicate NeverStale(reports: seq<Report>, grace: int, l: nat)
    requires l < |reports|
  {
    forall j :: l <= j < |reports| ==> reports[j].now - reports[l].now < grace
  }

  /** Whatever the clock does, the pruned map holds a key exactly when its last report
      has not been stale since, and it holds the time of that report. */
  lemma {:induction false} PrunedKeepsLatest(reports: seq<Report>, grace: int, key: string)
    ensures var m, l := After(reports, grace), LastIndex(reports, key);
      && (key in m <==> l >= 0 && NeverStale(reports, grace, l))
      && (key in m ==> m[key] == reports[l].now)
  {
    if reports != [] {
      var n := |reports| - 1;
      var l := LastIndex(reports, key);
      PrunedKeepsLatest(reports[..n], grace, key);
      assert forall j :: 0 <= j < n ==> reports[..n][j] == reports[j];
      if 0 <= l < n {
        assert LastIndex(reports[..n], key) == l;
        StaleStep(reports, grace, l);
      }
    }
  }

  lemma StaleStep(reports: seq<Report>, grace: int, l: nat)
    requires l < |reports| - 1
    ensures var n := |reports| - 1;
      NeverStale(reports, grace, l) <==> NeverStale(reports[..n], grace, l) && reports[n].now - reports[l].now < grace
  {
    var n := |reports| - 1;
    assert forall j :: 0 <= j < n ==> reports[..n][j] == reports[j];
    if NeverStale(reports, grace, l) {
      forall j | l <= j < n ensures reports[..n][j].now - reports[..n][l].now < grace {
        assert reports[j].now - reports[l].now < grace;
      }
    } else if NeverStale(reports[..n], grace, l) {
      forall j | l <= j < n ensures reports[j].now - reports[l].now < grace {
        assert reports[..n][j].now - reports[..n][l].now < grace;
      }
    }
  }

  // ------------------------------------------------------------- what the clock may do

  function Times(reports: seq<Report>): (times: seq<int>)
    ensures |times| == |reports| && forall i :: 0 <= i < |reports| ==> times[i] == reports[i].now
  {
    seq(|reports|, i requires 0 <= i < |reports| => reports[i].now)
  }

  /** The clock may step back, but no reading since one that is still recent was ever
      a grace period ahead of a later one before it. */
  predicate ClockFine(times: seq<int>, grace: int) {
    forall i, l, j :: 0 <= i <= l <= j < |times| && times[|times| - 1] - times[i] < grace ==>
      times[j] - times[l] < grace
  }

  /** After every call the online keys are exactly those of the recent history,
      although older times have been thrown away. */
  lemma {:induction false} OnlineIffRecent(reports: seq<Report>, grace: int, key: string)
    requires ClockFine(Times(reports), grace)
    ensures key in After(reports, grace) <==> Recent(reports, grace, key)
    ensures key in After(reports, grace) ==> After(reports, grace)[key] == reports[LastIndex(reports, key)].now
  {
    PrunedKeepsLatest(reports, grace, key);
    var l, times := LastIndex(reports, key), Times(reports);
    if Recent(reports, grace, key) {
      var i :| 0 <= i < |reports| && key in reports[i].active && reports[|reports| - 1].now - reports[i].now < grace;
      assert i <= l && times[|times| - 1] - times[i] < grace;
      forall j | l <= j < |reports| ensures reports[j].now - reports[l].now < grace {
        assert times[j] - times[l] < grace;
      }
    }
    assert key in After(reports, grace) ==> reports[|reports| - 1].now - reports[l].now < grace;
  }

  ghost predicate MatchesHistory(reports: seq<Report>, grace: int) {
    forall key :: key in After(reports, grace) <==> Recent(reports, grace, key)
  }

  /** Exactly under these readings of the clock does the pruned set stand for the whole
      history, whatever was reported. */
  lemma MatchesHistoryIffClockFine(times: seq<int>, grace: int)
    ensures ClockFine(times, grace) <==> forall reports :: Times(reports) == times ==> MatchesHistory(reports, grace)
  {
    if ClockFine(times, grace) {
      forall reports, key | Times(reports) == times
        ensures key in After(reports, grace) <==> Recent(reports, grace, key)
      {
        OnlineIffRecent(reports, grace, key);
      }
    } else {
      var i, l, j :| 0 <= i <= l <= j < |times| && times[|times| - 1] - times[i] < grace
                  && times[j] - times[l] >= grace;
      LostKey(times, grace, i, l, j);
    }
  }

  /** The reports that name one key at i and at l only. */
  function Twice(times: seq<int>, i: nat, l: nat): (reports: seq<Report>)
    ensures |reports| == |times|
    ensures forall k :: 0 <= k < |times| ==> reports[k] == Report(if k == i || k == l then ["a"] else [], times[k])
  {
    seq(|times|, k requires 0 <= k < |times| => Report(if k == i || k == l then ["a"] else [], times[k]))
  }

  lemma LostKey(times: seq<int>, grace: int, i: nat, l: nat, j: nat)
    requires i <= l <= j < |times| && times[|times| - 1] - times[i] < grace && times[j] - times[l] >= grace
    ensures Times(Twice(times, i, l)) == times && !MatchesHistory(Twice(times, i, l), grace)
  {
    var reports := Twice(times, i, l);
    PrunedKeepsLatest(reports, grace, "a");
    assert "a" in reports[l].active && "a" in reports[i].active;
    assert LastIndex(reports, "a") == l by {
      var m := LastIndex(reports, "a");
      assert m >= l && "a" in reports[m].active;
    }
    assert reports[j].now - reports[l].now >= grace;
    assert Recent(reports, grace, "a");
    assert "a" !in After(reports, grace);
  }

  /** Times that never go back are fine, and then the time kept is the latest of all. */
  lemma OrderedIsFine(reports: seq<Report>, grace: int, key: string)
    requires Ordered(reports)
    ensures ClockFine(Times(reports), grace)
    ensures key in After(reports, grace) ==> IsLatest(reports, key, After(reports, grace)[key])
  {
    OrderedTimesFine(Times(reports), grace);
    PrunedKeepsLatest(reports, grace, key);
  }

  lemma OrderedTimesFine(times: seq<int>, grace: int)
    requires forall i, j :: 0 <= i < j < |times| ==> times[i] <= times[j]
    ensures ClockFine(times, grace)
  {
    forall i, l, j | 0 <= i <= l <= j < |times| && times[|times| - 1] - times[i] < grace
      ensures times[j] - times[l] < grace
    {
      assert times[i] <= times[l] && times[j] <= times[|times| - 1];
    }
  }

  ghost predicate IsLatest(reports: seq<Report>, key: string, time: int) {
    && (exists i :: 0 <= i < |reports| && key in reports[i].active && time == reports[i].now)
    && (forall i :: 0 <= i < |reports| && key in reports[i].active ==> reports[i].now <= time)
  }

  /** If every poll that reports an email also reports a tag the email used, then an
      email that is online always has an active tag of its own. */
  lemma OnlineEmailHasActiveTag(emails: seq<Report>, tags: seq<Report>, uses: (string, string) -> bool, grace: int,
                                email: string)
    requires Times(emails) == Times(tags) && ClockFine(Times(emails), grace)
    requires forall i, e :: 0 <= i < |emails| && e in emails[i].active ==> UsesOneOf(uses, e, tags[i].active)
    requires email in After(emails, grace)
    ensures exists tag :: tag in After(tags, grace) && uses(email, tag)
  {
    OnlineIffRecent(emails, grace, email);
    var tag := RecentTag(emails, tags, uses, grace, email);
    OnlineIffRecent(tags, grace, tag);
  }

  lemma RecentTag(emails: seq<Report>, tags: seq<Report>, uses: (string, string) -> bool, grace: int, email: string)
    returns (tag: string)
    requires Times(emails) == Times(tags) && Recent(emails, grace, email)
    requires forall i, e :: 0 <= i < |emails| && e in emails[i].active ==> UsesOneOf(uses, e, tags[i].active)
    ensures Recent(tags, grace, tag) && uses(email, tag)
  {
    var n := |emails| - 1;
    var i :| 0 <= i <= n && email in emails[i].active && emails[n].now - emails[i].now < grace;
    assert UsesOneOf(uses, email, tags[i].active);
    tag :| tag in tags[i].active && uses(email, tag);
    assert tags[n].now == Times(tags)[n] == emails[n].now;
    assert tags[i].now == Times(tags)[i] == emails[i].now;
  }

  ghost predicate UsesOneOf(uses: (string, string) -> bool, email: string, tags: seq<string>) {
    exists tag :: tag in tags && uses(email, tag)
  }

  /** Such a run: seen at 0, dropped at 100, and missing again at 5. */
  lemma ClockStepBackLosesAKey()
    ensures var reports := [Report(["a"], 0), Report([], 100), Report([], 5)];
      Recent(reports, 10, "a") && "a" !in After(reports, 10)
  {
    var reports := [Report(["a"], 0), Report([], 100), Report([], 5)];
    PrunedKeepsLatest(reports, 10, "a");
    assert "a" in reports[0].active && reports[2].now - reports[0].now < 10;
    assert LastIndex(reports, "a") == 0;
    assert reports[1].now - reports[0].now >= 10;
  }
}
