/** Under which tag the collector of internal/mtproto/manager.go reports, and the totals
    its caller sees, who knows nothing but the tags. */
module MtgTags {
  import opened MtgInstance
  import opened MtgManager
  import opened MtgTraffic

  /** The action hands the table this tag for this inbound. */
  ghost predicate Gives(a: Action, id: int, tag: string) {
    || (a.Ensure? && a.inst.id == id && a.inst.tag == tag)
    || (a.Reconcile? && Names(a.desired, id, tag))
  }

  ghost predicate Names(desired: seq<Instance>, id: int, tag: string) {
    exists i :: 0 <= i < |desired| && desired[i].id == id && desired[i].tag == tag
  }

  ghost predicate Given(actions: seq<Action>, id: int, tag: string) {
    exists i :: 0 <= i < |actions| && Gives(actions[i], id, tag)
  }

  /** The inbound's entry has this process and this tag. */
  predicate Shows(t: Table, id: int, proc: nat, tag: string) {
    id in t.procs && t.procs[id].proc == proc && t.procs[id].tag == tag
  }

  /** It had them after the first n actions. */
  ghost predicate ShownAfter(host: nat -> Launch, actions: seq<Action>, n: nat, id: int, proc: nat, tag: string) {
    n <= |actions| && Shows(Run(host, actions[..n]).table, id, proc, tag)
  }

  ghost predicate Shown(host: nat -> Launch, actions: seq<Action>, id: int, proc: nat, tag: string) {
    exists n: nat :: ShownAfter(host, actions, n, id, proc, tag)
  }

  lemma ShownLater(host: nat -> Launch, actions: seq<Action>, id: int, proc: nat, tag: string)
    requires actions != [] && Shown(host, actions[..|actions| - 1], id, proc, tag)
    ensures Shown(host, actions, id, proc, tag)
  {
    var n: nat :| ShownAfter(host, actions[..|actions| - 1], n, id, proc, tag);
    assert actions[..|actions| - 1][..n] == actions[..n];
    assert ShownAfter(host, actions, n, id, proc, tag);
  }

  lemma GivenLater(actions: seq<Action>, n: nat, id: int, tag: string)
    requires n <= |actions| && Given(actions[..n], id, tag)
    ensures Given(actions, id, tag)
  {
    var i :| 0 <= i < n && Gives(actions[..n][i], id, tag);
    assert Gives(actions[i], id, tag);
  }

  // ------------------------------------------------------- tags in the table

  lemma EnsureTags(host: nat -> Launch, t: Table, inst: Instance, id: int)
    requires id in EnsureResult(host, t, inst).procs
    ensures var e := EnsureResult(host, t, inst).procs[id];
      (id in t.procs && e.tag == t.procs[id].tag) || (id == inst.id && e.tag == inst.tag)
  {
  }

  lemma {:induction false} EnsureAllTags(host: nat -> Launch, t: Table, desired: seq<Instance>, id: int)
    requires id in EnsureAll(host, t, desired).procs
    ensures var e := EnsureAll(host, t, desired).procs[id];
      (id in t.procs && e.tag == t.procs[id].tag) || Names(desired, id, e.tag)
  {
    if desired != [] {
      var n := |desired| - 1;
      var before := EnsureAll(host, t, desired[..n]);
      var tag := EnsureAll(host, t, desired).procs[id].tag;
      EnsureTags(host, before, desired[n], id);
      if id in before.procs && before.procs[id].tag == tag {
        EnsureAllTags(host, t, desired[..n], id);
        if i :| 0 <= i < n && desired[..n][i].id == id && desired[..n][i].tag == tag {
          assert desired[i].id == id && desired[i].tag == tag;
        }
      }
    }
  }

  lemma StepTags(host: nat -> Launch, w: World, a: Action, id: int)
    requires id in Step(host, w, a).table.procs
    ensures var e := Step(host, w, a).table.procs[id];
      (id in w.table.procs && e.tag == w.table.procs[id].tag) || Gives(a, id, e.tag)
  {
    match a {
      case Ensure(inst) => EnsureTags(host, w.table, inst, id);
      case Reconcile(desired) => EnsureAllTags(host, KeepOnly(w.table, Ids(desired)), desired, id);
      case _ =>
    }
  }

  /** The tag of an entry is one that its inbound was given. */
  lemma {:induction false} EntryTagGiven(host: nat -> Launch, actions: seq<Action>, id: int)
    requires id in Run(host, actions).table.procs
    ensures Given(actions, id, Run(host, actions).table.procs[id].tag)
  {
    if actions != [] {
      var n := |actions| - 1;
      var tag := Run(host, actions).table.procs[id].tag;
      StepTags(host, Run(host, actions[..n]), actions[n], id);
      if !Gives(actions[n], id, tag) {
        EntryTagGiven(host, actions[..n], id);
        GivenLater(actions, n, id, tag);
      }
    }
  }

  // ------------------------------------------------ tags on the way to a report

  function Pending(phase: Phase): seq<Snap> {
    match phase
    case Idle => []
    case Scraping(pending) => pending
    case Holding(s, _, pending) => [s] + pending
  }

  ghost predicate SnapShown(host: nat -> Launch, actions: seq<Action>, s: Snap) {
    Shown(host, actions, s.id, s.proc, s.tag)
  }

  ghost predicate ReportShown(host: nat -> Launch, actions: seq<Action>, r: Report) {
    Shown(host, actions, r.id, r.proc, r.tag)
  }

  lemma StepPending(host: nat -> Launch, w: World, a: Action)
    ensures var v := Step(host, w, a);
      forall s :: s in Pending(v.phase) ==>
        s in Pending(w.phase)
        || (a.Snapshot? && v.table == w.table && Shows(w.table, s.id, s.proc, s.tag))
  {
    if a.Scrape? && w.phase.Scraping? && w.phase.pending != [] {
      var s, rest := w.phase.pending[0], w.phase.pending[1..];
      assert w.phase.pending == [s] + rest;
    }
  }

  lemma StepReports(host: nat -> Launch, w: World, a: Action)
    ensures var v := Step(host, w, a);
      forall r :: r in v.reports ==>
        r in w.reports || exists s :: s in Pending(w.phase) && s.id == r.id && s.proc == r.proc && s.tag == r.tag
  {
    if a.Commit? && w.phase.Holding? {
      var s := w.phase.snap;
      assert s in Pending(w.phase);
      assert Step(host, w, a).reports == w.reports || Step(host, w, a).reports
          == w.reports + [Report(s.id, s.proc, s.tag, DeltaOf(s, w.phase.bytes))];
    }
  }

  lemma {:induction false} RunShown(host: nat -> Launch, actions: seq<Action>)
    ensures forall s :: s in Pending(Run(host, actions).phase) ==> SnapShown(host, actions, s)
    ensures forall r :: r in Run(host, actions).reports ==> ReportShown(host, actions, r)
  {
    if actions != [] {
      var n := |actions| - 1;
      var w, a := Run(host, actions[..n]), actions[n];
      RunShown(host, actions[..n]);
      StepPending(host, w, a);
      StepReports(host, w, a);
      forall s | s in Pending(Run(host, actions).phase) ensures SnapShown(host, actions, s) {
        if s in Pending(w.phase) {
          assert SnapShown(host, actions[..n], s);
          ShownLater(host, actions, s.id, s.proc, s.tag);
        } else {
          assert ShownAfter(host, actions, n, s.id, s.proc, s.tag);
        }
      }
      forall r | r in Run(host, actions).reports ensures ReportShown(host, actions, r) {
        if r in w.reports {
          assert ReportShown(host, actions[..n], r);
        } else {
          var s :| s in Pending(w.phase) && s.id == r.id && s.proc == r.proc && s.tag == r.tag;
          assert SnapShown(host, actions[..n], s);
        }
        ShownLater(host, actions, r.id, r.proc, r.tag);
      }
    }
  }

  /** Whatever happens during a scrape, a report goes out under a tag that the inbound's
      entry had, with the very process that was measured, after some earlier action, and
      that some Ensure or Reconcile gave to this inbound. */
  lemma ReportTagged(host: nat -> Launch, actions: seq<Action>, i: nat)
    requires i < |Run(host, actions).reports|
    ensures var r := Run(host, actions).reports[i];
      && Given(actions, r.id, r.tag)
      && exists n: nat :: n <= |actions| && var t := Run(host, actions[..n]).table;
           r.id in t.procs && t.procs[r.id].proc == r.proc && t.procs[r.id].tag == r.tag
  {
    var r := Run(host, actions).reports[i];
    RunShown(host, actions);
    assert ReportShown(host, actions, r);
    var n: nat :| ShownAfter(host, actions, n, r.id, r.proc, r.tag);
    EntryTagGiven(host, actions[..n], r.id);
    GivenLater(actions, n, r.id, r.tag);
  }

  // ------------------------------------------------------------ totals per tag

  /** What the caller can add up: everything reported in one direction under a tag. */
  function ReportedUnder(reports: seq<Report>, tag: string, dir: Direction): nat {
    if reports == [] then 0
    else
      var r := reports[|reports| - 1];
      ReportedUnder(reports[..|reports| - 1], tag, dir) + if r.tag == tag then Part(r.bytes, dir) else 0
  }

  /** No inbound is ever given two tags, and no two inbounds the same one. */
  ghost predicate TagsIdentify(actions: seq<Action>) {
    forall i, j, id, jd, tag, uag :: 0 <= i < |actions| && 0 <= j < |actions| ==>
      Gives(actions[i], id, tag) && Gives(actions[j], jd, uag) ==>
        (id == jd <==> tag == uag)
  }

  lemma {:induction false} SameTotals(reports: seq<Report>, id: int, tag: string, dir: Direction)
    requires forall r :: r in reports ==> (r.id == id <==> r.tag == tag)
    ensures ReportedUnder(reports, tag, dir) == ReportedFor(reports, id, dir)
  {
    if reports != [] {
      SameTotals(reports[..|reports| - 1], id, tag, dir);
    }
  }

  lemma TagTotals(host: nat -> Launch, actions: seq<Action>, id: int, tag: string, dir: Direction)
    requires TagsIdentify(actions) && Given(actions, id, tag)
    ensures var reports := Run(host, actions).reports;
      ReportedUnder(reports, tag, dir) == ReportedFor(reports, id, dir)
  {
    var reports := Run(host, actions).reports;
    forall r | r in reports ensures r.id == id <==> r.tag == tag {
      var k :| 0 <= k < |reports| && reports[k] == r;
      ReportTagged(host, actions, k);
      var i :| 0 <= i < |actions| && Gives(actions[i], r.id, r.tag);
      var j :| 0 <= j < |actions| && Gives(actions[j], id, tag);
    }
    SameTotals(reports, id, tag, dir);
  }

  /** What was scraped of the first n processes of an inbound, first scrapes taken off. */
  function ScrapedFor(owner: map<nat, int>, l: Ledger, id: int, n: nat): int {
    if n == 0 then 0
    else
      var p := n - 1;
      ScrapedFor(owner, l, id, p)
      + if p in owner && owner[p] == id && p in l.first then At(l.last, p) - l.first[p] else 0
  }

  lemma {:induction false} SumScraped(host: nat -> Launch, actions: seq<Action>, id: int, dir: Direction, n: nat)
    requires var w := Run(host, actions);
      forall p :: p in w.table.owner && w.table.owner[p] == id ==> p !in Books(w, dir).stale
    ensures var w := Run(host, actions);
      SumReported(w.table.owner, w.reports, id, dir, n) == ScrapedFor(w.table.owner, Books(w, dir), id, n)
  {
    if n > 0 {
      SumScraped(host, actions, id, dir, n - 1);
      var w := Run(host, actions);
      if n - 1 in w.table.owner && w.table.owner[n - 1] == id {
        ExactWhenUndisturbed(host, actions, n - 1, dir);
      }
    }
  }

  /** Under its tag an inbound is never reported with more than its processes transferred;
      and when none of them was handed another one's baseline, with exactly what was
      scraped of each since its first scrape. */
  lemma TagTotalsTrue(host: nat -> Launch, actions: seq<Action>, id: int, tag: string, dir: Direction)
    requires TagsIdentify(actions) && Given(actions, id, tag)
    ensures var w := Run(host, actions);
      ReportedUnder(w.reports, tag, dir) <= CountedFor(w.table.owner, Books(w, dir).counts, id, w.table.launched)
    ensures var w := Run(host, actions);
      (forall p :: p in w.table.owner && w.table.owner[p] == id ==> p !in Books(w, dir).stale) ==>
        ReportedUnder(w.reports, tag, dir) == ScrapedFor(w.table.owner, Books(w, dir), id, w.table.launched)
  {
    var w := Run(host, actions);
    TagTotals(host, actions, id, tag, dir);
    NeverOverCounted(host, actions, id, dir);
    if forall p :: p in w.table.owner && w.table.owner[p] == id ==> p !in Books(w, dir).stale {
      RunInv(host, actions);
      RunAccounted(host, actions);
      ReportsByProcess(w.table.owner, w.reports, id, dir, w.table.launched);
      SumScraped(host, actions, id, dir, w.table.launched);
    }
  }
}
