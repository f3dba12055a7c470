/** A whole pass of the collector of internal/mtproto/manager.go that nothing comes in
    between: afterwards the reports have caught up with the running processes. */
module MtgCollect {
  import opened MtgInstance
  import opened MtgManager
  import opened MtgTraffic

  /** Every snapshotted process is scraped and committed in turn; then the pass is over. */
  function Pass(n: nat): (actions: seq<Action>)
    ensures actions != []
  {
    if n == 0 then [Scrape(true)] else [Scrape(true), Commit] + Pass(n - 1)
  }

  function StepAll(host: nat -> Launch, w: World, actions: seq<Action>): World
    decreases |actions|
  {
    if actions == [] then w else StepAll(host, Step(host, w, actions[0]), actions[1..])
  }

  lemma RunSnoc(host: nat -> Launch, before: seq<Action>, a: Action)
    ensures Run(host, before + [a]) == Step(host, Run(host, before), a)
  {
    assert (before + [a])[..|before|] == before;
  }

  lemma StepAllFirst(host: nat -> Launch, w: World, actions: seq<Action>)
    requires actions != []
    ensures StepAll(host, w, actions) == StepAll(host, Step(host, w, actions[0]), actions[1..])
  {
  }

  lemma HeadMoved(before: seq<Action>, after: seq<Action>)
    requires after != []
    ensures before + [after[0]] + after[1..] == before + after
  {
  }

  lemma {:induction false} RunOn(host: nat -> Launch, before: seq<Action>, after: seq<Action>)
    ensures Run(host, before + after) == StepAll(host, Run(host, before), after)
    decreases |after|
  {
    if after == [] {
      assert before + after == before;
    } else {
      RunSnoc(host, before, after[0]);
      RunOn(host, before + [after[0]], after[1..]);
      StepAllFirst(host, Run(host, before), after);
      HeadMoved(before, after);
    }
  }

  /** The entry holds what its process has transferred by now as its baseline. */
  ghost predicate CaughtUp(w: World, id: int) {
    id in w.table.procs ==>
      var e := w.table.procs[id];
      e.haveLast && e.lastUp == At(w.up.counts, e.proc) && e.lastDown == At(w.down.counts, e.proc)
  }

  /** Everything a pass leaves alone. */
  ghost predicate SameOtherwise(w: World, v: World) {
    && v.up.counts == w.up.counts && v.down.counts == w.down.counts
    && v.table.live == w.table.live && v.table.procs.Keys == w.table.procs.Keys
    && forall id :: id in w.table.procs ==> v.table.procs[id].proc == w.table.procs[id].proc
  }

  /** The process of the snapshot is still the entry's. */
  ghost predicate AllOwn(t: Table, snaps: seq<Snap>) {
    forall i :: 0 <= i < |snaps| ==> Own(t, snaps[i])
  }

  /** One scrape and its commit. */
  lemma ScrapeAndCommit(host: nat -> Launch, w: World)
    requires w.phase.Scraping? && w.phase.pending != [] && Own(w.table, w.phase.pending[0])
    ensures var s, v := w.phase.pending[0], Step(host, Step(host, w, Scrape(true)), Commit);
      && v.phase == Scraping(w.phase.pending[1..]) && SameOtherwise(w, v) && CaughtUp(v, s.id)
      && forall id :: id != s.id && CaughtUp(w, id) ==> CaughtUp(v, id)
  {
  }

  /** What a pass over the pending snapshots makes of w. */
  ghost predicate Passed(w: World, v: World, pending: seq<Snap>) {
    && v.phase.Idle? && SameOtherwise(w, v)
    && (forall i :: 0 <= i < |pending| ==> CaughtUp(v, pending[i].id))
    && forall id :: CaughtUp(w, id) ==> CaughtUp(v, id)
  }

  lemma PassedFrom(w: World, next: World, v: World, pending: seq<Snap>)
    requires pending != [] && SameOtherwise(w, next) && CaughtUp(next, pending[0].id)
    requires forall id :: id != pending[0].id && CaughtUp(w, id) ==> CaughtUp(next, id)
    requires Passed(next, v, pending[1..])
    ensures Passed(w, v, pending)
  {
    forall i | 0 <= i < |pending| ensures CaughtUp(v, pending[i].id) {
      assert i > 0 ==> pending[1..][i - 1] == pending[i];
    }
  }

  lemma {:induction false} PassCatchesUp(host: nat -> Launch, w: World, pending: seq<Snap>)
    requires w.phase == Scraping(pending) && AllOwn(w.table, pending)
    ensures Passed(w, StepAll(host, w, Pass(|pending|)), pending)
    decreases |pending|
  {
    if pending == [] {
      assert Pass(0)[1..] == [];
    } else {
      var next := Step(host, Step(host, w, Scrape(true)), Commit);
      ScrapeAndCommit(host, w);
      RestStaysOwn(w, next, pending);
      PassCatchesUp(host, next, pending[1..]);
      TwoSteps(host, w, Pass(|pending| - 1));
      PassedFrom(w, next, StepAll(host, w, Pass(|pending|)), pending);
    }
  }

  lemma RestStaysOwn(w: World, next: World, pending: seq<Snap>)
    requires pending != [] && AllOwn(w.table, pending) && SameOtherwise(w, next)
    ensures AllOwn(next.table, pending[1..])
  {
    forall i | 0 <= i < |pending| - 1 ensures Own(next.table, pending[1..][i]) {
      assert Own(w.table, pending[i + 1]);
    }
  }

  lemma TwoSteps(host: nat -> Launch, w: World, more: seq<Action>)
    ensures StepAll(host, w, [Scrape(true), Commit] + more)
         == StepAll(host, Step(host, Step(host, w, Scrape(true)), Commit), more)
  {
    var all := [Scrape(true), Commit] + more;
    assert all[1..] == [Commit] + more && all[1..][1..] == more;
  }

  /** A pass that nothing comes in between reaches every running process: afterwards its
      baseline is all it has transferred, and unless it was handed another one's baseline,
      all of that since its first scrape has been reported. */
  lemma CollectCatchesUp(host: nat -> Launch, actions: seq<Action>, snaps: seq<Snap>, id: int, dir: Direction)
    requires Run(host, actions).phase.Idle? && IsSnapshot(Run(host, actions).table, snaps)
    requires var t := Run(host, actions).table; id in t.procs && t.procs[id].proc in t.live
    ensures var w := Run(host, actions);
      var v := Run(host, actions + ([Snapshot(snaps)] + Pass(|snaps|)));
      var p, books := w.table.procs[id].proc, Books(v, dir);
      && v.phase.Idle? && books.counts == Books(w, dir).counts
      && id in v.table.procs && v.table.procs[id].proc == p && v.table.procs[id].haveLast
      && EntryLast(v.table.procs[id], dir) == At(books.counts, p)
      && (p !in books.stale ==>
            p in books.first && Reported(v.reports, p, dir) == At(books.counts, p) - books.first[p])
  {
    var w := Run(host, actions);
    var after := [Snapshot(snaps)] + Pass(|snaps|);
    var started := Step(host, w, Snapshot(snaps));
    RunOn(host, actions, after);
    assert after[0] == Snapshot(snaps) && after[1..] == Pass(|snaps|);
    PassCatchesUp(host, started, snaps);
    assert SnapOf(w.table, id) in snaps;
    var i :| 0 <= i < |snaps| && snaps[i] == SnapOf(w.table, id);
    var v := Run(host, actions + after);
    assert CaughtUp(v, snaps[i].id);
    if w.table.procs[id].proc !in Books(v, dir).stale {
      BaselineIsLastScrape(host, actions + after, id, dir);
      ExactWhenUndisturbed(host, actions + after, v.table.procs[id].proc, dir);
    }
  }
}
