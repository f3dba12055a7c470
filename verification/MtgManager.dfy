/** internal/mtproto/manager.go: the table of mtg processes and the operations that
    change it under the manager's lock. */
module MtgManager {
  import opened Text
  import opened MtgInstance

  /** How the operating system answers one launch: no free port, an unwritable
      config or a failed start, or a process on a metrics port. */
  datatype Launch = Failed | Started(metricsPort: int)

  /** A process is named by the number of the launch that started it. */
  datatype Managed = Managed(
    proc: nat, tag: string, fingerprint: string, metricsPort: int,
    lastUp: int, lastDown: int, haveLast: bool)

  /** The table with what is outside it: the live processes, the number of launches
      so far, and for the record which inbound each launch was for. */
  datatype Table = Table(procs: map<int, Managed>, live: set<nat>, launched: nat, owner: map<nat, int>)

  // -------------------------------------------------------- what they compute

  function StopAt(t: Table, id: int): Table
    requires id in t.procs
  {
    t.(procs := t.procs - {id}, live := t.live - {t.procs[id].proc})
  }

  predicate UpToDate(t: Table, inst: Instance) {
    && inst.id in t.procs
    && t.procs[inst.id].fingerprint == Fingerprint(inst)
    && t.procs[inst.id].proc in t.live
  }

  function StartFor(host: nat -> Launch, t: Table, inst: Instance): Table {
    var k := t.launched;
    match host(k)
    case Failed => t.(launched := k + 1)
    case Started(port) =>
      t.(procs := t.procs[inst.id := Managed(k, inst.tag, Fingerprint(inst), port, 0, 0, false)],
         live := t.live + {k}, launched := k + 1, owner := t.owner[k := inst.id])
  }

  function EnsureResult(host: nat -> Launch, t: Table, inst: Instance): Table {
    if UpToDate(t, inst) then
      t.(procs := t.procs[inst.id := t.procs[inst.id].(tag := inst.tag)])
    else
      StartFor(host, if inst.id in t.procs then StopAt(t, inst.id) else t, inst)
  }

  function RemoveResult(t: Table, id: int): Table {
    if id in t.procs then StopAt(t, id) else t
  }

  function KeepOnly(t: Table, want: set<int>): Table {
    t.(procs := map id | id in t.procs && id in want :: t.procs[id],
       live := t.live - set id | id in t.procs && id !in want :: t.procs[id].proc)
  }

  function EnsureAll(host: nat -> Launch, t: Table, desired: seq<Instance>): Table {
    if desired == [] then t
    else EnsureResult(host, EnsureAll(host, t, desired[..|desired| - 1]), desired[|desired| - 1])
  }

  function Ids(desired: seq<Instance>): set<int> {
    set inst | inst in desired :: inst.id
  }

  lemma IdsStep(desired: seq<Instance>, i: nat)
    requires i < |desired|
    ensures Ids(desired[..i + 1]) == Ids(desired[..i]) + {desired[i].id}
  {
    assert desired[..i + 1] == desired[..i] + [desired[i]];
  }

  function ReconcileResult(host: nat -> Launch, t: Table, desired: seq<Instance>): Table {
    EnsureAll(host, KeepOnly(t, Ids(desired)), desired)
  }

  // ------------------------------------------------- the collector's sections

  /** What CollectTraffic copies of an entry before it releases the lock. The
      process behind the metrics port is recorded with it. */
  datatype Snap = Snap(id: int, proc: nat, tag: string, haveLast: bool, lastUp: int, lastDown: int)

  function SnapOf(t: Table, id: int): Snap
    requires id in t.procs
  {
    var e := t.procs[id];
    Snap(id, e.proc, e.tag, e.haveLast, e.lastUp, e.lastDown)
  }

  /** A complete snapshot, in whatever order the table was walked. */
  predicate IsSnapshot(t: Table, snaps: seq<Snap>) {
    && (forall i :: 0 <= i < |snaps| ==>
          snaps[i].id in t.procs && t.procs[snaps[i].id].proc in t.live && snaps[i] == SnapOf(t, snaps[i].id))
    && (forall i, j :: 0 <= i < j < |snaps| ==> snaps[i].id != snaps[j].id)
    && (forall id :: id in t.procs && t.procs[id].proc in t.live ==> SnapOf(t, id) in snaps)
  }

  /** A snapshot names the inbounds with a running process, each once. */
  lemma SnapshotComplete(t: Table, snaps: seq<Snap>)
    requires IsSnapshot(t, snaps)
    ensures forall id :: (id in t.procs && t.procs[id].proc in t.live) <==>
      exists i :: 0 <= i < |snaps| && snaps[i].id == id
    ensures forall i :: 0 <= i < |snaps| ==>
      var e := t.procs[snaps[i].id];
      snaps[i] == Snap(snaps[i].id, e.proc, e.tag, e.haveLast, e.lastUp, e.lastDown)
    ensures forall i, j :: 0 <= i < j < |snaps| ==> snaps[i].id != snaps[j].id
  {
    forall id | id in t.procs && t.procs[id].proc in t.live
      ensures exists i :: 0 <= i < |snaps| && snaps[i].id == id
    {
      var i :| 0 <= i < |snaps| && snaps[i] == SnapOf(t, id);
    }
  }

  /** Traffic since the last scrape; a counter that went back counts as nothing. */
  function Delta(have: bool, last: int, current: int): nat {
    if have && current > last then current - last else 0
  }

  function CommitResult(t: Table, id: int, up: int, down: int): Table {
    if id in t.procs then
      t.(procs := t.procs[id := t.procs[id].(lastUp := up, lastDown := down, haveLast := true)])
    else t
  }

  // ------------------------------------------------------------------ the code

  class Manager {
    var procs: map<int, Managed>
    var live: set<nat>
    var launched: nat
    ghost var owner: map<nat, int>
    const host: nat -> Launch

    constructor (host: nat -> Launch)
      ensures this.host == host && State() == Table(map[], {}, 0, map[])
    {
      this.host := host;
      procs, live, launched, owner := map[], {}, 0, map[];
    }

    ghost function State(): Table
      reads this
    {
      Table(procs, live, launched, owner)
    }

    method Stop(proc: nat)
      modifies `live
      ensures live == old(live) - {proc}
    {
      live := live - {proc};
    }

    /** ensureLocked. */
    method EnsureLocked(inst: Instance) returns (ok: bool)
      modifies this
      ensures State() == EnsureResult(host, old(State()), inst)
      ensures ok <==> inst.id in procs
    {
      var fp := Fingerprint(inst);
      if inst.id in procs {
        var cur := procs[inst.id];
        if cur.fingerprint == fp && cur.proc in live {
          procs := procs[inst.id := cur.(tag := inst.tag)];
          return true;
        }
        Stop(cur.proc);
        procs := procs - {inst.id};
      }
      var k := launched;
      launched := launched + 1;
      match host(k) {
        case Failed =>
          return false;
        case Started(port) =>
          live := live + {k};
          owner := owner[k := inst.id];
          procs := procs[inst.id := Managed(k, inst.tag, fp, port, 0, 0, false)];
          return true;
      }
    }

    method Remove(id: int)
      modifies this
      ensures State() == RemoveResult(old(State()), id)
    {
      if id in procs {
        Stop(procs[id].proc);
        procs := procs - {id};
      }
    }

    /** The entries left once those outside want, and those still to be visited, are
        told apart. The map is walked in any order. */
    method StopUnwanted(want: set<int>)
      modifies this
      ensures State() == KeepOnly(old(State()), want)
    {
      var todo: set<int> := procs.Keys;
      while todo != {}
        invariant todo <= old(procs).Keys
        invariant procs == map id | id in old(procs) && (id in want || id in todo) :: old(procs)[id]
        invariant live == old(live) - set id | id in old(procs) && id !in want && id !in todo :: old(procs)[id].proc
        invariant launched == old(launched) && owner == old(owner)
        decreases todo
      {
        var id := Pick(todo);
        todo := todo - {id};
        if id !in want {
          Stop(procs[id].proc);
          procs := procs - {id};
        }
      }
    }

    method Reconcile(desired: seq<Instance>)
      modifies this
      ensures State() == ReconcileResult(host, old(State()), desired)
    {
      var want: set<int> := {};
      for i := 0 to |desired|
        invariant want == Ids(desired[..i])
        invariant State() == old(State())
      {
        IdsStep(desired, i);
        want := want + {desired[i].id};
      }
      assert desired[..|desired|] == desired;
      StopUnwanted(want);
      ghost var kept := State();
      for i := 0 to |desired|
        invariant State() == EnsureAll(host, kept, desired[..i])
      {
        assert desired[..i + 1][..i] == desired[..i];
        var _ := EnsureLocked(desired[i]);
      }
    }

    method StopAll()
      modifies this
      ensures State() == KeepOnly(old(State()), {})
    {
      StopUnwanted({});
    }

    /** First locked section of CollectTraffic. */
    method SnapshotRunning() returns (snaps: seq<Snap>)
      ensures IsSnapshot(State(), snaps)
    {
      snaps := [];
      var todo: set<int> := procs.Keys;
      while todo != {}
        invariant todo <= procs.Keys
        invariant forall i :: 0 <= i < |snaps| ==>
          (snaps[i].id in procs && snaps[i].id !in todo
           && procs[snaps[i].id].proc in live && snaps[i] == SnapOf(State(), snaps[i].id))
        invariant forall i, j :: 0 <= i < j < |snaps| ==> snaps[i].id != snaps[j].id
        invariant forall id :: id in procs && id !in todo && procs[id].proc in live ==> SnapOf(State(), id) in snaps
        decreases todo
      {
        var id := Pick(todo);
        todo := todo - {id};
        var cur := procs[id];
        if cur.proc in live {
          var s := Snap(id, cur.proc, cur.tag, cur.haveLast, cur.lastUp, cur.lastDown);
          assert forall x :: x in snaps ==> x in snaps + [s];
          assert s in snaps + [s];
          snaps := snaps + [s];
        }
      }
    }

    /** Second locked section of CollectTraffic. */
    method CommitScrape(s: Snap, up: int, down: int)
      modifies `procs
      ensures State() == CommitResult(old(State()), s.id, up, down)
    {
      if s.id in procs {
        procs := procs[s.id := procs[s.id].(lastUp := up, lastDown := down, haveLast := true)];
      }
    }
  }

  // --------------------------------------------------------------- convergence

  /** Every entry has a process of its own, every live process has an entry. */
  ghost predicate Sound(t: Table) {
    && (forall id :: id in t.procs ==>
          t.procs[id].proc < t.launched && t.procs[id].proc in t.owner && t.owner[t.procs[id].proc] == id)
    && (forall p :: p in t.live ==> p in t.owner && t.owner[p] in t.procs && t.procs[t.owner[p]].proc == p)
    && (forall p :: p in t.owner ==> p < t.launched)
  }

  lemma EnsureSound(host: nat -> Launch, t: Table, inst: Instance)
    requires Sound(t)
    ensures Sound(EnsureResult(host, t, inst))
  {
  }

  lemma {:induction false} EnsureAllSound(host: nat -> Launch, t: Table, desired: seq<Instance>)
    requires Sound(t)
    ensures Sound(EnsureAll(host, t, desired))
  {
    if desired != [] {
      var n := |desired| - 1;
      EnsureAllSound(host, t, desired[..n]);
      EnsureSound(host, EnsureAll(host, t, desired[..n]), desired[n]);
    }
  }

  /** No operation loses a process or runs two for one inbound. */
  lemma OperationsSound(host: nat -> Launch, t: Table, inst: Instance, id: int, desired: seq<Instance>)
    requires Sound(t)
    ensures Sound(EnsureResult(host, t, inst)) && Sound(RemoveResult(t, id))
    ensures Sound(ReconcileResult(host, t, desired)) && Sound(KeepOnly(t, {}))
  {
    EnsureSound(host, t, inst);
    KeepOnlySound(t, Ids(desired));
    KeepOnlySound(t, {});
    EnsureAllSound(host, KeepOnly(t, Ids(desired)), desired);
  }

  lemma KeepOnlySound(t: Table, want: set<int>)
    requires Sound(t)
    ensures Sound(KeepOnly(t, want))
  {
    var u := KeepOnly(t, want);
    forall p | p in u.live ensures u.owner[p] in u.procs && u.procs[u.owner[p]].proc == p {
      var id := t.owner[p];
      assert id in t.procs && t.procs[id].proc == p;
      var stopped := set x | x in t.procs && x !in want :: t.procs[x].proc;
      assert p !in stopped;
    }
  }

  /** Remove ends the inbound's process and forgets it, and touches no other inbound. */
  lemma RemoveStops(t: Table, id: int)
    requires Sound(t)
    ensures var u := RemoveResult(t, id);
      && id !in u.procs && (id in t.procs ==> t.procs[id].proc !in u.live)
      && forall other :: other != id ==>
           && (other in u.procs <==> other in t.procs)
           && (other in t.procs ==>
                 u.procs[other] == t.procs[other]
                 && (t.procs[other].proc in u.live <==> t.procs[other].proc in t.live))
  {
  }

  /** StopAll leaves no entry and no process. */
  lemma StopAllStops(t: Table)
    requires Sound(t)
    ensures KeepOnly(t, {}).procs == map[] && KeepOnly(t, {}).live == {}
  {
    KeepOnlySound(t, {});
    assert KeepOnly(t, {}).procs == map[];
  }

  predicate DistinctIds(desired: seq<Instance>) {
    forall i, j :: 0 <= i < j < |desired| ==> desired[i].id != desired[j].id
  }

  /** The entry of an instance is its own: running, tagged and configured for it. */
  predicate Serves(t: Table, inst: Instance) {
    && inst.id in t.procs
    && t.procs[inst.id].proc in t.live
    && t.procs[inst.id].fingerprint == Fingerprint(inst)
    && t.procs[inst.id].tag == inst.tag
  }

  /** The inbound's slot looks the same in both tables, baseline included. */
  ghost predicate SameSlot(t: Table, u: Table, id: int) {
    && (id in t.procs <==> id in u.procs)
    && (id in t.procs ==>
          t.procs[id] == u.procs[id] && (t.procs[id].proc in t.live <==> u.procs[id].proc in u.live))
  }

  lemma EnsureLocal(host: nat -> Launch, t: Table, inst: Instance)
    requires Sound(t)
    ensures var u := EnsureResult(host, t, inst);
      && (forall id :: id != inst.id ==> SameSlot(t, u, id))
      && u.launched == t.launched + (if UpToDate(t, inst) then 0 else 1)
      && (Serves(t, inst) ==> u == t)
  {
    var u := EnsureResult(host, t, inst);
    if Serves(t, inst) {
      assert u.procs == t.procs;
    }
  }

  lemma EnsureServes(host: nat -> Launch, t: Table, inst: Instance)
    requires Sound(t)
    ensures var u := EnsureResult(host, t, inst);
      && (inst.id in u.procs ==> Serves(u, inst))
      && (inst.id !in u.procs ==> host(t.launched).Failed? && u.launched == t.launched + 1)
      && u.procs.Keys <= t.procs.Keys + {inst.id}
      && t.launched <= u.launched
  {
  }

  /** After Reconcile the table holds no undesired inbound, whatever is in it serves
      its instance, and an inbound is missing only when a launch failed. */
  lemma {:induction false} EnsureAllServes(host: nat -> Launch, t: Table, desired: seq<Instance>)
    requires Sound(t) && DistinctIds(desired)
    ensures var u := EnsureAll(host, t, desired);
      && u.procs.Keys <= t.procs.Keys + Ids(desired)
      && t.launched <= u.launched
      && (forall i :: 0 <= i < |desired| ==>
            if desired[i].id in u.procs then Serves(u, desired[i])
            else exists k :: t.launched <= k < u.launched && host(k).Failed?)
  {
    if desired != [] {
      var n := |desired| - 1;
      var before, inst := EnsureAll(host, t, desired[..n]), desired[n];
      EnsureAllServes(host, t, desired[..n]);
      EnsureAllSound(host, t, desired[..n]);
      EnsureServes(host, before, inst);
      EnsureLocal(host, before, inst);
      assert desired == desired[..n] + [inst];
      var u := EnsureAll(host, t, desired);
      forall i | 0 <= i < |desired|
        ensures if desired[i].id in u.procs then Serves(u, desired[i])
                else exists k :: t.launched <= k < u.launched && host(k).Failed?
      {
        if i < n {
          assert desired[..n][i] == desired[i] && SameSlot(before, u, desired[i].id);
        } else if inst.id !in u.procs {
          assert t.launched <= before.launched < u.launched;
        }
      }
    }
  }

  /** Afterwards every entry is a desired one, with a running process that was given this
      instance's config; and no desired one is missing unless a launch failed. */
  lemma ReconcileConverges(host: nat -> Launch, t: Table, desired: seq<Instance>)
    requires Sound(t) && DistinctIds(desired)
    ensures var u := ReconcileResult(host, t, desired);
      && Sound(u) && u.procs.Keys <= Ids(desired)
      && (forall i :: 0 <= i < |desired| && desired[i].id in u.procs ==>
            var e := u.procs[desired[i].id];
            e.proc in u.live && e.fingerprint == Fingerprint(desired[i]) && e.tag == desired[i].tag)
      && ((forall k :: t.launched <= k < u.launched ==> host(k).Started?) ==> u.procs.Keys == Ids(desired))
  {
    var kept := KeepOnly(t, Ids(desired));
    KeepOnlySound(t, Ids(desired));
    EnsureAllSound(host, kept, desired);
    EnsureAllServes(host, kept, desired);
  }

  /** What becomes of one slot: a running process with the right config stays, whatever
      its baseline; else, when there is a process afterwards, it is a new one, which
      listens where its launch said and has no baseline. */
  ghost predicate KeptOrNew(host: nat -> Launch, t: Table, u: Table, inst: Instance) {
    var id := inst.id;
    if id in t.procs && t.procs[id].proc in t.live && t.procs[id].fingerprint == Fingerprint(inst) then
      id in u.procs && u.procs[id] == t.procs[id].(tag := inst.tag) && u.procs[id].proc in u.live
    else
      id in u.procs ==>
        var e := u.procs[id];
        && t.launched <= e.proc < u.launched && e.proc in u.live
        && host(e.proc) == Started(e.metricsPort) && !e.haveLast
  }

  lemma {:induction false} EnsureAllKeepsOrStarts(host: nat -> Launch, t: Table, desired: seq<Instance>, i: nat)
    requires Sound(t) && DistinctIds(desired) && i < |desired|
    ensures KeptOrNew(host, t, EnsureAll(host, t, desired), desired[i])
  {
    var n := |desired| - 1;
    var before, inst := EnsureAll(host, t, desired[..n]), desired[n];
    EnsureAllSound(host, t, desired[..n]);
    if i < n {
      EnsureAllKeepsOrStarts(host, t, desired[..n], i);
      ElsewhereStep(host, before, before, inst, desired[i].id);
      KeptOrNewLater(host, t, before, EnsureAll(host, t, desired), desired[i]);
    } else {
      EnsureAllElsewhere(host, t, desired[..n], inst.id);
      KeptOrNewNow(host, t, before, inst);
    }
  }

  lemma ElsewhereStep(host: nat -> Launch, t: Table, before: Table, inst: Instance, id: int)
    requires Sound(before) && id != inst.id && SameSlot(t, before, id)
    ensures SameSlot(t, EnsureResult(host, before, inst), id)
    ensures before.launched <= EnsureResult(host, before, inst).launched
  {
    EnsureLocal(host, before, inst);
  }

  lemma KeptOrNewLater(host: nat -> Launch, t: Table, before: Table, u: Table, inst: Instance)
    requires KeptOrNew(host, t, before, inst) && SameSlot(before, u, inst.id) && before.launched <= u.launched
    ensures KeptOrNew(host, t, u, inst)
  {
  }

  lemma KeptOrNewNow(host: nat -> Launch, t: Table, before: Table, inst: Instance)
    requires Sound(before) && SameSlot(t, before, inst.id) && t.launched <= before.launched
    ensures KeptOrNew(host, t, EnsureResult(host, before, inst), inst)
  {
  }

  lemma {:induction false} EnsureAllElsewhere(host: nat -> Launch, t: Table, desired: seq<Instance>, id: int)
    requires Sound(t) && id !in Ids(desired)
    ensures SameSlot(t, EnsureAll(host, t, desired), id) && t.launched <= EnsureAll(host, t, desired).launched
  {
    if desired != [] {
      var n := |desired| - 1;
      assert desired == desired[..n] + [desired[n]];
      EnsureAllElsewhere(host, t, desired[..n], id);
      EnsureAllSound(host, t, desired[..n]);
      ElsewhereStep(host, t, EnsureAll(host, t, desired[..n]), desired[n], id);
    }
  }

  lemma ReconcileKeepsOrStarts(host: nat -> Launch, t: Table, desired: seq<Instance>, i: nat)
    requires Sound(t) && DistinctIds(desired) && i < |desired|
    ensures KeptOrNew(host, t, ReconcileResult(host, t, desired), desired[i])
  {
    var kept := KeepOnly(t, Ids(desired));
    KeepOnlySound(t, Ids(desired));
    assert desired[i].id in Ids(desired);
    if desired[i].id in t.procs && t.procs[desired[i].id].proc in t.live {
      assert t.procs[desired[i].id].proc in kept.live by {
        assert t.owner[t.procs[desired[i].id].proc] == desired[i].id;
      }
    }
    EnsureAllKeepsOrStarts(host, kept, desired, i);
  }

  /** Some processes die on their own. */
  function Crash(t: Table, dead: set<nat>): Table {
    t.(live := t.live - dead)
  }

  function Unserved(t: Table, desired: seq<Instance>): nat {
    if desired == [] then 0
    else
      var n := |desired| - 1;
      Unserved(t, desired[..n]) + if Serves(t, desired[n]) then 0 else 1
  }

  lemma AgainStep(host: nat -> Launch, t: Table, before: Table, inst: Instance)
    requires Sound(before) && SameSlot(t, before, inst.id)
    requires UpToDate(t, inst) ==> Serves(t, inst)
    ensures var u := EnsureResult(host, before, inst);
      && u.launched == before.launched + (if Serves(t, inst) then 0 else 1)
      && (Serves(t, inst) ==> u == before)
  {
    EnsureLocal(host, before, inst);
  }

  lemma {:induction false} LaunchesAgain(host: nat -> Launch, t: Table, desired: seq<Instance>)
    requires Sound(t) && DistinctIds(desired)
    requires forall i :: 0 <= i < |desired| && UpToDate(t, desired[i]) ==> Serves(t, desired[i])
    ensures EnsureAll(host, t, desired).launched == t.launched + Unserved(t, desired)
    ensures Unserved(t, desired) == 0 ==> EnsureAll(host, t, desired) == t
  {
    if desired != [] {
      var n := |desired| - 1;
      assert forall i :: 0 <= i < n ==> desired[..n][i] == desired[i];
      LaunchesAgain(host, t, desired[..n]);
      EnsureAllSound(host, t, desired[..n]);
      EnsureAllElsewhere(host, t, desired[..n], desired[n].id);
      AgainStep(host, t, EnsureAll(host, t, desired[..n]), desired[n]);
    }
  }

  /** Running the desired instances through a table launches exactly one process for
      each that is not served; an entry that serves its instance stays as it is,
      baseline included. */
  lemma EnsureAllAgain(host: nat -> Launch, t: Table, desired: seq<Instance>)
    requires Sound(t) && DistinctIds(desired)
    requires forall i :: 0 <= i < |desired| && UpToDate(t, desired[i]) ==> Serves(t, desired[i])
    ensures var u := EnsureAll(host, t, desired);
      && u.launched == t.launched + Unserved(t, desired)
      && (forall id :: id !in Ids(desired) ==> SameSlot(t, u, id))
      && (forall i :: 0 <= i < |desired| && Serves(t, desired[i]) ==> SameSlot(t, u, desired[i].id))
      && (Unserved(t, desired) == 0 ==> u == t)
  {
    LaunchesAgain(host, t, desired);
    forall id | id !in Ids(desired) ensures SameSlot(t, EnsureAll(host, t, desired), id) {
      EnsureAllElsewhere(host, t, desired, id);
    }
    forall i | 0 <= i < |desired| && Serves(t, desired[i])
      ensures SameSlot(t, EnsureAll(host, t, desired), desired[i].id)
    {
      EnsureAllKeepsOrStarts(host, t, desired, i);
    }
  }

  /** Repeating Reconcile, after some processes died on their own, starts exactly one
      process per inbound that is not served and touches no other entry; when nothing
      died it changes nothing at all. */
  lemma ReconcileAgain(host: nat -> Launch, t: Table, desired: seq<Instance>, dead: set<nat>)
    requires Sound(t) && DistinctIds(desired)
    requires var first := ReconcileResult(host, t, desired); first.procs.Keys == Ids(desired)
    ensures
      var crashed := Crash(ReconcileResult(host, t, desired), dead);
      var again := ReconcileResult(host, crashed, desired);
      && again.launched == crashed.launched + Unserved(crashed, desired)
      && (forall i :: 0 <= i < |desired| && Serves(crashed, desired[i]) ==> SameSlot(crashed, again, desired[i].id))
      && (crashed == ReconcileResult(host, t, desired) ==> again == crashed)
  {
    var first := ReconcileResult(host, t, desired);
    var crashed := Crash(first, dead);
    ReconcileConverges(host, t, desired);
    KeepAll(crashed, Ids(desired));
    forall i | 0 <= i < |desired| && UpToDate(crashed, desired[i]) ensures Serves(crashed, desired[i]) {
      assert Serves(first, desired[i]);
    }
    EnsureAllAgain(host, crashed, desired);
    if crashed == first {
      forall i | 0 <= i < |desired| ensures Serves(crashed, desired[i]) {
        assert desired[i].id in Ids(desired);
      }
      AllServed(crashed, desired);
    }
  }

  /** When the starts succeed, an inbound whose process died runs a new one afterwards, and
      one whose process still runs keeps it, port and baseline included. */
  lemma DiedIsRestarted(host: nat -> Launch, t: Table, desired: seq<Instance>, dead: set<nat>, i: nat)
    requires Sound(t) && DistinctIds(desired) && i < |desired|
    requires var first := ReconcileResult(host, t, desired);
      var again := ReconcileResult(host, first.(live := first.live - dead), desired);
      forall k :: t.launched <= k < again.launched ==> host(k).Started?
    ensures var first := ReconcileResult(host, t, desired);
      var again := ReconcileResult(host, first.(live := first.live - dead), desired);
      var id := desired[i].id;
      && id in first.procs && id in again.procs
      && again.procs[id].proc in again.live
      && again.procs[id].fingerprint == Fingerprint(desired[i])
      && (first.procs[id].proc in dead ==> again.procs[id].proc >= first.launched)
      && (first.procs[id].proc !in dead ==> again.procs[id] == first.procs[id])
  {
    var first := ReconcileResult(host, t, desired);
    var crashed := Crash(first, dead);
    ReconcileConverges(host, t, desired);
    LaunchesGrow(host, t, desired);
    LaunchesGrow(host, crashed, desired);
    assert desired[i].id in Ids(desired);
    ReconcileConverges(host, crashed, desired);
    ReconcileKeepsOrStarts(host, crashed, desired, i);
  }

  lemma LaunchesGrow(host: nat -> Launch, t: Table, desired: seq<Instance>)
    requires Sound(t) && DistinctIds(desired)
    ensures t.launched <= ReconcileResult(host, t, desired).launched
  {
    KeepOnlySound(t, Ids(desired));
    EnsureAllServes(host, KeepOnly(t, Ids(desired)), desired);
  }

  lemma KeepAll(t: Table, want: set<int>)
    requires t.procs.Keys <= want
    ensures KeepOnly(t, want) == t
  {
    assert KeepOnly(t, want).procs == t.procs;
    assert (set id | id in t.procs && id !in want :: t.procs[id].proc) == {};
  }

  lemma {:induction false} AllServed(t: Table, desired: seq<Instance>)
    requires forall i :: 0 <= i < |desired| ==> Serves(t, desired[i])
    ensures Unserved(t, desired) == 0
  {
    if desired != [] {
      assert forall i :: 0 <= i < |desired| - 1 ==> desired[..|desired| - 1][i] == desired[i];
      AllServed(t, desired[..|desired| - 1]);
    }
  }
}
