/** The traffic collector of internal/mtproto/manager.go against everything that can
    happen between its two locked sections. One collector runs at a time; a scrape
    reaches the process that was snapshotted, or fails. */
module MtgTraffic {
  import opened Text
  import opened MtgInstance
  import opened MtgManager

  datatype Direction = Up | Down

  datatype Bytes = Bytes(up: nat, down: nat)

  function Part(b: Bytes, dir: Direction): nat {
    if dir.Up? then b.up else b.down
  }

  /** One reported delta, with the inbound and process it was measured on. */
  datatype Report = Report(id: int, proc: nat, tag: string, bytes: Bytes)

  /** Where CollectTraffic is. */
  datatype Phase =
    | Idle
    | Scraping(pending: seq<Snap>)
    | Holding(snap: Snap, bytes: Bytes, pending: seq<Snap>)

  /** The books of one direction: counts is what each process has really transferred.
      The rest is kept for the record: total is what was reported as measured on a
      process, first the baseline it got from its own first scrape, last the value of
      its latest scrape that was measured or became a baseline, and stale holds the
      processes that were given the baseline of the process they replaced. */
  datatype Ledger = Ledger(
    counts: map<nat, nat>, total: map<nat, nat>, first: map<nat, nat>, last: map<nat, nat>, stale: set<nat>)

  datatype World = World(table: Table, up: Ledger, down: Ledger, phase: Phase, reports: seq<Report>)

  function Books(w: World, dir: Direction): Ledger {
    if dir.Up? then w.up else w.down
  }

  datatype Action =
    | Ensure(inst: Instance)
    | Remove(id: int)
    | Reconcile(desired: seq<Instance>)
    | StopAll
    | Die(proc: nat)
    | Transfer(proc: nat, bytes: Bytes)
    | Snapshot(snaps: seq<Snap>)
    | Scrape(reached: bool)
    | Commit

  function At(m: map<nat, nat>, p: nat): nat {
    if p in m then m[p] else 0
  }

  function EntryLast(e: Managed, dir: Direction): int {
    if dir.Up? then e.lastUp else e.lastDown
  }

  function SnapLast(s: Snap, dir: Direction): int {
    if dir.Up? then s.lastUp else s.lastDown
  }

  /** The delta reported for a scrape. */
  function DeltaOf(s: Snap, bytes: Bytes): Bytes {
    Bytes(Delta(s.haveLast, s.lastUp, bytes.up), Delta(s.haveLast, s.lastDown, bytes.down))
  }

  /** The entry a scrape is committed to belongs to the process that was scraped. */
  predicate Own(t: Table, s: Snap) {
    s.id in t.procs && t.procs[s.id].proc == s.proc
  }

  /** The books once the scrape of s, which found b and reports d, is committed. */
  function Booked(l: Ledger, t: Table, s: Snap, b: nat, d: nat): Ledger {
    Ledger(l.counts,
           l.total[s.proc := At(l.total, s.proc) + d],
           if Own(t, s) && !s.haveLast then l.first[s.proc := b] else l.first,
           if Own(t, s) || s.haveLast then l.last[s.proc := b] else l.last,
           if s.id in t.procs && !Own(t, s) then l.stale + {t.procs[s.id].proc} else l.stale)
  }

  function Moved(l: Ledger, p: nat, bytes: nat): Ledger {
    l.(counts := l.counts[p := At(l.counts, p) + bytes])
  }

  function Committed(w: World): World
    requires w.phase.Holding?
  {
    var s, b := w.phase.snap, w.phase.bytes;
    var d := DeltaOf(s, b);
    World(CommitResult(w.table, s.id, b.up, b.down),
          Booked(w.up, w.table, s, b.up, d.up),
          Booked(w.down, w.table, s, b.down, d.down),
          Scraping(w.phase.pending),
          w.reports + if s.haveLast && (d.up > 0 || d.down > 0) then [Report(s.id, s.proc, s.tag, d)] else [])
  }

  /** One step; an action that is not enabled changes nothing. */
  function Step(host: nat -> Launch, w: World, a: Action): World {
    match a
    case Ensure(inst) => w.(table := EnsureResult(host, w.table, inst))
    case Remove(id) => w.(table := RemoveResult(w.table, id))
    case Reconcile(desired) => w.(table := ReconcileResult(host, w.table, desired))
    case StopAll => w.(table := KeepOnly(w.table, {}))
    case Die(p) => w.(table := Crash(w.table, {p}))
    case Transfer(p, bytes) =>
      if p in w.table.live then w.(up := Moved(w.up, p, bytes.up), down := Moved(w.down, p, bytes.down)) else w
    case Snapshot(snaps) =>
      if w.phase.Idle? && IsSnapshot(w.table, snaps) then w.(phase := Scraping(snaps)) else w
    case Scrape(reached) =>
      if !w.phase.Scraping? then w
      else if w.phase.pending == [] then w.(phase := Idle)
      else
        var s, rest := w.phase.pending[0], w.phase.pending[1..];
        var bytes := Bytes(At(w.up.counts, s.proc), At(w.down.counts, s.proc));
        w.(phase := if reached then Holding(s, bytes, rest) else Scraping(rest))
    case Commit =>
      if w.phase.Holding? then Committed(w) else w
  }

  /** What the actions around the collector do: an ended process is not live, a removed
      inbound has no entry, and a transfer counts in full on a live process and not at all
      on any other. */
  lemma ActionsAct(host: nat -> Launch, w: World, p: nat, id: int, bytes: Bytes)
    requires Sound(w.table)
    ensures p !in Step(host, w, Die(p)).table.live && Step(host, w, Die(p)).table.procs == w.table.procs
    ensures id !in Step(host, w, Remove(id)).table.procs
    ensures id in w.table.procs ==> w.table.procs[id].proc !in Step(host, w, Remove(id)).table.live
    ensures Step(host, w, StopAll).table.procs == map[] && Step(host, w, StopAll).table.live == {}
    ensures var v, moved := Step(host, w, Transfer(p, bytes)), if p in w.table.live then bytes else Bytes(0, 0);
      && (forall q :: At(v.up.counts, q) == At(w.up.counts, q) + if q == p then moved.up else 0)
      && (forall q :: At(v.down.counts, q) == At(w.down.counts, q) + if q == p then moved.down else 0)
  {
    RemoveStops(w.table, id);
    StopAllStops(w.table);
  }

  /** With successful launches an ensured inbound runs with its config, and after a
      reconciliation exactly the desired ones are in the table. */
  lemma OperationsAct(host: nat -> Launch, w: World, inst: Instance, desired: seq<Instance>)
    requires Sound(w.table) && DistinctIds(desired) && forall k :: host(k).Started?
    ensures var t := Step(host, w, Ensure(inst)).table;
      && inst.id in t.procs && t.procs[inst.id].proc in t.live
      && t.procs[inst.id].fingerprint == Fingerprint(inst) && t.procs[inst.id].tag == inst.tag
    ensures Step(host, w, Reconcile(desired)).table.procs.Keys == Ids(desired)
  {
    EnsureServes(host, w.table, inst);
    ReconcileConverges(host, w.table, desired);
  }

  function Run(host: nat -> Launch, actions: seq<Action>): World {
    if actions == [] then
      var empty := Ledger(map[], map[], map[], map[], {});
      World(Table(map[], {}, 0, map[]), empty, empty, Idle, [])
    else Step(host, Run(host, actions[..|actions| - 1]), actions[|actions| - 1])
  }

  // ---------------------------------------------------------------- the totals

  /** Everything reported in one direction as measured on one process. */
  function Reported(reports: seq<Report>, p: nat, dir: Direction): nat {
    if reports == [] then 0
    else
      var r := reports[|reports| - 1];
      Reported(reports[..|reports| - 1], p, dir) + if r.proc == p then Part(r.bytes, dir) else 0
  }

  /** Everything reported in one direction for one inbound. */
  function ReportedFor(reports: seq<Report>, id: int, dir: Direction): nat {
    if reports == [] then 0
    else
      var r := reports[|reports| - 1];
      ReportedFor(reports[..|reports| - 1], id, dir) + if r.id == id then Part(r.bytes, dir) else 0
  }

  /** What the first n processes launched for an inbound really transferred. */
  function CountedFor(owner: map<nat, int>, counts: map<nat, nat>, id: int, n: nat): nat {
    if n == 0 then 0
    else
      var last := if n - 1 in owner && owner[n - 1] == id then At(counts, n - 1) else 0;
      CountedFor(owner, counts, id, n - 1) + last
  }

  // ------------------------------------------------------------- the invariant

  /** What the books say of one process. */
  datatype Known = Known(total: nat, count: nat, first: Option<nat>, stale: bool)

  function Of(l: Ledger, p: nat): Known {
    Known(At(l.total, p), At(l.counts, p), if p in l.first then Some(l.first[p]) else None, p in l.stale)
  }

  predicate Unmeasured(k: Known) {
    k.total == 0 && k.first.None? && !k.stale
  }

  /** A baseline the process can be measured against without over-counting: there is
      none and nothing was reported; or it is the stale one it was handed and nothing
      was reported yet; or it lies between what was reported and what was transferred.
      Unless the process is stale, the reports are exactly the traffic from its first
      scrape up to the baseline. */
  predicate Baseline(k: Known, have: bool, last: int) {
    if !have then Unmeasured(k)
    else if k.stale then last >= 0 && (k.total == 0 || k.total <= last <= k.count)
    else k.first.Some? && last == k.total + k.first.value && last <= k.count
  }

  ghost predicate EntriesKnown(t: Table, l: Ledger, dir: Direction) {
    forall id :: id in t.procs ==>
      Baseline(Of(l, t.procs[id].proc), t.procs[id].haveLast, EntryLast(t.procs[id], dir))
  }

  ghost predicate FreshUnmeasured(t: Table, l: Ledger) {
    forall p :: p >= t.launched ==> Unmeasured(Of(l, p))
  }

  ghost predicate Bounded(l: Ledger) {
    forall p :: At(l.total, p) <= At(l.counts, p)
  }

  /** A snapshot still to be committed: its process is either still the entry's, with
      the same baseline, or has been replaced by one that was never measured. */
  ghost predicate SnapKnown(t: Table, l: Ledger, s: Snap, dir: Direction) {
    && s.proc in t.owner && t.owner[s.proc] == s.id
    && Baseline(Of(l, s.proc), s.haveLast, SnapLast(s, dir))
    && (s.id in t.procs ==>
          var e := t.procs[s.id];
          if e.proc == s.proc then e.haveLast == s.haveLast && EntryLast(e, dir) == SnapLast(s, dir)
          else !e.haveLast && Unmeasured(Of(l, e.proc)))
  }

  ghost predicate SnapsKnown(t: Table, l: Ledger, snaps: seq<Snap>, dir: Direction) {
    && (forall i :: 0 <= i < |snaps| ==> SnapKnown(t, l, snaps[i], dir))
    && (forall i, j :: 0 <= i < j < |snaps| ==> snaps[i].id != snaps[j].id)
  }

  /** The bytes in hand are the process's own, taken after its snapshot. */
  predicate HeldKnown(k: Known, have: bool, last: int, b: nat) {
    b <= k.count && (have && !(k.stale && k.total == 0) ==> last <= b)
  }

  ghost predicate PhaseKnown(t: Table, l: Ledger, phase: Phase, dir: Direction) {
    match phase
    case Idle => true
    case Scraping(pending) => SnapsKnown(t, l, pending, dir)
    case Holding(s, b, pending) =>
      && SnapsKnown(t, l, [s] + pending, dir)
      && HeldKnown(Of(l, s.proc), s.haveLast, SnapLast(s, dir), Part(b, dir))
  }

  ghost predicate InvOf(t: Table, l: Ledger, phase: Phase, dir: Direction) {
    && EntriesKnown(t, l, dir)
    && FreshUnmeasured(t, l)
    && Bounded(l)
    && PhaseKnown(t, l, phase, dir)
  }

  ghost predicate Inv(w: World) {
    && Sound(w.table)
    && InvOf(w.table, w.up, w.phase, Up)
    && InvOf(w.table, w.down, w.phase, Down)
  }

  // -------------------------------------------------------- steps on the table

  /** How any operation on the table may change it: each entry keeps its process and
      baseline or belongs to a process launched by the operation. */
  ghost predicate Evolves(t: Table, u: Table) {
    && t.launched <= u.launched
    && (forall p :: p in t.owner ==> p in u.owner && u.owner[p] == t.owner[p])
    && (forall id :: id in u.procs ==> EntryEvolves(t, id, u.procs[id]))
  }

  predicate EntryEvolves(t: Table, id: int, e: Managed) {
    || (id in t.procs && e.proc == t.procs[id].proc && e.haveLast == t.procs[id].haveLast
        && e.lastUp == t.procs[id].lastUp && e.lastDown == t.procs[id].lastDown)
    || (e.proc >= t.launched && !e.haveLast)
  }

  lemma EnsureEvolves(host: nat -> Launch, t: Table, inst: Instance)
    requires Sound(t)
    ensures Evolves(t, EnsureResult(host, t, inst))
  {
  }

  lemma {:induction false} EnsureAllEvolves(host: nat -> Launch, t: Table, desired: seq<Instance>)
    requires Sound(t)
    ensures Evolves(t, EnsureAll(host, t, desired))
  {
    if desired != [] {
      var n := |desired| - 1;
      var before, after := EnsureAll(host, t, desired[..n]), EnsureAll(host, t, desired);
      EnsureAllEvolves(host, t, desired[..n]);
      EnsureAllSound(host, t, desired[..n]);
      EnsureEvolves(host, before, desired[n]);
      forall id | id in after.procs ensures EntryEvolves(t, id, after.procs[id]) {
        assert EntryEvolves(before, id, after.procs[id]);
        assert id in before.procs ==> EntryEvolves(t, id, before.procs[id]);
      }
    }
  }

  lemma EvolvedTable(t: Table, u: Table, l: Ledger, phase: Phase, dir: Direction)
    requires Sound(t) && Sound(u) && Evolves(t, u) && InvOf(t, l, phase, dir)
    ensures InvOf(u, l, phase, dir)
  {
    forall id | id in u.procs
      ensures Baseline(Of(l, u.procs[id].proc), u.procs[id].haveLast, EntryLast(u.procs[id], dir))
    {
      assert EntryEvolves(t, id, u.procs[id]);
      assert u.procs[id].proc >= t.launched ==> Unmeasured(Of(l, u.procs[id].proc));
    }
    match phase {
      case Idle =>
      case Scraping(pending) => EvolvedSnaps(t, u, l, pending, dir);
      case Holding(s, _, pending) => EvolvedSnaps(t, u, l, [s] + pending, dir);
    }
  }

  lemma EvolvedSnaps(t: Table, u: Table, l: Ledger, snaps: seq<Snap>, dir: Direction)
    requires Sound(t) && Sound(u) && Evolves(t, u) && FreshUnmeasured(t, l) && SnapsKnown(t, l, snaps, dir)
    ensures SnapsKnown(u, l, snaps, dir)
  {
    forall i | 0 <= i < |snaps| ensures SnapKnown(u, l, snaps[i], dir) {
      var s := snaps[i];
      assert SnapKnown(t, l, s, dir);
      if s.id in u.procs {
        assert EntryEvolves(t, s.id, u.procs[s.id]);
      }
    }
  }

  // ------------------------------------------------------ steps of the collector

  lemma TransferStep(t: Table, l: Ledger, phase: Phase, dir: Direction, p: nat, bytes: nat)
    requires InvOf(t, l, phase, dir)
    ensures InvOf(t, Moved(l, p, bytes), phase, dir)
  {
    var m := Moved(l, p, bytes);
    assert forall q :: Of(m, q) == Of(l, q).(count := Of(m, q).count) && Of(l, q).count <= Of(m, q).count;
    match phase {
      case Idle =>
      case Scraping(pending) => MovedSnaps(t, l, m, pending, dir);
      case Holding(s, _, pending) => MovedSnaps(t, l, m, [s] + pending, dir);
    }
  }

  lemma MovedSnaps(t: Table, l: Ledger, m: Ledger, snaps: seq<Snap>, dir: Direction)
    requires forall q :: Of(m, q) == Of(l, q).(count := Of(m, q).count) && Of(l, q).count <= Of(m, q).count
    requires SnapsKnown(t, l, snaps, dir)
    ensures SnapsKnown(t, m, snaps, dir)
  {
    forall i | 0 <= i < |snaps| ensures SnapKnown(t, m, snaps[i], dir) {
      assert SnapKnown(t, l, snaps[i], dir);
    }
  }

  lemma SnapshotStep(t: Table, l: Ledger, dir: Direction, snaps: seq<Snap>)
    requires Sound(t) && InvOf(t, l, Idle, dir) && IsSnapshot(t, snaps)
    ensures InvOf(t, l, Scraping(snaps), dir)
  {
    forall i | 0 <= i < |snaps| ensures SnapKnown(t, l, snaps[i], dir) {
      assert snaps[i].id in t.procs;
    }
  }

  lemma ScrapeStep(t: Table, l: Ledger, dir: Direction, pending: seq<Snap>, b: Bytes, reached: bool)
    requires InvOf(t, l, Scraping(pending), dir) && pending != []
    requires Part(b, dir) == At(l.counts, pending[0].proc)
    ensures InvOf(t, l, if reached then Holding(pending[0], b, pending[1..]) else Scraping(pending[1..]), dir)
  {
    var s, rest := pending[0], pending[1..];
    assert SnapKnown(t, l, s, dir);
    assert [s] + rest == pending;
    forall i | 0 <= i < |rest| ensures SnapKnown(t, l, rest[i], dir) {
      assert rest[i] == pending[i + 1];
    }
  }

  /** What a commit does to the books. */
  lemma BookedKnown(l: Ledger, t: Table, s: Snap, b: nat, d: nat, q: nat)
    ensures Of(Booked(l, t, s, b, d), q) == Known(
        if q == s.proc then Of(l, q).total + d else Of(l, q).total,
        Of(l, q).count,
        if q == s.proc && Own(t, s) && !s.haveLast then Some(b) else Of(l, q).first,
        Of(l, q).stale || (s.id in t.procs && !Own(t, s) && q == t.procs[s.id].proc))
  {
  }

  /** Measuring a process against a sound baseline never reports more than it
      transferred; if the baseline is its own, so is the new one. */
  lemma MeasureKnown(k: Known, have: bool, last: int, b: nat)
    requires Baseline(k, have, last) && HeldKnown(k, have, last, b) && k.total <= k.count
    ensures k.total + Delta(have, last, b) <= k.count
    ensures var first := if have then k.first else Some(b);
            Baseline(Known(k.total + Delta(have, last, b), k.count, first, k.stale), true, b)
  {
  }

  lemma CommitMeasured(t: Table, l: Ledger, s: Snap, b: nat, d: nat, dir: Direction)
    requires SnapKnown(t, l, s, dir) && Bounded(l)
    requires HeldKnown(Of(l, s.proc), s.haveLast, SnapLast(s, dir), b) && d == Delta(s.haveLast, SnapLast(s, dir), b)
    ensures var k := Of(Booked(l, t, s, b, d), s.proc);
      k.total <= k.count && (Own(t, s) ==> Baseline(k, true, b))
  {
    assert Of(l, s.proc).total <= Of(l, s.proc).count;
    BookedKnown(l, t, s, b, d, s.proc);
    MeasureKnown(Of(l, s.proc), s.haveLast, SnapLast(s, dir), b);
  }

  lemma CommitEntries(t: Table, l: Ledger, s: Snap, b: Bytes, d: nat, dir: Direction)
    requires Sound(t) && EntriesKnown(t, l, dir) && Bounded(l) && SnapKnown(t, l, s, dir)
    requires HeldKnown(Of(l, s.proc), s.haveLast, SnapLast(s, dir), Part(b, dir))
    requires d == Delta(s.haveLast, SnapLast(s, dir), Part(b, dir))
    ensures EntriesKnown(CommitResult(t, s.id, b.up, b.down), Booked(l, t, s, Part(b, dir), d), dir)
  {
    var u, m := CommitResult(t, s.id, b.up, b.down), Booked(l, t, s, Part(b, dir), d);
    forall id | id in u.procs
      ensures Baseline(Of(m, u.procs[id].proc), u.procs[id].haveLast, EntryLast(u.procs[id], dir))
    {
      var e := t.procs[id];
      assert Baseline(Of(l, e.proc), e.haveLast, EntryLast(e, dir));
      BookedKnown(l, t, s, Part(b, dir), d, e.proc);
      CommitMeasured(t, l, s, Part(b, dir), d, dir);
    }
  }

  lemma CommitSnap(t: Table, l: Ledger, s: Snap, b: Bytes, d: nat, dir: Direction, o: Snap)
    requires Sound(t) && SnapKnown(t, l, s, dir) && SnapKnown(t, l, o, dir) && o.id != s.id
    ensures SnapKnown(CommitResult(t, s.id, b.up, b.down), Booked(l, t, s, Part(b, dir), d), o, dir)
  {
    var m := Booked(l, t, s, Part(b, dir), d);
    assert Of(m, o.proc) == Of(l, o.proc) by {
      BookedKnown(l, t, s, Part(b, dir), d, o.proc);
    }
    if o.id in t.procs {
      assert Of(m, t.procs[o.id].proc) == Of(l, t.procs[o.id].proc) by {
        BookedKnown(l, t, s, Part(b, dir), d, t.procs[o.id].proc);
      }
    }
  }

  lemma CommitStep(t: Table, l: Ledger, dir: Direction, s: Snap, b: Bytes, pending: seq<Snap>, d: nat)
    requires Sound(t) && InvOf(t, l, Holding(s, b, pending), dir)
    requires d == Delta(s.haveLast, SnapLast(s, dir), Part(b, dir))
    ensures InvOf(CommitResult(t, s.id, b.up, b.down), Booked(l, t, s, Part(b, dir), d), Scraping(pending), dir)
  {
    var u, m := CommitResult(t, s.id, b.up, b.down), Booked(l, t, s, Part(b, dir), d);
    var snaps := [s] + pending;
    assert snaps[0] == s && SnapKnown(t, l, s, dir);
    CommitEntries(t, l, s, b, d, dir);
    CommitMeasured(t, l, s, Part(b, dir), d, dir);
    forall p: nat
      ensures At(m.total, p) <= At(m.counts, p)
      ensures p >= u.launched ==> Unmeasured(Of(m, p))
    {
      BookedKnown(l, t, s, Part(b, dir), d, p);
      assert At(l.total, p) <= At(l.counts, p);
      assert p >= t.launched ==> Unmeasured(Of(l, p));
    }
    forall i | 0 <= i < |pending| ensures SnapKnown(u, m, pending[i], dir) {
      assert snaps[i + 1] == pending[i] && snaps[0].id != snaps[i + 1].id;
      CommitSnap(t, l, s, b, d, dir, pending[i]);
    }
    forall i, j | 0 <= i < j < |pending| ensures pending[i].id != pending[j].id {
      assert snaps[i + 1].id != snaps[j + 1].id;
    }
  }

  lemma CommitSound(t: Table, s: Snap, b: Bytes)
    requires Sound(t)
    ensures Sound(CommitResult(t, s.id, b.up, b.down))
  {
  }

  // ------------------------------------------------------------------ all runs

  lemma TableStep(w: World, u: Table)
    requires Inv(w) && Sound(u) && Evolves(w.table, u)
    ensures Inv(w.(table := u))
  {
    EvolvedTable(w.table, u, w.up, w.phase, Up);
    EvolvedTable(w.table, u, w.down, w.phase, Down);
  }

  lemma CollectorStep(host: nat -> Launch, w: World, a: Action)
    requires Inv(w) && (a.Transfer? || a.Snapshot? || a.Scrape? || a.Commit?)
    ensures Inv(Step(host, w, a))
  {
    match a {
      case Transfer(p, bytes) =>
        TransferStep(w.table, w.up, w.phase, Up, p, bytes.up);
        TransferStep(w.table, w.down, w.phase, Down, p, bytes.down);
      case Snapshot(snaps) =>
        if w.phase.Idle? && IsSnapshot(w.table, snaps) {
          SnapshotStep(w.table, w.up, Up, snaps);
          SnapshotStep(w.table, w.down, Down, snaps);
        }
      case Scrape(reached) =>
        if w.phase.Scraping? && w.phase.pending != [] {
          var p := w.phase.pending[0].proc;
          var bytes := Bytes(At(w.up.counts, p), At(w.down.counts, p));
          ScrapeStep(w.table, w.up, Up, w.phase.pending, bytes, reached);
          ScrapeStep(w.table, w.down, Down, w.phase.pending, bytes, reached);
        }
      case Commit =>
        if w.phase.Holding? {
          var s, b := w.phase.snap, w.phase.bytes;
          CommitSound(w.table, s, b);
          CommitStep(w.table, w.up, Up, s, b, w.phase.pending, DeltaOf(s, b).up);
          CommitStep(w.table, w.down, Down, s, b, w.phase.pending, DeltaOf(s, b).down);
        }
    }
  }

  lemma StepInv(host: nat -> Launch, w: World, a: Action)
    requires Inv(w)
    ensures Inv(Step(host, w, a))
  {
    match a {
      case Ensure(inst) =>
        EnsureSound(host, w.table, inst);
        EnsureEvolves(host, w.table, inst);
        TableStep(w, EnsureResult(host, w.table, inst));
      case Remove(id) =>
        TableStep(w, RemoveResult(w.table, id));
      case Reconcile(desired) =>
        var kept := KeepOnly(w.table, Ids(desired));
        KeepOnlySound(w.table, Ids(desired));
        TableStep(w, kept);
        EnsureAllSound(host, kept, desired);
        EnsureAllEvolves(host, kept, desired);
        TableStep(w.(table := kept), EnsureAll(host, kept, desired));
      case StopAll =>
        KeepOnlySound(w.table, {});
        TableStep(w, KeepOnly(w.table, {}));
      case Die(p) =>
        TableStep(w, Crash(w.table, {p}));
      case _ =>
        CollectorStep(host, w, a);
    }
  }

  lemma {:induction false} RunInv(host: nat -> Launch, actions: seq<Action>)
    ensures Inv(Run(host, actions))
  {
    if actions != [] {
      RunInv(host, actions[..|actions| - 1]);
      StepInv(host, Run(host, actions[..|actions| - 1]), actions[|actions| - 1]);
    }
  }

  // --------------------------------------------------- the books and the reports

  lemma ReportedSnoc(reports: seq<Report>, r: Report, p: nat, dir: Direction)
    ensures Reported(reports + [r], p, dir) == Reported(reports, p, dir) + if r.proc == p then Part(r.bytes, dir) else 0
  {
    assert (reports + [r])[..|reports|] == reports;
  }

  /** The running total of a process is the sum of its reports, and every report
      names the inbound its process was launched for. */
  ghost predicate Accounted(w: World) {
    && (forall p, dir :: At(Books(w, dir).total, p) == Reported(w.reports, p, dir))
    && AllOwned(w.table.owner, w.reports)
  }

  ghost predicate AllOwned(owner: map<nat, int>, reports: seq<Report>) {
    forall i :: 0 <= i < |reports| ==> Owned(owner, reports[i])
  }

  predicate Owned(owner: map<nat, int>, r: Report) {
    r.proc in owner && owner[r.proc] == r.id
  }

  lemma CommitAccounted(w: World)
    requires Inv(w) && w.phase.Holding? && Accounted(w)
    ensures Accounted(Committed(w))
  {
    var s, b, v := w.phase.snap, w.phase.bytes, Committed(w);
    var d := DeltaOf(s, b);
    assert ([s] + w.phase.pending)[0] == s && SnapKnown(w.table, w.up, s, Up);
    assert w.reports + [] == w.reports;
    forall p: nat, dir: Direction ensures At(Books(v, dir).total, p) == Reported(v.reports, p, dir) {
      assert At(Books(w, dir).total, p) == Reported(w.reports, p, dir);
      BookedKnown(Books(w, dir), w.table, s, Part(b, dir), Part(d, dir), p);
      ReportedSnoc(w.reports, Report(s.id, s.proc, s.tag, d), p, dir);
    }
  }

  lemma StepOwners(host: nat -> Launch, w: World, a: Action)
    requires Inv(w)
    ensures forall p :: p in w.table.owner ==>
      p in Step(host, w, a).table.owner && Step(host, w, a).table.owner[p] == w.table.owner[p]
  {
    match a {
      case Ensure(inst) => EnsureEvolves(host, w.table, inst);
      case Reconcile(desired) =>
        KeepOnlySound(w.table, Ids(desired));
        EnsureAllEvolves(host, KeepOnly(w.table, Ids(desired)), desired);
      case _ =>
    }
  }

  lemma {:induction false} RunAccounted(host: nat -> Launch, actions: seq<Action>)
    ensures Accounted(Run(host, actions))
  {
    if actions != [] {
      var w, a := Run(host, actions[..|actions| - 1]), actions[|actions| - 1];
      RunAccounted(host, actions[..|actions| - 1]);
      RunInv(host, actions[..|actions| - 1]);
      if w.phase.Holding? && a.Commit? {
        CommitAccounted(w);
      } else {
        StepOwners(host, w, a);
        var v := Step(host, w, a);
        assert v.reports == w.reports;
        forall p: nat, dir: Direction ensures At(Books(v, dir).total, p) == Reported(v.reports, p, dir) {
          assert At(Books(w, dir).total, p) == Reported(w.reports, p, dir);
        }
        forall i | 0 <= i < |v.reports| ensures Owned(v.table.owner, v.reports[i]) {
          assert Owned(w.table.owner, w.reports[i]);
        }
      }
    }
  }

  /** The reports measured on the processes of one inbound, process by process. */
  function SumReported(owner: map<nat, int>, reports: seq<Report>, id: int, dir: Direction, n: nat): nat {
    if n == 0 then 0
    else
      var last := if n - 1 in owner && owner[n - 1] == id then Reported(reports, n - 1, dir) else 0;
      SumReported(owner, reports, id, dir, n - 1) + last
  }

  lemma {:induction false} SumNothing(owner: map<nat, int>, id: int, dir: Direction, n: nat)
    ensures SumReported(owner, [], id, dir, n) == 0
  {
    if n > 0 { SumNothing(owner, id, dir, n - 1); }
  }

  lemma {:induction false} SumSnoc(owner: map<nat, int>, reports: seq<Report>, r: Report, id: int, dir: Direction,
                                   n: nat)
    requires Owned(owner, r)
    ensures SumReported(owner, reports + [r], id, dir, n)
         == SumReported(owner, reports, id, dir, n) + if r.id == id && r.proc < n then Part(r.bytes, dir) else 0
  {
    if n > 0 {
      SumSnoc(owner, reports, r, id, dir, n - 1);
      ReportedSnoc(reports, r, n - 1, dir);
    }
  }

  lemma {:induction false} ReportsByProcess(owner: map<nat, int>, reports: seq<Report>, id: int, dir: Direction, n: nat)
    requires AllOwned(owner, reports) && forall p :: p in owner ==> p < n
    ensures ReportedFor(reports, id, dir) == SumReported(owner, reports, id, dir, n)
  {
    if reports == [] {
      SumNothing(owner, id, dir, n);
    } else {
      var k := |reports| - 1;
      assert Owned(owner, reports[k]);
      ReportsByProcess(owner, reports[..k], id, dir, n);
      SumSnoc(owner, reports[..k], reports[k], id, dir, n);
      assert reports == reports[..k] + [reports[k]];
    }
  }

  lemma {:induction false} SumBounded(w: World, id: int, dir: Direction, n: nat)
    requires Accounted(w) && Bounded(Books(w, dir))
    ensures SumReported(w.table.owner, w.reports, id, dir, n) <= CountedFor(w.table.owner, Books(w, dir).counts, id, n)
  {
    if n > 0 {
      SumBounded(w, id, dir, n - 1);
      assert At(Books(w, dir).total, n - 1) == Reported(w.reports, n - 1, dir);
      assert At(Books(w, dir).total, n - 1) <= At(Books(w, dir).counts, n - 1);
    }
  }

  /** Whatever happens between snapshot, scrape and commit, the traffic reported for
      an inbound never exceeds what its processes really transferred, process by
      process and in total. */
  lemma NeverOverCounted(host: nat -> Launch, actions: seq<Action>, id: int, dir: Direction)
    ensures var w := Run(host, actions);
      && (forall p :: Reported(w.reports, p, dir) <= At(Books(w, dir).counts, p))
      && ReportedFor(w.reports, id, dir) <= CountedFor(w.table.owner, Books(w, dir).counts, id, w.table.launched)
  {
    var w := Run(host, actions);
    RunInv(host, actions);
    RunAccounted(host, actions);
    forall p: nat ensures Reported(w.reports, p, dir) <= At(Books(w, dir).counts, p) {
      assert At(Books(w, dir).total, p) == Reported(w.reports, p, dir);
    }
    ReportsByProcess(w.table.owner, w.reports, id, dir, w.table.launched);
    SumBounded(w, id, dir, w.table.launched);
  }

  /** What is reported of a process that was never handed a baseline: nothing before
      its first scrape, and from then on its last scrape minus its first. */
  predicate ExactAt(l: Ledger, p: nat) {
    p !in l.stale ==>
      if p in l.first then p in l.last && l.last[p] == l.first[p] + At(l.total, p) else At(l.total, p) == 0
  }

  ghost predicate Exact(l: Ledger) {
    forall p :: ExactAt(l, p)
  }

  lemma CommitExact(t: Table, l: Ledger, s: Snap, b: nat, d: nat, dir: Direction)
    requires SnapKnown(t, l, s, dir) && Exact(l)
    requires HeldKnown(Of(l, s.proc), s.haveLast, SnapLast(s, dir), b) && d == Delta(s.haveLast, SnapLast(s, dir), b)
    ensures Exact(Booked(l, t, s, b, d))
  {
    forall p: nat ensures ExactAt(Booked(l, t, s, b, d), p) {
      assert ExactAt(l, p) && ExactAt(l, s.proc);
    }
  }

  lemma {:induction false} RunExact(host: nat -> Launch, actions: seq<Action>, dir: Direction)
    ensures Exact(Books(Run(host, actions), dir))
  {
    if actions != [] {
      var w, a := Run(host, actions[..|actions| - 1]), actions[|actions| - 1];
      RunExact(host, actions[..|actions| - 1], dir);
      RunInv(host, actions[..|actions| - 1]);
      if w.phase.Holding? && a.Commit? {
        var s, bytes := w.phase.snap, w.phase.bytes;
        assert ([s] + w.phase.pending)[0] == s;
        CommitExact(w.table, Books(w, dir), s, Part(bytes, dir), Part(DeltaOf(s, bytes), dir), dir);
      } else {
        SameRecords(host, w, a, dir);
      }
    }
  }

  /** Only a commit changes what was reported and scraped. */
  lemma SameRecords(host: nat -> Launch, w: World, a: Action, dir: Direction)
    requires !(w.phase.Holding? && a.Commit?) && Exact(Books(w, dir))
    ensures Exact(Books(Step(host, w, a), dir))
  {
    var l, m := Books(w, dir), Books(Step(host, w, a), dir);
    assert m.total == l.total && m.first == l.first && m.last == l.last && m.stale == l.stale;
    forall p: nat ensures ExactAt(m, p) {
      assert ExactAt(l, p);
    }
  }

  /** Every process that was not handed a stale baseline, whether it is still in the
      table or not, is accounted for exactly: what was reported of it is its last scrape
      minus its first, and nothing before that. */
  lemma ExactWhenUndisturbed(host: nat -> Launch, actions: seq<Action>, p: nat, dir: Direction)
    requires p !in Books(Run(host, actions), dir).stale
    ensures var w := Run(host, actions);
      var books := Books(w, dir);
      if p in books.first then p in books.last && books.last[p] == books.first[p] + Reported(w.reports, p, dir)
      else Reported(w.reports, p, dir) == 0
  {
    RunExact(host, actions, dir);
    RunAccounted(host, actions);
    var w := Run(host, actions);
    assert ExactAt(Books(w, dir), p);
    assert At(Books(w, dir).total, p) == Reported(w.reports, p, dir);
  }

  /** The baseline of an entry is the last scrape of its process, unless that process was
      handed another one's. */
  lemma BaselineIsLastScrape(host: nat -> Launch, actions: seq<Action>, id: int, dir: Direction)
    requires id in Run(host, actions).table.procs && Run(host, actions).table.procs[id].haveLast
    requires Run(host, actions).table.procs[id].proc !in Books(Run(host, actions), dir).stale
    ensures var e, books := Run(host, actions).table.procs[id], Books(Run(host, actions), dir);
      e.proc in books.first && e.proc in books.last && EntryLast(e, dir) == books.last[e.proc]
  {
    RunInv(host, actions);
    RunExact(host, actions, dir);
    var w := Run(host, actions);
    var e := w.table.procs[id];
    assert Baseline(Of(Books(w, dir), e.proc), e.haveLast, EntryLast(e, dir));
    assert ExactAt(Books(w, dir), e.proc);
  }
}
