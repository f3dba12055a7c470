/** The start/wait/stop lifecycle of internal/xray/process.go, step by step. Start and
    Stop are serialised by their callers; process exits and the waiting goroutines run
    freely. Non-Windows path. */
module Lifecycle {

  datatype Exit = Clean | Error

  /** Where one started command is. The stages from Exited on belong to its goroutine:
      it reads the stop flag, perhaps reports a crash, and closes done. A failed start
      is closed by startCommand itself. */
  datatype Stage = Launching | Running | Exited(exit: Exit) | Reporting | Returning | Closed

  /** One call of startCommand, with what happened to it for the record: how often its
      done channel was closed and OnCrash fired, how it exited, whether Stop set the
      flag during it, and whether it did so before the exit. */
  datatype Incarnation = Incarnation(
    stage: Stage, closes: nat, crashes: nat, failedExit: bool, stopped: bool, stoppedBeforeExit: bool)

  /** What the serialised caller is doing. */
  datatype Op = Free | StartChecked | StartPublished | StartCleared | StartFailed | StopChecked | StopFlagged

  /** cmd says whether p.cmd is set; when set it is the last incarnation's command, as
      done is always the last incarnation's channel. */
  datatype State = State(incs: seq<Incarnation>, cmd: bool, flag: bool, op: Op)

  datatype Event =
    | CallStart | Publish | ClearFlag | LaunchOk | LaunchFails | DropCommand
    | CallStop | SetFlag | StopReturns
    | OsExit(i: nat, exit: Exit)
    | WaiterReadsFlag(i: nat) | WaiterReports(i: nat) | WaiterCloses(i: nat)

  function Last(s: State): nat
    requires s.incs != []
  {
    |s.incs| - 1
  }

  /** IsRunning: a started command whose done channel is open. */
  predicate IsRunning(s: State) {
    s.cmd && s.incs != [] && !s.incs[Last(s)].stage.Launching? && !s.incs[Last(s)].stage.Closed?
  }

  function Put(s: State, i: nat, inc: Incarnation): State
    requires i < |s.incs|
  {
    s.(incs := s.incs[i := inc])
  }

  /** One step; an event that is not enabled changes nothing. */
  function Step(s: State, e: Event): State {
    match e
    case CallStart =>
      if s.op.Free? && !IsRunning(s) then s.(op := StartChecked) else s
    case Publish =>
      if s.op.StartChecked? then
        s.(incs := s.incs + [Incarnation(Launching, 0, 0, false, false, false)], cmd := true, op := StartPublished)
      else s
    case ClearFlag =>
      if s.op.StartPublished? then s.(flag := false, op := StartCleared) else s
    case LaunchOk =>
      if s.op.StartCleared? && s.incs != [] then
        Put(s, Last(s), s.incs[Last(s)].(stage := Running)).(op := Free)
      else s
    case LaunchFails =>
      if s.op.StartCleared? && s.incs != [] then
        var inc := s.incs[Last(s)];
        Put(s, Last(s), inc.(stage := Closed, closes := inc.closes + 1)).(op := StartFailed)
      else s
    case DropCommand =>
      if s.op.StartFailed? then s.(cmd := false, op := Free) else s
    case CallStop =>
      if s.op.Free? && IsRunning(s) then s.(op := StopChecked) else s
    case SetFlag =>
      if s.op.StopChecked? && s.incs != [] then
        var inc := s.incs[Last(s)];
        Put(s, Last(s), inc.(stopped := true, stoppedBeforeExit := inc.stoppedBeforeExit || inc.stage.Running?))
          .(flag := true, op := StopFlagged)
      else s
    case StopReturns =>
      if s.op.StopFlagged? then s.(op := Free) else s
    case OsExit(i, exit) =>
      if i < |s.incs| && s.incs[i].stage.Running? then
        Put(s, i, s.incs[i].(stage := Exited(exit), failedExit := exit.Error?))
      else s
    case WaiterReadsFlag(i) =>
      if i < |s.incs| && s.incs[i].stage.Exited? then
        Put(s, i, s.incs[i].(stage := if s.incs[i].stage.exit.Clean? || s.flag then Returning else Reporting))
      else s
    case WaiterReports(i) =>
      if i < |s.incs| && s.incs[i].stage.Reporting? then
        Put(s, i, s.incs[i].(stage := Returning, crashes := s.incs[i].crashes + 1))
      else s
    case WaiterCloses(i) =>
      if i < |s.incs| && s.incs[i].stage.Returning? then
        Put(s, i, s.incs[i].(stage := Closed, closes := s.incs[i].closes + 1))
      else s
  }

  function Run(events: seq<Event>): State {
    if events == [] then State([], false, false, Free)
    else Step(Run(events[..|events| - 1]), events[|events| - 1])
  }

  // ------------------------------------------------------------- the invariant

  /** What holds of one incarnation at each stage. */
  predicate Consistent(inc: Incarnation) {
    && inc.closes == (if inc.stage.Closed? then 1 else 0)
    && (inc.stoppedBeforeExit ==> inc.stopped)
    && match inc.stage
       case Launching => inc.crashes == 0 && !inc.failedExit && !inc.stopped
       case Running => inc.crashes == 0 && !inc.failedExit && (inc.stopped ==> inc.stoppedBeforeExit)
       case Exited(exit) => inc.crashes == 0 && inc.failedExit == exit.Error?
       case Reporting => inc.crashes == 0 && inc.failedExit && !inc.stoppedBeforeExit
       case _ =>
         && inc.crashes <= 1
         && (inc.crashes == 1 ==> inc.failedExit && !inc.stoppedBeforeExit)
         && (inc.failedExit && !inc.stopped ==> inc.crashes == 1)
  }

  predicate Starting(op: Op) {
    op.StartPublished? || op.StartCleared?
  }

  /** Earlier incarnations are over, so a restart clears the flag under no one. */
  ghost predicate Inv(s: State) {
    && (forall i :: 0 <= i < |s.incs| ==> Consistent(s.incs[i]))
    && (forall i :: 0 <= i < |s.incs| - 1 ==> s.incs[i].stage.Closed?)
    && (s.incs == [] ==> !s.cmd && !s.flag && (s.op.Free? || s.op.StartChecked?))
    && (s.incs != [] ==>
          var last := s.incs[Last(s)];
          && (last.stage.Launching? <==> Starting(s.op))
          && (s.op.StartChecked? || s.op.StartFailed? ==> last.stage.Closed?)
          && (!s.cmd ==> last.stage.Closed? && !s.op.StartPublished? && !s.op.StartCleared?)
          && (!s.op.StartPublished? ==> s.flag == last.stopped))
  }

  lemma StepInv(s: State, e: Event)
    requires Inv(s)
    ensures Inv(Step(s, e))
  {
  }

  lemma {:induction false} RunInv(events: seq<Event>)
    ensures Inv(Run(events))
  {
    if events != [] {
      RunInv(events[..|events| - 1]);
      StepInv(Run(events[..|events| - 1]), events[|events| - 1]);
    }
  }

  // ---------------------------------------------------------------- the results

  /** In every reachable state: done is closed at most once per start, and exactly once
      when the incarnation is over; at most the last incarnation is not over. */
  lemma DoneClosedOnce(events: seq<Event>, i: nat)
    requires i < |Run(events).incs|
    ensures var inc := Run(events).incs[i];
      && inc.closes <= 1 && (inc.closes == 1 <==> inc.stage.Closed?)
      && (i < |Run(events).incs| - 1 ==> inc.stage.Closed?)
  {
    RunInv(events);
    assert Consistent(Run(events).incs[i]);
  }

  /** An exit after Stop set its flag never counts as a crash, not even once later
      starts have cleared the flag. */
  lemma StoppedExitNeverCrashes(events: seq<Event>, i: nat)
    requires i < |Run(events).incs| && Run(events).incs[i].stoppedBeforeExit
    ensures Run(events).incs[i].crashes == 0 && !Run(events).incs[i].stage.Reporting?
  {
    RunInv(events);
    assert Consistent(Run(events).incs[i]);
  }

  /** An error exit of an incarnation Stop never touched fires OnCrash exactly once
      before done closes; nothing else ever fires it. */
  lemma CrashReportedOnce(events: seq<Event>, i: nat)
    requires i < |Run(events).incs|
    ensures var inc := Run(events).incs[i];
      && inc.crashes <= 1
      && (inc.crashes == 1 ==> inc.failedExit && !inc.stoppedBeforeExit)
      && (inc.stage.Closed? && !inc.stopped ==> (inc.crashes == 1 <==> inc.failedExit))
  {
    RunInv(events);
    assert Consistent(Run(events).incs[i]);
  }

  /** The record of an incarnation only grows, and a closed one changes no more except
      that a Stop racing with its exit may still be noted. */
  predicate Grown(inc: Incarnation, later: Incarnation) {
    && (inc.stoppedBeforeExit ==> later.stoppedBeforeExit)
    && (inc.failedExit ==> later.failedExit)
    && inc.crashes <= later.crashes && inc.closes <= later.closes
    && (inc.stage.Closed? ==> later == inc || later == inc.(stopped := true))
  }

  lemma StepGrows(s: State, e: Event, i: nat)
    requires Inv(s) && i < |s.incs|
    ensures i < |Step(s, e).incs| && Grown(s.incs[i], Step(s, e).incs[i])
  {
    assert Consistent(s.incs[i]);
  }

  lemma SnocOfSum<T>(a: seq<T>, b: seq<T>)
    requires b != []
    ensures (a + b)[..|a + b| - 1] == a + b[..|b| - 1] && (a + b)[|a + b| - 1] == b[|b| - 1]
  {
  }

  /** What happened to an incarnation stays on its record, so the results above hold
      for good once they hold. */
  lemma {:induction false} RecordsKept(before: seq<Event>, after: seq<Event>, i: nat)
    requires i < |Run(before).incs|
    ensures i < |Run(before + after).incs| && Grown(Run(before).incs[i], Run(before + after).incs[i])
    decreases |after|
  {
    if after == [] {
      assert before + after == before;
    } else {
      var n := |after| - 1;
      RecordsKept(before, after[..n], i);
      SnocOfSum(before, after);
      RunInv(before + after[..n]);
      StepGrows(Run(before + after[..n]), after[n], i);
    }
  }

  // --------------------------------------------------------- whole calls of the caller

  lemma RunSnoc(events: seq<Event>, e: Event)
    ensures Run(events + [e]) == Step(Run(events), e)
  {
    assert (events + [e])[..|events|] == events;
  }

  /** A start of a process that does not run leaves a new incarnation running, with the
      stop flag clear, and earlier ones as they were. */
  lemma StartRuns(events: seq<Event>)
    requires Run(events).op.Free? && !IsRunning(Run(events))
    ensures var s, t := Run(events), Run(events + [CallStart] + [Publish] + [ClearFlag] + [LaunchOk]);
      && t.op.Free? && IsRunning(t) && !t.flag
      && t.incs == s.incs + [Incarnation(Running, 0, 0, false, false, false)]
  {
    RunInv(events);
    RunSnoc(events, CallStart);
    RunSnoc(events + [CallStart], Publish);
    RunSnoc(events + [CallStart] + [Publish], ClearFlag);
    RunSnoc(events + [CallStart] + [Publish] + [ClearFlag], LaunchOk);
  }

  /** A start that fails leaves nothing running, and its done channel closed once. */
  lemma FailedStartCloses(events: seq<Event>)
    requires Run(events).op.Free? && !IsRunning(Run(events))
    ensures var s := Run(events);
      var t := Run(events + [CallStart] + [Publish] + [ClearFlag] + [LaunchFails] + [DropCommand]);
      && t.op.Free? && !IsRunning(t) && !t.cmd
      && t.incs == s.incs + [Incarnation(Closed, 1, 0, false, false, false)]
  {
    RunInv(events);
    RunSnoc(events, CallStart);
    RunSnoc(events + [CallStart], Publish);
    RunSnoc(events + [CallStart] + [Publish], ClearFlag);
    RunSnoc(events + [CallStart] + [Publish] + [ClearFlag], LaunchFails);
    RunSnoc(events + [CallStart] + [Publish] + [ClearFlag] + [LaunchFails], DropCommand);
  }

  /** A stop of a running process sets its flag before the exit, so the exit that follows,
      clean or not, is not reported as a crash. */
  lemma StopIsQuiet(events: seq<Event>, exit: Exit)
    requires Run(events).op.Free? && IsRunning(Run(events)) && Run(events).incs[Last(Run(events))].stage.Running?
    ensures var i := Last(Run(events));
      var t := Run(events + [CallStop] + [SetFlag] + [OsExit(i, exit)] + [WaiterReadsFlag(i)] + [WaiterCloses(i)]
                   + [StopReturns]);
      && t.op.Free? && t.flag && !IsRunning(t) && i < |t.incs|
      && t.incs[i] == Incarnation(Closed, 1, 0, exit.Error?, true, true)
  {
    var i := Last(Run(events));
    RunInv(events);
    assert Consistent(Run(events).incs[i]);
    RunSnoc(events, CallStop);
    RunSnoc(events + [CallStop], SetFlag);
    RunSnoc(events + [CallStop] + [SetFlag], OsExit(i, exit));
    RunSnoc(events + [CallStop] + [SetFlag] + [OsExit(i, exit)], WaiterReadsFlag(i));
    RunSnoc(events + [CallStop] + [SetFlag] + [OsExit(i, exit)] + [WaiterReadsFlag(i)], WaiterCloses(i));
    RunSnoc(events + [CallStop] + [SetFlag] + [OsExit(i, exit)] + [WaiterReadsFlag(i)] + [WaiterCloses(i)],
            StopReturns);
  }

  // ------------------------------------------------------------------- progress

  /** How far an incarnation has come. */
  function Rank(inc: Incarnation): nat {
    match inc.stage
    case Launching => 0
    case Running => 1
    case Exited(_) => 2
    case Reporting => 3
    case Returning => 4
    case Closed => 5
  }

  /** The event is the incarnation's own next one after it has come that far. */
  predicate Raises(e: Event, i: nat, rank: nat) {
    match rank
    case 1 => e.OsExit? && e.i == i
    case 2 => e == WaiterReadsFlag(i)
    case 3 => e == WaiterReports(i)
    case 4 => e == WaiterCloses(i)
    case _ => false
  }

  /** No step takes an incarnation back, and its own next one takes it on. */
  lemma StepRanks(s: State, e: Event, i: nat, rank: nat)
    requires Inv(s) && i < |s.incs|
    ensures i < |Step(s, e).incs| && Rank(s.incs[i]) <= Rank(Step(s, e).incs[i])
    ensures rank <= Rank(s.incs[i]) && Raises(e, i, rank) ==> rank < Rank(Step(s, e).incs[i])
  {
  }

  function RankIn(events: seq<Event>, i: nat): nat {
    if i < |Run(events).incs| then Rank(Run(events).incs[i]) else 0
  }

  /** A step from one rank to another that is no step back, and one up when the event
      is the incarnation's own next one. */
  ghost predicate MovesUp(rank: nat, next: nat, e: Event, i: nat) {
    rank <= next && forall low: nat :: Raises(e, i, low) && low <= rank ==> low < next
  }

  lemma StepMovesUp(s: State, next: State, e: Event, i: nat)
    requires Inv(s) && i < |s.incs| && next == Step(s, e)
    ensures i < |next.incs| && MovesUp(Rank(s.incs[i]), Rank(next.incs[i]), e, i)
  {
    forall low: nat ensures Raises(e, i, low) && low <= Rank(s.incs[i]) ==> low < Rank(next.incs[i]) {
      StepRanks(s, e, i, low);
    }
    StepRanks(s, e, i, 0);
  }

  lemma RunStep(before: seq<Event>, after: seq<Event>, k: nat)
    requires k < |after|
    ensures Run(before + after[..k + 1]) == Step(Run(before + after[..k]), after[k])
    ensures Inv(Run(before + after[..k]))
  {
    SnocOfSum(before, after[..k + 1]);
    assert after[..k + 1][..k] == after[..k];
    RunInv(before + after[..k]);
  }

  lemma RankStep(before: seq<Event>, after: seq<Event>, i: nat, k: nat)
    requires i < |Run(before).incs| && k < |after|
    ensures MovesUp(RankIn(before + after[..k], i), RankIn(before + after[..k + 1], i), after[k], i)
  {
    RecordsKept(before, after[..k], i);
    RunStep(before, after, k);
    StepMovesUp(Run(before + after[..k]), Run(before + after[..k + 1]), after[k], i);
  }

  /** Ranks along a continuation. */
  ghost predicate Climbs(ranks: seq<nat>, events: seq<Event>, i: nat) {
    && |ranks| == |events| + 1
    && (forall k :: 0 <= k < |events| ==> MovesUp(ranks[k], ranks[k + 1], events[k], i))
  }

  function Ranks(before: seq<Event>, after: seq<Event>, i: nat): (ranks: seq<nat>)
    ensures |ranks| == |after| + 1
  {
    seq(|after| + 1, k requires 0 <= k <= |after| => RankIn(before + after[..k], i))
  }

  lemma RanksClimb(before: seq<Event>, after: seq<Event>, i: nat)
    requires i < |Run(before).incs|
    ensures Climbs(Ranks(before, after, i), after, i)
    ensures Ranks(before, after, i)[0] == RankIn(before, i)
    ensures Ranks(before, after, i)[|after|] == RankIn(before + after, i)
  {
    assert before + after[..0] == before && after[..|after|] == after;
    forall k | 0 <= k < |after|
      ensures MovesUp(Ranks(before, after, i)[k], Ranks(before, after, i)[k + 1], after[k], i)
    {
      RankStep(before, after, i, k);
    }
  }

  lemma {:induction false} NeverFalls(ranks: seq<nat>, events: seq<Event>, i: nat, j: nat, k: nat)
    requires Climbs(ranks, events, i) && j <= k <= |events|
    ensures ranks[j] <= ranks[k]
    decreases k
  {
    if j < k {
      NeverFalls(ranks, events, i, j, k - 1);
    }
  }

  /** Once a command was launched, its exit and the steps of its goroutine close done
      exactly once, whatever else happens in between. */
  lemma LaunchedIsClosed(before: seq<Event>, after: seq<Event>, i: nat, exit: nat, look: nat, report: nat, close: nat)
    requires i < |Run(before).incs| && !Run(before).incs[i].stage.Launching?
    requires exit < look < report < close < |after|
    requires after[exit].OsExit? && after[exit].i == i && after[look] == WaiterReadsFlag(i)
    requires after[report] == WaiterReports(i) && after[close] == WaiterCloses(i)
    ensures i < |Run(before + after).incs| && Run(before + after).incs[i].closes == 1
  {
    LaunchedRank(before, i);
    RanksClimb(before, after, i);
    FourSteps(Ranks(before, after, i), after, i, exit, look, report, close);
    ClosedAtTop(before + after, i);
  }

  lemma ClosedAtTop(events: seq<Event>, i: nat)
    requires RankIn(events, i) >= 5
    ensures i < |Run(events).incs| && Run(events).incs[i].closes == 1
  {
    DoneClosedOnce(events, i);
  }

  lemma LaunchedRank(events: seq<Event>, i: nat)
    requires i < |Run(events).incs| && !Run(events).incs[i].stage.Launching?
    ensures RankIn(events, i) >= 1
  {
  }

  lemma FourSteps(ranks: seq<nat>, events: seq<Event>, i: nat, exit: nat, look: nat, report: nat, close: nat)
    requires Climbs(ranks, events, i) && ranks[0] >= 1 && exit < look < report < close < |events|
    requires Raises(events[exit], i, 1) && Raises(events[look], i, 2)
    requires Raises(events[report], i, 3) && Raises(events[close], i, 4)
    ensures ranks[|events|] >= 5
  {
    NeverFalls(ranks, events, i, 0, exit);
    NeverFalls(ranks, events, i, exit + 1, look);
    NeverFalls(ranks, events, i, look + 1, report);
    NeverFalls(ranks, events, i, report + 1, close);
    NeverFalls(ranks, events, i, close + 1, |events|);
  }
}
