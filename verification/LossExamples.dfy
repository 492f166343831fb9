/** Concrete runs in which the delivered stream loses an update without telling the client to resync. */
module LossExamples {
  import opened Protocol
  import opened Publisher
  import opened PublishedLog
  import opened Connection
  import opened Delivery
  import opened GapFreedom

  const Origin := Head(1, 0, 0, None)

  /** A non-trading day settles at tick 0 and carries the one fact that moves the date. */
  function Day(n: U64): EngineUpdate
    requires 0 < n <= JS_SAFE_MAX
  {
    EngineUpdate(1, Some(CivilDayUpdate(CivilUpdate(0, [Fact(n, CivilDateAdvanced)], n - 1, n, RuntimeSnapshot(0, n),
        1, false, [], 1, true))),
                 1, 1, None)
  }

  function AfterDay(n: U64): Head { Head(1, 0, n, None) }

  const DayEnd := Day(1)

  const ArchiveFailed := HostFailure(DayEndArchiveFailed, AtSaveDayEnd, true, SaveDayEndOp, None,
                                     Some(0), Some(1), Some(0), Some(1), None, None)

  const CorrectionRejected := HostFailure(ReportCorrectionPrepareRejected, AtPrepareCivilUpdates, true, EndCivilDayOp,
      None,
                                          Some(0), Some(1), Some(0), Some(1), Some(ReportCorrectionRejected), None)

  function Failure(f: HostFailure): EngineUpdate { EngineUpdate(1, None, 0, 0, Some(f)) }

  const AfterDayEnd := AfterDay(1)

  lemma DayIsValid(n: U64)
    requires 0 < n <= JS_SAFE_MAX
    ensures Deliverable(Day(n)) && Follows(AfterDay(n - 1).At(), Day(n)) && EndOf(Day(n)) == AfterDay(n).At()
  {
    assert Day(n).update.value.civil.facts[0].event == CivilDateAdvanced;
  }

  /** The live state of a push connection after its first baseline, `log` published and `next` entries read. */
  function Reading(log: seq<Entry>, next: nat, buffer: Buffer, awaiting: bool, noted: Option<HostFailure>,
                   delivered: seq<EngineUpdate>, missed: nat): System
  {
    System(Origin, log, true, Live, next, State(Push, 0, 0, 1, buffer, awaiting, noted), 0, delivered, missed)
  }

  lemma Connecting() returns (steps: seq<Step>)
    ensures Run(Start(Origin, [], Push), steps)
    ensures After(Start(Origin, [], Push), steps) == Reading([], 0, EmptyBuffer, false, None, [], 0)
  {
    var s := Start(Origin, [], Push);
    steps := [];
    assert Run(s, steps);
    RunExtends(s, steps, AnswerBaseline);
    steps := steps + [AnswerBaseline];
    RunExtends(s, steps, InstallBaseline(None));
    steps := steps + [InstallBaseline(None)];
  }

  lemma TakeStep(steps: seq<Step>, now: System, step: Step, after: System) returns (longer: seq<Step>)
    requires Run(Start(Origin, [], Push), steps) && After(Start(Origin, [], Push), steps) == now
    requires Grounded(now) && Enabled(now, step) && Apply(now, step) == after
    ensures longer == steps + [step]
    ensures Run(Start(Origin, [], Push), longer) && After(Start(Origin, [], Push), longer) == after
    ensures Grounded(after)
  {
    longer := steps + [step];
    RunExtends(Start(Origin, [], Push), steps, step);
    RunExtends(Start(Origin, [], Push), longer, step);
  }

  // ---------------------------------------------------------------- a barrier lowered over a dropped update

  const ArchiveEntry := Entry(Failure(ArchiveFailed), Origin)
  const DayEntry := Entry(DayEnd, AfterDayEnd)
  const RejectionEntry := Entry(Failure(CorrectionRejected), AfterDayEnd)
  const Log := [ArchiveEntry, DayEntry, RejectionEntry]

  lemma Publishing() returns (steps: seq<Step>)
    ensures Run(Start(Origin, [], Push), steps)
    ensures After(Start(Origin, [], Push), steps) == Reading(Log, 0, EmptyBuffer, false, None, [], 0)
  {
    DayIsValid(1);
    steps := Connecting();
    var s0 := Reading([], 0, EmptyBuffer, false, None, [], 0);
    var s1 := s0.(log := [ArchiveEntry]);
    steps := TakeStep(steps, s0, Publish(ArchiveEntry), s1);
    var s2 := s0.(log := [ArchiveEntry, DayEntry]);
    steps := TakeStep(steps, s1, Publish(DayEntry), s2);
    steps := TakeStep(steps, s2, Publish(RejectionEntry), s0.(log := Log));
  }

  /** A failure that reaches an idle connection is sent and noted. */
  lemma FailureTurn(c: State, f: HostFailure)
    requires c.buffer == EmptyBuffer && Ingested(c, Failure(f)) == (c, Failed(f))
    ensures UpdateTurn(c, Failure(f)).next == FailureNoted(c, f) && !UpdateTurn(c, Failure(f)).close
    ensures FramesIn(UpdateTurn(c, Failure(f)).wire) == []
  {
    FlushesAll(c, Failure(f));
    FlushedFrames([], Failed(f));
  }

  lemma ArchiveTurn(s: System)
    requires s == Reading(Log, 0, EmptyBuffer, false, None, [], 0) && Grounded(s)
    ensures Apply(s, Receive(None)) == Reading(Log, 1, EmptyBuffer, true, Some(ArchiveFailed), [], 0)
  {
    FailureTurn(s.conn, ArchiveFailed);
  }

  lemma DayTurn(s: System)
    requires s == Reading(Log, 1, EmptyBuffer, true, Some(ArchiveFailed), [], 0) && Grounded(s)
    ensures Apply(s, Receive(None)) == Reading(Log, 2, EmptyBuffer, true, Some(ArchiveFailed), [], 1)
  {
    UpdateTurnFrames(s.conn, DayEnd);
  }

  lemma RejectionTurn(s: System)
    requires s == Reading(Log, 2, EmptyBuffer, true, Some(ArchiveFailed), [], 1) && Grounded(s)
    ensures Apply(s, Receive(None)) == Reading(Log, 3, EmptyBuffer, false, Some(CorrectionRejected), [], 1)
  {
    FailureTurn(s.conn, CorrectionRejected);
  }

  /** A day-end archive failure raises the barrier on a fresh connection, the day's update is ignored
      behind it, and a strict correction rejection lowers it again: the connection is back in its loop,
      ready to push, without the day's update and without a cursor that could notice. */
  lemma CorrectionRejectionCanHideAnUpdate() returns (steps: seq<Step>)
    ensures Run(Start(Origin, [], Push), steps)
    ensures var s := After(Start(Origin, [], Push), steps);
            && s.phase.Live? && s.conn.PushReady() && s.conn.buffer.cursor.None?
            && s.base <= s.next == |s.log| && s.Segment() == [DayEnd] && s.InHand() == []
  {
    steps := Publishing();
    var s3 := Reading(Log, 0, EmptyBuffer, false, None, [], 0);
    RunExtends(Start(Origin, [], Push), steps, HangUp);
    ArchiveTurn(s3);
    var s4 := Reading(Log, 1, EmptyBuffer, true, Some(ArchiveFailed), [], 0);
    steps := TakeStep(steps, s3, Receive(None), s4);
    DayTurn(s4);
    var s5 := Reading(Log, 2, EmptyBuffer, true, Some(ArchiveFailed), [], 1);
    steps := TakeStep(steps, s4, Receive(None), s5);
    RejectionTurn(s5);
    var s6 := Reading(Log, 3, EmptyBuffer, false, Some(CorrectionRejected), [], 1);
    steps := TakeStep(steps, s5, Receive(None), s6);
    assert Frames(Log, 1, 0, 2) == [DayEnd];
  }

  // ---------------------------------------------------------------- a resync nobody answers

  /** A client asks for a resync while an update is pending and the actor has just stopped taking
      commands: the backlog is gone, the barrier is down, and the client is told there is nothing more. */
  lemma UnansweredResyncDropsTheBacklog(s: System)
    requires Accounted(s) && s.phase.Live? && s.accepting && !s.conn.awaitingResync && s.missed == 0
    requires s.conn.buffer.pending != []
    ensures var asked := Apply(s, RequestResync);
            && Grounded(asked) && Enabled(asked, CloseCommands)
            && var stopped := Apply(asked, CloseCommands);
               && Grounded(stopped) && Enabled(stopped, BaselineLost(None)) && Losing(stopped, BaselineLost(None))
               && var after := Apply(stopped, BaselineLost(None));
                  after.phase.Live? && !after.conn.awaitingResync && after.InHand() == s.delivered && !GapFree(after)
  {
    StepKeepsAccounted(s, RequestResync);
    var asked := Apply(s, RequestResync);
    StepKeepsAccounted(asked, CloseCommands);
    var stopped := Apply(asked, CloseCommands);
    StepKeepsAccounted(stopped, BaselineLost(None));
  }

  const DayEntries := [Entry(Day(1), AfterDay(1)), Entry(Day(2), AfterDay(2))]

  /** A fresh connection, a first day it never reads, and a resync that jumps over it. */
  lemma ResyncJumps() returns (steps: seq<Step>)
    ensures Run(Start(Origin, [], Push), steps)
    ensures After(Start(Origin, [], Push), steps)
            == Reading(DayEntries[..1], 1, EmptyBuffer, false, None, [], 1).(phase := Resyncing)
  {
    DayIsValid(1);
    steps := Connecting();
    var s0 := Reading([], 0, EmptyBuffer, false, None, [], 0);
    RunExtends(Start(Origin, [], Push), steps, HangUp);
    var s1 := s0.(log := DayEntries[..1]);
    steps := TakeStep(steps, s0, Publish(DayEntries[0]), s1);
    assert Frames(s1.log, 1, 0, 1) == [Day(1)];
    steps := TakeStep(steps, s1, RequestResync,
        Reading(DayEntries[..1], 1, EmptyBuffer, false, None, [], 1).(phase := Resyncing));
  }

  /** The second day is published before the actor stops taking commands, so the resync stays unanswered. */
  lemma ResyncFails() returns (steps: seq<Step>)
    ensures Run(Start(Origin, [], Push), steps)
    ensures After(Start(Origin, [], Push), steps)
            == Reading(DayEntries, 1, EmptyBuffer, false, None, [], 1).(accepting := false)
  {
    DayIsValid(2);
    steps := ResyncJumps();
    var s2 := Reading(DayEntries[..1], 1, EmptyBuffer, false, None, [], 1).(phase := Resyncing);
    RunExtends(Start(Origin, [], Push), steps, HangUp);
    var s3 := s2.(log := DayEntries);
    assert HeadAt(Origin, s2.log, 1) == AfterDay(1) && DayEntries[..1] + [DayEntries[1]] == DayEntries;
    steps := TakeStep(steps, s2, Publish(DayEntries[1]), s3);
    var s4 := s3.(accepting := false);
    steps := TakeStep(steps, s3, CloseCommands, s4);
    steps := TakeStep(steps, s4, BaselineLost(None), s4.(phase := Live));
  }

  /** An empty connection with the barrier down takes in any update its baseline does not cover. */
  lemma BufferedTurn(c: State, u: EngineUpdate)
    requires c.buffer == EmptyBuffer && !c.awaitingResync && u.failure.None? && u.generation == c.generation
    requires Deliverable(u) && !Covered(u.update.value, c.baselineTick, c.baselineSeq)
    ensures var t := UpdateTurn(c, u);
            && Ingested(c, u).1.Buffered? && !t.close && FramesIn(t.wire) == []
            && t.next == c.(buffer := Buffer([u], UpdateUnits(u.update.value), Some(EndOf(u))))
  {
    AnswerTurn(c, u);
    UpdateTurnFrames(c, u);
    assert [] + [u] == [u];
  }

  lemma SecondDayIsNew()
    ensures var d := Day(2).update.value; UpdateUnits(d) == 1 && !Covered(d, 0, 0)
  {
    assert FrameUnits([]) == 0;
  }

  const SecondPending := Buffer([Day(2)], 1, Some(AfterDay(2).At()))
  const SecondSent := Buffer([], 0, Some(AfterDay(2).At()))

  /** The stream behind the unanswered resync, second day received and sent. */
  function Behind(next: nat, buffer: Buffer, delivered: seq<EngineUpdate>): System {
    Reading(DayEntries, next, buffer, false, None, delivered, 1).(accepting := false)
  }

  lemma SecondDayTurn(s: System)
    requires s == Behind(1, EmptyBuffer, []) && Grounded(s)
    ensures Apply(s, Receive(None)) == Behind(2, SecondPending, [])
  {
    DayIsValid(2);
    SecondDayIsNew();
    BufferedTurn(s.conn, Day(2));
  }

  lemma SecondDaySent(s: System)
    requires s == Behind(2, SecondPending, []) && Grounded(s)
    ensures Apply(s, PushTick(None)) == Behind(2, SecondSent, [Day(2)])
  {
    assert [Day(2)][1..] == [];
    FramesInSingle(FrameMessage(Day(2)));
  }

  lemma BothDaysAreOwed(s: System)
    requires s == Behind(2, SecondSent, [Day(2)])
    ensures s.Segment() == [Day(1), Day(2)]
  {
    assert Frames(DayEntries, 1, 0, 1) == [Day(1)];
  }

  /** An update published while a resync waits for a baseline that never comes is sent to the client
      afterwards, without the update before it and without a word about the gap. */
  lemma UnansweredResyncBreaksTheStream() returns (steps: seq<Step>)
    ensures Run(Start(Origin, [], Push), steps)
    ensures var s := After(Start(Origin, [], Push), steps);
            && s.phase.Live? && s.conn.PushReady() && s.conn.deliveredFailure.None?
            && s.base <= s.next == |s.log| && s.Segment() == [Day(1), Day(2)] && s.delivered == [Day(2)]
  {
    steps := ResyncFails();
    RunExtends(Start(Origin, [], Push), steps, HangUp);
    SecondDayTurn(Behind(1, EmptyBuffer, []));
    steps := TakeStep(steps, Behind(1, EmptyBuffer, []), Receive(None), Behind(2, SecondPending, []));
    SecondDaySent(Behind(2, SecondPending, []));
    steps := TakeStep(steps, Behind(2, SecondPending, []), PushTick(None), Behind(2, SecondSent, [Day(2)]));
    BothDaysAreOwed(Behind(2, SecondSent, [Day(2)]));
  }
}
