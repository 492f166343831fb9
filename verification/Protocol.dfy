/** The update protocol between the session actor and its clients: tick frames, tick batches,
    civil-day updates, host failures, and what it takes for one update to continue another. */
module Protocol {

  datatype Option<+T> = None | Some(value: T)

  datatype Result<+T, +E> = Ok(value: T) | Err(error: E)

  const U64_MAX: int := 0xFFFF_FFFF_FFFF_FFFF

  type U64 = x: int | 0 <= x <= U64_MAX

  /** Largest integer a JavaScript client can represent exactly. */
  const JS_SAFE_MAX: int := 9_007_199_254_740_991

  // ---------------------------------------------------------------- frames and updates

  /** Only the event that moves the civil date matters to validation; every other event is opaque. */
  datatype Event = CivilDateAdvanced | OtherEvent(id: nat)

  datatype Fact = Fact(seqNo: U64, event: Event)

  datatype TickFrame = TickFrame(tick: U64, facts: seq<Fact>, seqFrom: U64, seqTo: U64)

  datatype RuntimeSnapshot = RuntimeSnapshot(tick: U64, seqNo: U64)

  datatype RuntimeDelta = RuntimeDelta(tick: U64, seqFrom: U64, seqTo: U64)

  datatype TickBatch = TickBatch(frames: seq<TickFrame>, snapshot: Option<RuntimeSnapshot>, delta: Option<RuntimeDelta>)

  /** `boundaryConsistent` stands for the calendar metadata checks, which involve no tick or sequence number. */
  datatype CivilUpdate = CivilUpdate(tick: U64, facts: seq<Fact>, seqFrom: U64, seqTo: U64,
                                     snapshot: RuntimeSnapshot, ticksPerDay: U64, afterClose: bool,
                                     intraday: seq<TickFrame>, date: nat, boundaryConsistent: bool)

  datatype ProtocolUpdate = TickBatchUpdate(batch: TickBatch) | CivilDayUpdate(civil: CivilUpdate)

  // ---------------------------------------------------------------- validation

  /** The facts carry exactly the sequence numbers in (from, to]. */
  predicate CoversSequence(facts: seq<Fact>, from: U64, to: U64) {
    && from <= to <= JS_SAFE_MAX
    && |facts| == to - from
    && (forall i | 0 <= i < |facts| :: from < facts[i].seqNo <= to)
    && (forall i, j | 0 <= i < j < |facts| :: facts[i].seqNo != facts[j].seqNo)
  }

  predicate ValidFrame(f: TickFrame) {
    f.tick <= JS_SAFE_MAX && CoversSequence(f.facts, f.seqFrom, f.seqTo)
  }

  /** Frame i is the next after the one before it. */
  predicate Linked(frames: seq<TickFrame>, i: nat)
    requires 0 < i < |frames|
  {
    frames[i].tick == frames[i - 1].tick + 1 && frames[i].seqFrom == frames[i - 1].seqTo
  }

  predicate ValidFrames(frames: seq<TickFrame>) {
    && frames != []
    && (forall i | 0 <= i < |frames| :: ValidFrame(frames[i]))
    && (forall i {:trigger Linked(frames, i)} | 0 < i < |frames| :: Linked(frames, i))
  }

  function Last<T>(s: seq<T>): T
    requires s != []
  {
    s[|s| - 1]
  }

  predicate ValidBatch(b: TickBatch) {
    && ValidFrames(b.frames)
    && (b.snapshot.Some? ==> b.snapshot.value == RuntimeSnapshot(Last(b.frames).tick, Last(b.frames).seqTo))
    && (b.delta.Some? ==>
          && b.snapshot.None?
          && b.delta.value == RuntimeDelta(Last(b.frames).tick, b.frames[0].seqFrom, Last(b.frames).seqTo))
  }

  predicate ValidCivil(c: CivilUpdate) {
    && CoversSequence(c.facts, c.seqFrom, c.seqTo)
    && c.snapshot == RuntimeSnapshot(c.tick, c.seqTo)
    && (exists i :: 0 <= i < |c.facts| && c.facts[i].event == CivilDateAdvanced)
    && (forall i, j | 0 <= i < j < |c.facts| :: !(c.facts[i].event == c.facts[j].event == CivilDateAdvanced))
    && c.boundaryConsistent
    && c.ticksPerDay != 0
    && (if c.afterClose then
          && ValidFrames(c.intraday)
          && |c.intraday| == c.ticksPerDay
          && Last(c.intraday).tick == c.tick
          && Last(c.intraday).seqTo == c.seqFrom
        else c.intraday == [])
  }

  predicate Valid(p: ProtocolUpdate) {
    match p
    case TickBatchUpdate(b) => ValidBatch(b)
    case CivilDayUpdate(c) => ValidCivil(c)
  }

  // ---------------------------------------------------------------- cursors

  /** Where a client stands: last tick, last sequence number, timeline generation. */
  datatype Cursor = Cursor(tick: U64, seqNo: U64, generation: U64)

  function LastTick(p: ProtocolUpdate): U64
    requires p.TickBatchUpdate? ==> p.batch.frames != []
  {
    match p case TickBatchUpdate(b) => Last(b.frames).tick case CivilDayUpdate(c) => c.tick
  }

  function LastSeq(p: ProtocolUpdate): U64
    requires p.TickBatchUpdate? ==> p.batch.frames != []
  {
    match p case TickBatchUpdate(b) => Last(b.frames).seqTo case CivilDayUpdate(c) => c.seqTo
  }

  /** A batch opens on the tick after the cursor, a civil update stays on it; both start at its sequence number. */
  predicate Continues(tick: U64, seqNo: U64, p: ProtocolUpdate)
    requires p.TickBatchUpdate? ==> p.batch.frames != []
  {
    match p
    case TickBatchUpdate(b) => b.frames[0].tick == tick + 1 && b.frames[0].seqFrom == seqNo
    case CivilDayUpdate(c) => c.tick == tick && c.seqFrom == seqNo
  }

  lemma ValidFramesAppend(frames: seq<TickFrame>, f: TickFrame)
    requires frames == [] || ValidFrames(frames)
    requires ValidFrame(f) && (frames != [] ==> f.tick == Last(frames).tick + 1 && f.seqFrom == Last(frames).seqTo)
    ensures ValidFrames(frames + [f])
  {
    var more := frames + [f];
    forall i | 0 < i < |more| ensures Linked(more, i) {
      assert i < |frames| ==> Linked(frames, i);
    }
  }

  /** Frame i of a valid run of frames: ticks count up by one, sequence numbers never go back. */
  lemma {:induction false} FramesAdvance(frames: seq<TickFrame>, i: nat)
    requires ValidFrames(frames) && i < |frames|
    ensures frames[i].tick == frames[0].tick + i
    ensures frames[0].seqFrom <= frames[i].seqFrom <= frames[i].seqTo
  {
    assert ValidFrame(frames[i]);
    if i > 0 {
      assert Linked(frames, i);
      FramesAdvance(frames, i - 1);
    }
  }

  lemma ValidFront(frames: seq<TickFrame>, k: nat)
    requires ValidFrames(frames) && 0 < k <= |frames|
    ensures ValidFrames(frames[..k])
  {
    forall i | 0 < i < k ensures Linked(frames[..k], i) {
      assert Linked(frames, i);
    }
  }

  /** A validated update moves the pair (tick, sequence number) strictly forward: a batch moves the tick,
      and a civil update moves the sequence number because it must carry the date-advance fact. */
  lemma ValidUpdateAdvances(tick: U64, seqNo: U64, p: ProtocolUpdate)
    requires Valid(p) && Continues(tick, seqNo, p)
    ensures seqNo <= LastSeq(p) <= JS_SAFE_MAX
    ensures p.TickBatchUpdate? ==> tick < LastTick(p) <= JS_SAFE_MAX
    ensures p.CivilDayUpdate? ==> LastTick(p) == tick && seqNo < LastSeq(p)
  {
    match p
    case TickBatchUpdate(b) => FramesAdvance(b.frames, |b.frames| - 1); assert ValidFrame(Last(b.frames));
    case CivilDayUpdate(c) =>
  }

  // ---------------------------------------------------------------- host failures

  datatype FailureCode =
    | CatalogBaselineFailed
    | StepFatal
    | CivilDaySettlementFailed
    | ReportCorrectionPrepareRejected
    | DayEndArchiveFailed

  datatype FailureSite = AtPublicBaseline | AtEngineStep | AtCivilDay | AtPrepareCivilUpdates | AtSaveDayEnd

  datatype Operation = PublicBaselineOp | StepOp | EndCivilDayOp | SaveDayEndOp

  datatype CauseCode = ReportCorrectionRejected | OtherCause(code: nat)

  /** The (tick, sequence) range of frames that were committed but could not be delivered. */
  datatype FrameRange = FrameRange(tickFrom: U64, tickTo: U64, seqFrom: U64, seqTo: U64)

  datatype HostFailure = HostFailure(code: FailureCode, site: FailureSite, recoverable: bool,
                                     operation: Operation, fault: Option<nat>,
                                     tick: Option<U64>, seqNo: Option<U64>, day: Option<nat>,
                                     generation: Option<U64>, cause: Option<CauseCode>,
                                     unpublished: Option<FrameRange>)
  {
    /** The strict form of a rejected correction: the only failure that keeps a client's stream open. */
    predicate IsCorrectionPrepareRejected(current: U64) {
      && code == ReportCorrectionPrepareRejected
      && site == AtPrepareCivilUpdates
      && recoverable
      && operation == EndCivilDayOp
      && fault.None?
      && tick.Some?
      && seqNo.Some?
      && day.Some?
      && generation == Some(current)
      && cause == Some(ReportCorrectionRejected)
    }
  }

  datatype EngineUpdate = EngineUpdate(generation: U64, update: Option<ProtocolUpdate>, civilDate: nat,
                                       publicRevision: U64, failure: Option<HostFailure>)

  /** The update carries a protocol payload that passes validation. */
  predicate Deliverable(u: EngineUpdate) {
    u.update.Some? && Valid(u.update.value)
  }

  function EndOf(u: EngineUpdate): Cursor
    requires Deliverable(u)
  {
    Cursor(LastTick(u.update.value), LastSeq(u.update.value), u.generation)
  }

  predicate Follows(c: Cursor, u: EngineUpdate)
    requires Deliverable(u)
  {
    c.generation == u.generation && Continues(c.tick, c.seqNo, u.update.value)
  }

  /** Each update follows the previous one, the first follows `c`. */
  predicate Chain(c: Cursor, us: seq<EngineUpdate>) {
    && (forall i | 0 <= i < |us| :: Deliverable(us[i]))
    && (us != [] ==> Follows(c, us[0]))
    && (forall i | 0 < i < |us| :: Follows(EndOf(us[i - 1]), us[i]))
  }

  lemma ChainAppend(c: Cursor, us: seq<EngineUpdate>, u: EngineUpdate)
    requires Chain(c, us) && Deliverable(u) && Follows(if us == [] then c else EndOf(Last(us)), u)
    ensures Chain(c, us + [u])
  {
    var more := us + [u];
    assert us != [] ==> more[0] == us[0] && more[|us| - 1] == Last(us);
    forall i | 0 < i < |more| ensures Follows(EndOf(more[i - 1]), more[i]) {
      if i < |us| {
        assert more[i] == us[i] && more[i - 1] == us[i - 1];
      }
    }
  }
}
