/** One WebSocket connection: which updates it buffers, when it raises the resync barrier,
    and what every turn of its event loop puts on the wire. */
module Connection {
  import opened Protocol
  import opened Publisher
  import opened PublishedLog

  datatype DeliveryMode = Push | Pull

  datatype ResyncReason = TimelineChanged | PublisherBufferCapacity | EventStreamLagged

  datatype Action =
    | Buffered
    | Ignored
    | Failed(failure: HostFailure)
    | ResyncRequired(reason: ResyncReason, capacity: Option<nat>)
    | Flush(update: EngineUpdate, all: bool)
    | Rejected(error: FrameBufferError)

  datatype FrameRequest = MustResync | WrongDeliveryMode | Frame(update: EngineUpdate) | NoFrame

  // ---------------------------------------------------------------- the connection as a value

  datatype State = State(delivery: DeliveryMode, baselineSeq: U64, baselineTick: U64, generation: U64,
                         buffer: Buffer, awaitingResync: bool, deliveredFailure: Option<HostFailure>)
  {
    function ResyncNeeded(): State { this.(buffer := EmptyBuffer, awaitingResync := true) }

    predicate LatchedFatal() { deliveredFailure.Some? && !deliveredFailure.value.recoverable }

    predicate PushReady() { delivery.Push? && !awaitingResync }
  }

  function Ingested(c: State, u: EngineUpdate): (State, Action) {
    if u.failure.Some? then
      if c.LatchedFatal() then (c, Ignored)
      else if c.deliveredFailure == u.failure then
        (c.(awaitingResync := !u.failure.value.IsCorrectionPrepareRejected(c.generation)), Ignored)
      else (c, Failed(u.failure.value))
    else if u.generation != c.generation then (c.ResyncNeeded(), ResyncRequired(TimelineChanged, None))
    else if c.awaitingResync || u.update.None?
        || Covered(u.update.value, c.baselineTick, c.baselineSeq) then (c, Ignored)
    else
      match Refusal(c.buffer, u)
      case None => (c.(buffer := Appended(c.buffer, u)), Buffered)
      case Some(error) => OnRefusal(c, u, error)
  }

  function OnRefusal(c: State, u: EngineUpdate, error: FrameBufferError): (State, Action) {
    match error
    case MetadataTransition => (c, Flush(u, false))
    case BufferCapacityExceeded(limit) =>
      if c.delivery.Pull? then (c.ResyncNeeded(), ResyncRequired(PublisherBufferCapacity, Some(limit)))
        else (c, Flush(u, true))
    case _ => (c, Rejected(error))
  }

  function FailureNoted(c: State, f: HostFailure): State {
    if c.LatchedFatal() then c
    else c.(awaitingResync := !f.IsCorrectionPrepareRejected(c.generation), deliveredFailure := Some(f))
  }

  function BaselineNoted(c: State, cursor: Cursor, failure: Option<HostFailure>): State {
    var installed := if failure.Some? then c
                     else c.(baselineSeq := cursor.seqNo, baselineTick := cursor.tick, generation := cursor.generation);
    installed.(awaitingResync := failure.Some?, deliveredFailure := failure)
  }

  // ---------------------------------------------------------------- turns of the event loop as values

  datatype GatewayErrorCode = PublisherSequenceError | ResyncFailed | ResyncRequiredFirst | WrongMode

  datatype Wire =
    | FrameMessage(frame: EngineUpdate)
    | FailureMessage(failure: HostFailure)
    | ResyncMessage(reason: ResyncReason, missed: Option<nat>)
    | BaselineMessage(cursor: Cursor, latched: Option<HostFailure>)
    | GatewayError(code: GatewayErrorCode)
    | FrameEmpty

  function AsFrames(us: seq<EngineUpdate>): (ws: seq<Wire>)
    ensures |ws| == |us|
  {
    seq(|us|, i requires 0 <= i < |us| => FrameMessage(us[i]))
  }

  /** A turn's new state, the messages it sends if every send succeeds, and whether it ends the loop. */
  datatype Turn = Turn(next: State, wire: seq<Wire>, close: bool)

  function Flushed(b: Buffer): Buffer { Buffer([], 0, b.cursor) }

  /** How many pending updates an action sends ahead of itself. */
  function FlushCount(b: Buffer, action: Action): nat {
    match action
    case Failed(_) => |b.pending|
    case Flush(_, all) => if all then |b.pending| else if b.pending == [] then 0 else 1
    case _ => 0
  }

  /** What an action says to the client besides frames. */
  function Announced(action: Action): (ws: seq<Wire>)
    ensures |ws| <= 1 && forall w | w in ws :: !w.FrameMessage?
  {
    match action
    case Failed(f) => [FailureMessage(f)]
    case ResyncRequired(reason, _) => [ResyncMessage(reason, None)]
    case Rejected(_) => [GatewayError(PublisherSequenceError)]
    case _ => []
  }

  function ActionWire(b: Buffer, action: Action): seq<Wire> {
    AsFrames(b.pending[..FlushCount(b, action)]) + Announced(action)
  }

  function UpdateTurn(c: State, u: EngineUpdate): Turn {
    var (next, action) := Ingested(c, u);
    var rest := next.buffer.pending[FlushCount(next.buffer, action)..];
    var flushed := Buffer(rest, PendingUnits(rest), next.buffer.cursor);
    var wire := ActionWire(next.buffer, action);
    match action
    case Failed(f) => Turn(FailureNoted(next.(buffer := flushed), f), wire, false)
    case Flush(update, _) => Turn(next.(buffer := Pushed(flushed, update)), wire, Refusal(flushed, update).Some?)
    case Rejected(_) => Turn(next, wire, true)
    case _ => Turn(next, wire, false)
  }

  /** Only a failure or a flush empties the backlog onto the wire, and then all of it and in order; a
      flush then offers the update again to the emptied buffer. */
  lemma FlushesAll(c: State, u: EngineUpdate)
    requires var action := Ingested(c, u).1; action.Failed? || action.Flush?
    ensures var action := Ingested(c, u).1;
            var emptied := c.(buffer := Flushed(c.buffer));
            UpdateTurn(c, u)
            == if action.Failed? then
                 Turn(FailureNoted(emptied, action.failure),
                     AsFrames(c.buffer.pending) + [FailureMessage(action.failure)], false)
               else
                 Turn(emptied.(buffer := Pushed(emptied.buffer, u)), AsFrames(c.buffer.pending),
                     Refusal(emptied.buffer, u).Some?)
    ensures Ingested(c, u).1.Flush? ==> Ingested(c, u).1 == Flush(u, true) && c.delivery.Push?
    ensures Ingested(c, u).0 == c
  {
    var pending := c.buffer.pending;
    assert pending[..|pending|] == pending && pending[|pending|..] == [];
  }

  function LaggedTurn(c: State, missed: nat): Turn {
    Turn(c.ResyncNeeded(), [ResyncMessage(EventStreamLagged, Some(missed))], false)
  }

  function PushClockTurn(c: State): Turn
    requires Consistent(c.buffer)
  {
    if c.PushReady() && c.buffer.pending != [] then
      Turn(c.(buffer := Taken(c.buffer)), [FrameMessage(c.buffer.pending[0])], false)
    else Turn(c, [], false)
  }

  function GetFrameTurn(c: State): Turn
    requires Consistent(c.buffer)
  {
    if c.awaitingResync then Turn(c, [GatewayError(ResyncRequiredFirst)], false)
    else if !c.delivery.Pull? then Turn(c, [GatewayError(WrongMode)], false)
    else if c.buffer.pending == [] then Turn(c, [FrameEmpty], false)
    else Turn(c.(buffer := Taken(c.buffer)), [FrameMessage(c.buffer.pending[0])], false)
  }

  /** A Resync first drops the backlog, then waits for the baseline. */
  function ResyncStarted(c: State): State { c.(buffer := EmptyBuffer) }

  function BaselineTurn(c: State, cursor: Cursor, failure: Option<HostFailure>): Turn {
    Turn(BaselineNoted(c, cursor, failure), [BaselineMessage(cursor, failure)], false)
  }

  // ---------------------------------------------------------------- the resync barrier

  /** Between turns: a raised barrier means an empty backlog, and a recorded failure that is not a
      strict correction rejection means a raised barrier. */
  predicate BarrierHolds(c: State) {
    && Consistent(c.buffer)
    && (c.awaitingResync ==> c.buffer.pending == [])
    && (c.deliveredFailure.Some? && !c.deliveredFailure.value.IsCorrectionPrepareRejected(c.generation) ==>
         c.awaitingResync)
  }

  /** Everything the loop can do to a connection between two turns. */
  datatype Input =
    | Received(update: EngineUpdate)
    | Lagged(missed: nat)
    | PushClock
    | GetFrame
    | ResyncAnswered(cursor: Cursor, failure: Option<HostFailure>)
    | ResyncUnanswered
    | ResyncRefused(reason: HostFailure)

  function TurnOf(c: State, i: Input): Turn
    requires Consistent(c.buffer)
  {
    match i
    case Received(u) => UpdateTurn(c, u)
    case Lagged(n) => LaggedTurn(c, n)
    case PushClock => PushClockTurn(c)
    case GetFrame => GetFrameTurn(c)
    case ResyncAnswered(cursor, failure) => BaselineTurn(ResyncStarted(c), cursor, failure)
    case ResyncUnanswered => Turn(ResyncStarted(c), [GatewayError(ResyncFailed)], false)
    case ResyncRefused(failure) => Turn(ResyncStarted(c), [FailureMessage(failure)], true)
  }

  lemma AppendedKeepsBarrier(c: State, u: EngineUpdate)
    requires BarrierHolds(c) && Refusal(c.buffer, u).None? && !c.awaitingResync
    ensures BarrierHolds(c.(buffer := Appended(c.buffer, u)))
  {
    PushKeepsConsistent(c.buffer, u);
  }

  lemma FlushKeepsBarrier(c: State, u: EngineUpdate)
    requires BarrierHolds(c) && Ingested(c, u).1.Flush?
    ensures !UpdateTurn(c, u).close ==> BarrierHolds(UpdateTurn(c, u).next)
  {
    CapacityRefusalClearsByDraining(c.buffer, u);
    assert c.buffer.pending[|c.buffer.pending|..] == [];
    PushKeepsConsistent(Flushed(c.buffer), u);
  }

  /** Every turn that keeps the connection open keeps the barrier invariant, whatever failure a baseline carries. */
  lemma TurnKeepsBarrier(c: State, i: Input)
    requires BarrierHolds(c)
    ensures !TurnOf(c, i).close ==> BarrierHolds(TurnOf(c, i).next)
  {
    match i
    case Received(u) => ReceivedKeepsBarrier(c, u);
    case PushClock => TakeKeepsConsistent(c.buffer);
    case GetFrame => TakeKeepsConsistent(c.buffer);
    case _ =>
  }

  lemma FailedKeepsBarrier(c: State, u: EngineUpdate)
    requires BarrierHolds(c) && Ingested(c, u).1.Failed?
    ensures BarrierHolds(UpdateTurn(c, u).next)
  {
    FlushesAll(c, u);
  }

  /** A turn that neither flushes nor forwards a failure only changes the connection as ingestion did. */
  lemma AnswerTurn(c: State, u: EngineUpdate)
    requires var action := Ingested(c, u).1; !action.Failed? && !action.Flush?
    ensures UpdateTurn(c, u).next == Ingested(c, u).0
    ensures UpdateTurn(c, u).wire == AsFrames([]) + Announced(Ingested(c, u).1)
  {
    assert c.buffer.pending[0..] == c.buffer.pending;
  }

  lemma IgnoringIs(c: State, u: EngineUpdate)
    requires Ingested(c, u).1.Ignored?
    ensures || Ingested(c, u).0 == c
            || (c.deliveredFailure.Some?
                && Ingested(c, u).0
                 == c.(awaitingResync := !c.deliveredFailure.value.IsCorrectionPrepareRejected(c.generation)))
  {
  }

  lemma AnswerKeepsBarrier(c: State, u: EngineUpdate)
    requires BarrierHolds(c)
    requires var action := Ingested(c, u).1; action.Ignored? || action.ResyncRequired?
    ensures BarrierHolds(Ingested(c, u).0)
  {
    if Ingested(c, u).1.Ignored? {
      IgnoringIs(c, u);
    } else {
      ResyncingIs(c, u);
    }
  }

  lemma ResyncingIs(c: State, u: EngineUpdate)
    requires Ingested(c, u).1.ResyncRequired?
    ensures Ingested(c, u).0 == c.ResyncNeeded()
  {
  }

  lemma ReceivedKeepsBarrier(c: State, u: EngineUpdate)
    requires BarrierHolds(c)
    ensures !UpdateTurn(c, u).close ==> BarrierHolds(UpdateTurn(c, u).next)
  {
    match Ingested(c, u).1
    case Buffered => AppendedKeepsBarrier(c, u);
    case Flush(_, _) => FlushKeepsBarrier(c, u);
    case Failed(_) => FailedKeepsBarrier(c, u);
    case Rejected(_) =>
    case _ =>
      AnswerKeepsBarrier(c, u);
      AnswerTurn(c, u);
  }

  /** The barrier falls only by a healthy baseline or by a strict correction rejection of the current generation. */
  lemma BarrierFallsOnlyTwoWays(c: State, i: Input)
    requires BarrierHolds(c) && c.awaitingResync
    requires !TurnOf(c, i).close && !TurnOf(c, i).next.awaitingResync
    ensures || (i.ResyncAnswered? && i.failure.None?)
            || (i.Received? && i.update.failure.Some?
               && i.update.failure.value.IsCorrectionPrepareRejected(c.generation))
  {
  }

  /** What a client's connection can see before taking an update: a strict correction rejection of its own
      generation, and no fatal failure noted before. */
  predicate LowersBarrier(c: State, u: EngineUpdate) {
    u.failure.Some? && u.failure.value.IsCorrectionPrepareRejected(c.generation) && !c.LatchedFatal()
  }

  /** A raised barrier falls on exactly those updates, whatever raised it. */
  lemma LowersExactly(c: State, u: EngineUpdate)
    requires BarrierHolds(c) && c.awaitingResync
    ensures !UpdateTurn(c, u).next.awaitingResync <==> LowersBarrier(c, u)
  {
    match Ingested(c, u).1
    case Failed(_) => FailedKeepsBarrier(c, u);
    case _ => AnswerTurn(c, u);
  }

  /** A connection with the barrier up never closes on an update. */
  lemma BarrierNeverCloses(c: State, u: EngineUpdate)
    requires c.awaitingResync
    ensures !UpdateTurn(c, u).close
  {
    var action := Ingested(c, u).1;
    assert action.Failed? || action.Ignored? || action.ResyncRequired?;
  }

  /** While the barrier is up no frame leaves, whatever happens. */
  lemma NoFrameBehindTheBarrier(c: State, i: Input, k: nat)
    requires BarrierHolds(c) && c.awaitingResync && k < |TurnOf(c, i).wire|
    ensures !TurnOf(c, i).wire[k].FrameMessage?
  {
  }

  /** A non-recoverable failure the client has seen is displaced only by a baseline, and until then
      every further failure is dropped. */
  lemma FatalDisplacedOnlyByBaseline(c: State, i: Input)
    requires BarrierHolds(c) && c.LatchedFatal()
    ensures !i.ResyncAnswered? ==> TurnOf(c, i).next.deliveredFailure == c.deliveredFailure
    ensures i.Received? && i.update.failure.Some? ==> TurnOf(c, i) == Turn(c, [], false)
    ensures c.awaitingResync
  {
  }

  /** Overflow recovery. In push mode a full backlog is sent out in order and the new update is then
      accepted, whatever its weight; in pull mode the backlog is dropped and the barrier goes up. */
  lemma OverflowRecovers(c: State, u: EngineUpdate)
    requires BarrierHolds(c) && u.failure.None? && u.generation == c.generation && !c.awaitingResync
    requires Refusal(c.buffer, u) == Some(BufferCapacityExceeded(MAX_BUFFERED_EVENTS_PER_CLIENT))
    requires !Covered(u.update.value, c.baselineTick, c.baselineSeq)
    ensures var t := UpdateTurn(c, u);
            && !t.close
            && (c.delivery.Push? ==>
                  t.wire == AsFrames(c.buffer.pending) && t.next.buffer.pending == [u] && !t.next.awaitingResync)
            && (c.delivery.Pull? ==> t.wire == [ResyncMessage(PublisherBufferCapacity, None)]
                                     && t.next.buffer == EmptyBuffer && t.next.awaitingResync)
  {
    OverflowIs(c, u);
    if c.delivery.Push? {
      FlushesAll(c, u);
      CapacityRefusalClearsByDraining(c.buffer, u);
    } else {
      AnswerTurn(c, u);
      assert AsFrames([]) == [];
    }
  }

  lemma OverflowIs(c: State, u: EngineUpdate)
    requires u.failure.None? && u.generation == c.generation && !c.awaitingResync
    requires Refusal(c.buffer, u) == Some(BufferCapacityExceeded(MAX_BUFFERED_EVENTS_PER_CLIENT))
    requires !Covered(u.update.value, c.baselineTick, c.baselineSeq)
    ensures Ingested(c, u)
            == if c.delivery.Pull? then
                 (c.ResyncNeeded(), ResyncRequired(PublisherBufferCapacity, Some(MAX_BUFFERED_EVENTS_PER_CLIENT)))
               else (c, Flush(u, true))
  {
  }

  // ---------------------------------------------------------------- the connection as the program keeps it

  class WsPublisherConnection {
    const delivery: DeliveryMode
    var baselineSeq: U64
    var baselineTick: U64
    var generation: U64
    const publisher: ClientFrameBuffer
    var awaitingResync: bool
    var deliveredFailure: Option<HostFailure>

    function Contents(): State
      reads this, publisher
    {
      State(delivery, baselineSeq, baselineTick, generation, publisher.Contents(), awaitingResync, deliveredFailure)
    }

    ghost predicate IsConsistent()
      reads this, publisher
    {
      publisher.IsConsistent()
    }

    constructor (delivery: DeliveryMode, cursor: Cursor, failure: Option<HostFailure>, publisher: ClientFrameBuffer)
      requires publisher.IsConsistent()
      ensures this.publisher == publisher && IsConsistent()
      ensures Contents() == State(delivery, cursor.seqNo, cursor.tick, cursor.generation, publisher.Contents(),
              failure.Some?, failure)
    {
      this.delivery := delivery;
      baselineSeq, baselineTick, generation := cursor.seqNo, cursor.tick, cursor.generation;
      this.publisher := publisher;
      awaitingResync := failure.Some?;
      deliveredFailure := failure;
    }

    method Ingest(update: EngineUpdate) returns (action: Action)
      requires IsConsistent()
      modifies this, publisher
      ensures IsConsistent()
      ensures (Contents(), action) == old(Ingested(Contents(), update))
    {
      if update.failure.Some? {
        if deliveredFailure.Some? && !deliveredFailure.value.recoverable {
          return Ignored;
        }
        if deliveredFailure == update.failure {
          awaitingResync := !update.failure.value.IsCorrectionPrepareRejected(generation);
          return Ignored;
        }
        return Failed(update.failure.value);
      }
      if update.generation != generation {
        RequireResync();
        return ResyncRequired(TimelineChanged, None);
      }
      if awaitingResync {
        return Ignored;
      }
      if update.update.None? {
        return Ignored;
      }
      var covered;
      match update.update.value {
        case TickBatchUpdate(b) =>
          covered := b.frames != [] && Last(b.frames).tick <= baselineTick && Last(b.frames).seqTo <= baselineSeq;
        case CivilDayUpdate(c) =>
          covered := c.tick <= baselineTick && c.seqTo <= baselineSeq;
      }
      if covered {
        return Ignored;
      }
      var refusal := publisher.Push(update);
      match refusal {
        case None => action := Buffered;
        case Some(error) => action := BufferError(update, error);
      }
    }

    method BufferError(update: EngineUpdate, error: FrameBufferError) returns (action: Action)
      requires IsConsistent()
      modifies this, publisher
      ensures IsConsistent()
      ensures (Contents(), action) == old(OnRefusal(Contents(), update, error))
    {
      match error {
        case MetadataTransition => return Flush(update, false);
        case BufferCapacityExceeded(limit) =>
          if delivery == Pull {
            RequireResync();
            return ResyncRequired(PublisherBufferCapacity, Some(limit));
          }
          return Flush(update, true);
        case _ => return Rejected(error);
      }
    }

    method FailureDelivered(failure: HostFailure)
      requires IsConsistent()
      modifies this
      ensures IsConsistent() && Contents() == old(FailureNoted(Contents(), failure))
    {
      if deliveredFailure.Some? && !deliveredFailure.value.recoverable {
        return;
      }
      awaitingResync := !failure.IsCorrectionPrepareRejected(generation);
      deliveredFailure := Some(failure);
    }

    method RequireResync()
      modifies this, publisher
      ensures IsConsistent() && Contents() == old(Contents()).ResyncNeeded()
    {
      publisher.Clear();
      awaitingResync := true;
    }

    method PrepareResync()
      modifies publisher
      ensures IsConsistent() && Contents() == old(ResyncStarted(Contents()))
    {
      publisher.Clear();
    }

    method InstallBaselineCursor(cursor: Cursor)
      modifies this
      ensures Contents() == old(Contents()).(baselineSeq := cursor.seqNo, baselineTick := cursor.tick,
                                                      generation := cursor.generation)
    {
      baselineSeq := cursor.seqNo;
      baselineTick := cursor.tick;
      generation := cursor.generation;
    }

    method BaselineDelivered(failure: Option<HostFailure>)
      modifies this
      ensures Contents() == old(Contents()).(awaitingResync := failure.Some?, deliveredFailure := failure)
    {
      awaitingResync := failure.Some?;
      deliveredFailure := failure;
    }

    method TakePushFrame() returns (u: Option<EngineUpdate>)
      requires IsConsistent()
      modifies publisher
      ensures IsConsistent()
      ensures Contents() == old(PushClockTurn(Contents())).next
      ensures old(PushClockTurn(Contents())).wire == if u.Some? then [FrameMessage(u.value)] else []
    {
      if delivery == Push && !awaitingResync {
        u := publisher.Take();
      } else {
        u := None;
      }
    }

    method TakeFlushFrame() returns (u: Option<EngineUpdate>)
      requires IsConsistent()
      modifies publisher
      ensures IsConsistent() && Contents() == old(Contents().(buffer := Taken(Contents().buffer)))
      ensures u == if old(Contents()).buffer.pending == [] then None else Some(old(Contents()).buffer.pending[0])
    {
      u := publisher.Take();
    }

    method AcceptAfterFlush(update: EngineUpdate) returns (refusal: Option<FrameBufferError>)
      requires IsConsistent()
      modifies publisher
      ensures IsConsistent() && Contents() == old(Contents().(buffer := Pushed(Contents().buffer, update)))
      ensures refusal == old(Refusal(Contents().buffer, update))
    {
      refusal := publisher.Push(update);
    }

    method RequestFrame() returns (request: FrameRequest)
      requires IsConsistent()
      modifies publisher
      ensures IsConsistent() && Contents() == old(GetFrameTurn(Contents())).next
      ensures old(GetFrameTurn(Contents())).wire
              == [match request
                  case MustResync => GatewayError(ResyncRequiredFirst)
                  case WrongDeliveryMode => GatewayError(WrongMode)
                  case Frame(u) => FrameMessage(u)
                  case NoFrame => FrameEmpty]
    {
      if awaitingResync {
        return MustResync;
      }
      if delivery != Pull {
        return WrongDeliveryMode;
      }
      var taken := publisher.Take();
      match taken {
        case Some(u) => return Frame(u);
        case None => return NoFrame;
      }
    }
  }
}
