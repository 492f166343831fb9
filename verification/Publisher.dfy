/** The bounded per-client buffer of engine updates and its cursor. */
module Publisher {
  import opened Protocol

  const MAX_BUFFERED_EVENTS_PER_CLIENT: nat := 65_536

  datatype FrameBufferError =
    | InvalidTicksPerDay
    | InvalidAuctionTicks
    | EmptyUpdate
    | InvalidProtocol
    | BufferCapacityExceeded(limit: nat)
    | MetadataTransition
    | CursorMismatch

  // ---------------------------------------------------------------- units

  function AtLeastOne(n: nat): nat {
    if n == 0 then 1 else n
  }

  function FrameUnits(frames: seq<TickFrame>): (n: nat)
    ensures n >= |frames|
  {
    if frames == [] then 0 else FrameUnits(frames[..|frames| - 1]) + AtLeastOne(|Last(frames).facts|)
  }

  function UpdateUnits(p: ProtocolUpdate): nat {
    match p
    case TickBatchUpdate(b) => FrameUnits(b.frames)
    case CivilDayUpdate(c) => AtLeastOne(|c.facts|) + FrameUnits(c.intraday)
  }

  function PendingUnits(us: seq<EngineUpdate>): nat {
    if us == [] then 0
    else (if us[0].update.Some? then UpdateUnits(us[0].update.value) else 0) + PendingUnits(us[1..])
  }

  lemma {:induction false} PendingUnitsAppend(us: seq<EngineUpdate>, u: EngineUpdate)
    ensures PendingUnits(us + [u]) == PendingUnits(us) + PendingUnits([u])
  {
    if us == [] {
      assert us + [u] == [u];
    } else {
      assert (us + [u])[1..] == us[1..] + [u];
      PendingUnitsAppend(us[1..], u);
    }
  }

  /** Every deliverable update weighs at least one unit, so a backlog is never longer than its weight. */
  lemma {:induction false} UnitsBoundLength(us: seq<EngineUpdate>)
    requires forall i | 0 <= i < |us| :: Deliverable(us[i])
    ensures |us| <= PendingUnits(us)
  {
    if us != [] {
      assert Deliverable(us[0]);
      UnitsBoundLength(us[1..]);
    }
  }

  // ---------------------------------------------------------------- the buffer as a value

  datatype Buffer = Buffer(pending: seq<EngineUpdate>, units: nat, cursor: Option<Cursor>)

  const EmptyBuffer := Buffer([], 0, None)

  /** The pending updates chain up to the cursor, the weight is exact, and only a single oversized
      update may exceed the limit. */
  predicate Consistent(b: Buffer) {
    && b.units == PendingUnits(b.pending)
    && (|b.pending| <= 1 || b.units <= MAX_BUFFERED_EVENTS_PER_CLIENT)
    && (forall i | 0 <= i < |b.pending| :: Deliverable(b.pending[i]))
    && (forall i | 0 < i < |b.pending| :: Follows(EndOf(b.pending[i - 1]), b.pending[i]))
    && (b.pending != [] ==> b.cursor == Some(EndOf(Last(b.pending))))
  }

  /** Why a push would be refused: shape first, then the cursor, then the capacity. */
  function Refusal(b: Buffer, u: EngineUpdate): Option<FrameBufferError> {
    if u.update.None? then Some(EmptyUpdate)
    else if !Valid(u.update.value) then Some(InvalidProtocol)
    else if b.cursor.Some?
            && !(b.cursor.value.generation == u.generation
                 && Continues(b.cursor.value.tick, b.cursor.value.seqNo, u.update.value)) then Some(CursorMismatch)
    else if b.pending != [] && b.units + UpdateUnits(u.update.value) > MAX_BUFFERED_EVENTS_PER_CLIENT then
      Some(BufferCapacityExceeded(MAX_BUFFERED_EVENTS_PER_CLIENT))
    else None
  }

  function Appended(b: Buffer, u: EngineUpdate): Buffer
    requires u.update.Some? && Valid(u.update.value)
  {
    var p := u.update.value;
    Buffer(b.pending + [u], b.units + UpdateUnits(p), Some(Cursor(LastTick(p), LastSeq(p), u.generation)))
  }

  function Pushed(b: Buffer, u: EngineUpdate): Buffer {
    if Refusal(b, u).None? then Appended(b, u) else b
  }

  function Taken(b: Buffer): Buffer
    requires Consistent(b)
  {
    if b.pending == [] then b
    else b.(pending := b.pending[1..], units := PendingUnits(b.pending[1..]))
  }

  /** A consistent backlog never holds more updates than the unit limit. */
  lemma BacklogBounded(b: Buffer)
    requires Consistent(b)
    ensures |b.pending| <= MAX_BUFFERED_EVENTS_PER_CLIENT
  {
    UnitsBoundLength(b.pending);
  }

  lemma ChainGrows(us: seq<EngineUpdate>, u: EngineUpdate)
    requires Deliverable(u) && (forall i | 0 <= i < |us| :: Deliverable(us[i]))
    requires forall i | 0 < i < |us| :: Follows(EndOf(us[i - 1]), us[i])
    requires us != [] ==> Follows(EndOf(Last(us)), u)
    ensures var p := us + [u];
            (forall i | 0 <= i < |p| :: Deliverable(p[i])) && (forall i | 0 < i < |p| :: Follows(EndOf(p[i - 1]), p[i]))
  {
    var p := us + [u];
    forall i | 0 < i < |p| ensures Follows(EndOf(p[i - 1]), p[i]) {
      if i == |p| - 1 {
        assert p[i - 1] == Last(us);
      }
    }
  }

  lemma PushKeepsConsistent(b: Buffer, u: EngineUpdate)
    requires Consistent(b)
    ensures Consistent(Pushed(b, u))
  {
    if Refusal(b, u).None? {
      PendingUnitsAppend(b.pending, u);
      ChainGrows(b.pending, u);
      assert PendingUnits([u]) == UpdateUnits(u.update.value);
      assert Last(b.pending + [u]) == u;
    }
  }

  lemma TakeKeepsConsistent(b: Buffer)
    requires Consistent(b)
    ensures Consistent(Taken(b)) && Taken(b).cursor == b.cursor
    ensures Taken(b).units <= b.units
  {
    if |b.pending| > 1 {
      assert Last(b.pending[1..]) == Last(b.pending);
    }
  }

  /** The cursor is judged before the capacity: once the only objection is the capacity, an emptied
      buffer with the same cursor accepts the update. */
  lemma CapacityRefusalClearsByDraining(b: Buffer, u: EngineUpdate)
    requires Refusal(b, u).Some? && Refusal(b, u).value.BufferCapacityExceeded?
    ensures b.pending != [] && Refusal(Buffer([], 0, b.cursor), u).None?
  {
  }

  // ---------------------------------------------------------------- the buffer as the program keeps it

  class ClientFrameBuffer {
    var pending: seq<EngineUpdate>
    var units: nat
    var cursor: Option<Cursor>

    function Contents(): Buffer
      reads this
    {
      Buffer(pending, units, cursor)
    }

    ghost predicate IsConsistent()
      reads this
    {
      Consistent(Contents())
    }

    constructor ()
      ensures Contents() == EmptyBuffer && IsConsistent()
    {
      pending, units, cursor := [], 0, None;
    }

    /** Refuses a configuration that has no trading tick in a day. */
    static method Configured(ticksPerDay: U64, auctionTicks: U64)
      returns (r: Result<ClientFrameBuffer, FrameBufferError>)
      ensures r.Ok? <==> auctionTicks < ticksPerDay
      ensures r.Ok? ==> fresh(r.value) && r.value.IsConsistent() && r.value.Contents() == EmptyBuffer
      ensures r.Err? ==> r.error == if ticksPerDay == 0 then InvalidTicksPerDay else InvalidAuctionTicks
    {
      if ticksPerDay == 0 {
        return Err(InvalidTicksPerDay);
      }
      if auctionTicks >= ticksPerDay {
        return Err(InvalidAuctionTicks);
      }
      var buffer := new ClientFrameBuffer();
      return Ok(buffer);
    }

    method Push(u: EngineUpdate) returns (refusal: Option<FrameBufferError>)
      requires IsConsistent()
      modifies this
      ensures refusal == old(Refusal(Contents(), u))
      ensures Contents() == old(Pushed(Contents(), u))
      ensures IsConsistent()
    {
      if u.update.None? {
        return Some(EmptyUpdate);
      }
      var protocol := u.update.value;
      if !Valid(protocol) {
        return Some(InvalidProtocol);
      }
      if cursor.Some? {
        var previous := cursor.value;
        var expectedTick, firstTick, from;
        match protocol {
          case TickBatchUpdate(b) =>
            expectedTick, firstTick, from := previous.tick + 1, b.frames[0].tick, b.frames[0].seqFrom;
          case CivilDayUpdate(c) => expectedTick, firstTick, from := previous.tick, c.tick, c.seqFrom;
        }
        if expectedTick != firstTick || previous.seqNo != from || previous.generation != u.generation {
          return Some(CursorMismatch);
        }
      }
      var weight := UpdateUnits(protocol);
      if pending != [] && units + weight > MAX_BUFFERED_EVENTS_PER_CLIENT {
        return Some(BufferCapacityExceeded(MAX_BUFFERED_EVENTS_PER_CLIENT));
      }
      PushKeepsConsistent(Contents(), u);
      units := units + weight;
      cursor := Some(Cursor(LastTick(protocol), LastSeq(protocol), u.generation));
      pending := pending + [u];
      return None;
    }

    /** Hands out the oldest update; the subtraction cannot underflow. */
    method Take() returns (u: Option<EngineUpdate>)
      requires IsConsistent()
      modifies this
      ensures IsConsistent() && Contents() == old(Taken(Contents()))
      ensures u == if old(pending) == [] then None else Some(old(pending)[0])
    {
      if pending == [] {
        return None;
      }
      TakeKeepsConsistent(Contents());
      u := Some(pending[0]);
      assert Deliverable(pending[0]);
      units := units - UpdateUnits(pending[0].update.value);
      pending := pending[1..];
    }

    method Clear()
      modifies this
      ensures Contents() == EmptyBuffer && IsConsistent()
    {
      pending, units, cursor := [], 0, None;
    }
  }
}
