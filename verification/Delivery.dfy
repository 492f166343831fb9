/** One actor, one lossy broadcast channel, one connection: their interleaved steps, and the
    bookkeeping that says which published updates the client has been given. */
module Delivery {
  import opened Protocol
  import opened Publisher
  import opened PublishedLog
  import opened Connection

  /** Slots of the broadcast channel; a receiver further behind loses the overwritten ones. */
  const EVENT_CHANNEL_CAPACITY: nat := 1024

  datatype Phase =
    | Subscribing            // subscribed, first baseline requested
    | FirstAnswer(at: nat)   // first baseline taken when the log had `at` entries
    | Live                   // in the select loop
    | Resyncing              // resubscribed, backlog dropped, baseline requested
    | Reanswered(at: nat)    // that baseline taken
    | Closed

  /** `next` is the receiver's position. Since the baseline taken at log position `base`, `delivered`
      are the frames sent and `missed` counts the published frames this connection dropped:
      overwritten in the channel, cleared from the backlog, or ignored behind the barrier. */
  datatype System = System(origin: Head, log: seq<Entry>, accepting: bool, phase: Phase, next: nat,
                           conn: State, base: nat, delivered: seq<EngineUpdate>, missed: nat)
  {
    function Oldest(): nat { if |log| > EVENT_CHANNEL_CAPACITY then |log| - EVENT_CHANNEL_CAPACITY else 0 }

    /** First log position whose frames this baseline still owes the client and the receiver has not passed. */
    function Ahead(): nat { if next < base then base else next }

    /** The published updates of the connection's generation from its baseline up to the receiver. */
    function Segment(): seq<EngineUpdate>
      requires Ahead() <= |log|
    {
      Frames(log, conn.generation, base, Ahead())
    }

    function InHand(): seq<EngineUpdate> { delivered + conn.buffer.pending }
  }

  /** Step parameters named `cut` say where the transport failed inside a turn, if it did. */
  datatype Step =
    | Publish(entry: Entry)
    | CloseCommands
    | AnswerBaseline
    | InstallBaseline(cut: Option<nat>)
    | BaselineLost(cut: Option<nat>)
    | Receive(cut: Option<nat>)
    | PushTick(cut: Option<nat>)
    | PullFrame(cut: Option<nat>)
    | RequestResync
    | HangUp

  function Start(origin: Head, log: seq<Entry>, delivery: DeliveryMode): System {
    System(origin, log, true, Subscribing, |log|, State(delivery, 0, 0, 0, EmptyBuffer, true, None), 0, [], 0)
  }

  function FramesIn(ws: seq<Wire>): seq<EngineUpdate> {
    if ws == [] then [] else FramesIn(ws[..|ws| - 1]) + if Last(ws).FrameMessage? then [Last(ws).frame] else []
  }

  function Sent(ws: seq<Wire>, cut: Option<nat>): seq<Wire> {
    if cut.Some? && cut.value < |ws| then ws[..cut.value] else ws
  }

  function AfterTurn(s: System, t: Turn, next: nat, dropped: nat, cut: Option<nat>): System {
    s.(next := next, conn := t.next, missed := s.missed + dropped,
       delivered := s.delivered + FramesIn(Sent(t.wire, cut)),
       phase := if cut.Some? || t.close then Closed else Live)
  }

  ghost predicate Enabled(s: System, step: Step) {
    match step
    case Publish(e) => EntryStep(HeadAt(s.origin, s.log, |s.log|), e) && (s.accepting || e.message.update.None?)
    case CloseCommands => s.accepting
    case AnswerBaseline => (s.phase.Subscribing? || s.phase.Resyncing?) && s.accepting
    case InstallBaseline(_) => s.phase.FirstAnswer? || s.phase.Reanswered?
    case BaselineLost(_) => (s.phase.Subscribing? || s.phase.Resyncing?) && !s.accepting
    case Receive(_) => s.phase.Live? && s.next < |s.log|
    case PushTick(_) => s.phase.Live?
    case PullFrame(_) => s.phase.Live?
    case RequestResync => s.phase.Live?
    case HangUp => true
  }

  /** How many owed frames a receive drops. */
  function DroppedByReceive(s: System): nat
    requires s.next < |s.log|
  {
    if s.next < s.Oldest() then
      |s.conn.buffer.pending| + |Frames(s.log, s.conn.generation, s.Ahead(), s.Oldest())|
    else
      var owed := if s.base <= s.next && IsFrame(s.log[s.next], s.conn.generation) then 1 else 0;
      match Ingested(s.conn, s.log[s.next].message).1
      case Ignored => owed
      case ResyncRequired(_, _) => |s.conn.buffer.pending| + owed
      case _ => 0
  }

  function AfterReceive(s: System, cut: Option<nat>): System
    requires s.next < |s.log|
  {
    if s.next < s.Oldest() then
      AfterTurn(s, LaggedTurn(s.conn, s.Oldest() - s.next), s.Oldest(), DroppedByReceive(s), cut)
    else
      AfterTurn(s, UpdateTurn(s.conn, s.log[s.next].message), s.next + 1, DroppedByReceive(s), cut)
  }

  function Installed(s: System, at: nat, cut: Option<nat>): System
    requires at <= |s.log|
  {
    var h := HeadAt(s.origin, s.log, at);
    var conn := BaselineNoted(s.conn, h.At(), h.fatal);
    if cut.Some? || (s.phase.FirstAnswer? && h.fatal.Some?) then s.(phase := Closed)
    else if h.fatal.Some? then s.(conn := conn, phase := Live)
    else s.(conn := conn, phase := Live, base := at, delivered := [], missed := 0)
  }

  function Resubscribed(s: System): System
    requires s.next <= |s.log|
  {
    s.(phase := Resyncing, conn := ResyncStarted(s.conn), next := |s.log|,
       missed := s.missed + |s.conn.buffer.pending| + |Frames(s.log, s.conn.generation, s.Ahead(), |s.log|)|)
  }

  ghost function Apply(s: System, step: Step): System
    requires Enabled(s, step) && Grounded(s)
  {
    match step
    case Publish(e) => s.(log := s.log + [e])
    case CloseCommands => s.(accepting := false)
    case AnswerBaseline => s.(phase := if s.phase.Subscribing? then FirstAnswer(|s.log|) else Reanswered(|s.log|))
    case InstallBaseline(cut) => Installed(s, s.phase.at, cut)
    case BaselineLost(cut) => s.(phase := if s.phase.Subscribing? || cut.Some? then Closed else Live)
    case Receive(cut) => AfterReceive(s, cut)
    case PushTick(cut) => AfterTurn(s, PushClockTurn(s.conn), s.next, 0, cut)
    case PullFrame(cut) => AfterTurn(s, GetFrameTurn(s.conn), s.next, 0, cut)
    case RequestResync => Resubscribed(s)
    case HangUp => s.(phase := Closed)
  }

  // ---------------------------------------------------------------- what every run keeps

  predicate Connected(s: System) { s.phase.Live? || s.phase.Resyncing? || s.phase.Reanswered? }

  /** Positions are inside the log, the buffer is consistent, and the baseline is the head at `base`. */
  ghost predicate Grounded(s: System) {
    && WellFormedLog(s.origin, s.log)
    && s.next <= |s.log| && s.base <= |s.log|
    && (s.phase.FirstAnswer? || s.phase.Reanswered? ==> s.next <= s.phase.at <= |s.log|)
    && (!s.phase.Closed? ==> BarrierHolds(s.conn))
    && (!s.phase.Live? && !s.phase.Closed? ==> s.conn.buffer == EmptyBuffer)
    && (Connected(s) ==>
          && HeadAt(s.origin, s.log, s.base).At() == Cursor(s.conn.baselineTick, s.conn.baselineSeq, s.conn.generation)
          && HeadAt(s.origin, s.log, s.base).fatal.None?)
  }

  predicate Placed(s: System) { s.base <= |s.log| && s.next <= |s.log| }

  /** Conservation: every owed frame is delivered, pending, or counted as missed, and as long as none
      is missed the frames in hand are the owed ones in order. */
  predicate Balanced(s: System)
    requires Placed(s)
  {
    Connected(s) ==>
      && |s.InHand()| + s.missed == |s.Segment()|
      && (s.missed == 0 ==> s.InHand() == s.Segment())
      && (s.next < s.base ==> s.conn.buffer.cursor.None?)
  }

  ghost predicate Accounted(s: System) { Grounded(s) && Balanced(s) }

  // ---------------------------------------------------------------- frames on the wire

  lemma {:induction false} FramesInAppend(a: seq<Wire>, b: seq<Wire>)
    ensures FramesIn(a + b) == FramesIn(a) + FramesIn(b)
  {
    if b == [] {
      assert a + b == a;
    } else {
      assert (a + b)[..|a + b| - 1] == a + b[..|b| - 1];
      FramesInAppend(a, b[..|b| - 1]);
    }
  }

  lemma {:induction false} FramesInAsFrames(us: seq<EngineUpdate>)
    ensures FramesIn(AsFrames(us)) == us
  {
    if us != [] {
      var front := us[..|us| - 1];
      assert AsFrames(us) == AsFrames(front) + [FrameMessage(Last(us))];
      FramesInAsFrames(front);
      assert us == front + [Last(us)];
    }
  }

  lemma FramesInSingle(w: Wire)
    ensures FramesIn([w]) == if w.FrameMessage? then [w.frame] else []
  {
    assert [w][..0] == [] && FramesIn([]) == [];
  }

  /** The turn either sends nothing and changes nothing, or moves the oldest pending frame to the wire. */
  predicate HandsOver(c: State, t: Turn)
    requires Consistent(c.buffer)
  {
    || (t.next == c && FramesIn(t.wire) == [])
    || (c.buffer.pending != [] && FramesIn(t.wire) == [c.buffer.pending[0]] && t.next == c.(buffer := Taken(c.buffer)))
  }

  lemma PushClockFrames(c: State)
    requires Consistent(c.buffer)
    ensures HandsOver(c, PushClockTurn(c))
  {
    if c.PushReady() && c.buffer.pending != [] {
      FramesInSingle(FrameMessage(c.buffer.pending[0]));
    }
  }

  lemma GetFrameFrames(c: State)
    requires Consistent(c.buffer)
    ensures HandsOver(c, GetFrameTurn(c))
  {
    FramesInSingle(GetFrameTurn(c).wire[0]);
  }

  lemma FlushedFrames(us: seq<EngineUpdate>, action: Action)
    ensures FramesIn(AsFrames(us) + Announced(action)) == us
  {
    var tail := Announced(action);
    FramesInAsFrames(us);
    FramesInAppend(AsFrames(us), tail);
    if tail != [] {
      FramesInSingle(tail[0]);
      assert tail == [tail[0]];
    }
  }

  lemma UpdateTurnFrames(c: State, u: EngineUpdate)
    ensures var action := Ingested(c, u).1;
            FramesIn(UpdateTurn(c, u).wire) == if action.Failed? || action.Flush? then c.buffer.pending else []
  {
    var action := Ingested(c, u).1;
    if action.Failed? || action.Flush? {
      FlushedFrames(c.buffer.pending, action);
      FlushingWire(c, u);
    } else {
      FlushedFrames([], action);
      AnswerTurn(c, u);
    }
  }

  lemma FlushingWire(c: State, u: EngineUpdate)
    requires var action := Ingested(c, u).1; action.Failed? || action.Flush?
    ensures UpdateTurn(c, u).wire == AsFrames(c.buffer.pending) + Announced(Ingested(c, u).1)
  {
    FlushesAll(c, u);
    assert AsFrames(c.buffer.pending) + [] == AsFrames(c.buffer.pending);
  }

  lemma TurnFrames(c: State, i: Input)
    requires BarrierHolds(c)
    ensures FramesIn(TurnOf(c, i).wire) <= c.buffer.pending
  {
    match i
    case Received(u) => UpdateTurnFrames(c, u);
    case _ =>
      var w := TurnOf(c, i).wire;
      if w != [] {
        FramesInSingle(w[0]);
      }
  }

  /** A transport that fails inside a turn has sent a prefix of its frames. */
  lemma CutFrames(w: seq<Wire>, cut: Option<nat>)
    ensures FramesIn(Sent(w, cut)) <= FramesIn(w)
  {
    var sent := Sent(w, cut);
    assert w == sent + w[|sent|..];
    FramesInAppend(sent, w[|sent|..]);
  }

  lemma PrefixOfPrefix<T>(a: seq<T>, b: seq<T>, c: seq<T>)
    requires a <= b <= c
    ensures a <= c
  {
  }

  /** A turn sends frames only from the front of the backlog, even when the transport fails inside it. */
  lemma CutTurnFrames(c: State, i: Input, cut: Option<nat>)
    requires BarrierHolds(c)
    ensures FramesIn(Sent(TurnOf(c, i).wire, cut)) <= c.buffer.pending
  {
    var w := TurnOf(c, i).wire;
    TurnFrames(c, i);
    CutFrames(w, cut);
    PrefixOfPrefix(FramesIn(Sent(w, cut)), FramesIn(w), c.buffer.pending);
  }
}
