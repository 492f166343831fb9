/** The WebSocket event loop: every branch of its select, with a transport whose sends may fail. */
module EventLoop {
  import opened Protocol
  import opened Publisher
  import opened PublishedLog
  import opened Connection

  /** A turn's messages are sent in full, and the loop goes on exactly if the turn does not end it, unless the
      transport breaks: then a prefix of them is sent and the loop ends. */
  ghost predicate Performed(before: seq<Wire>, after: seq<Wire>, open: bool, broken: bool, now: State, t: Turn) {
    && before <= after <= before + t.wire
    && (open ==> !t.close && after == before + t.wire && now == t.next)
    && (!broken ==> after == before + t.wire && open == !t.close)
  }

  /** Only the oldest `n` pending updates are gone. */
  ghost predicate DrainedBy(before: State, now: State, n: nat) {
    && n <= |before.buffer.pending|
    && now.buffer.pending == before.buffer.pending[n..]
    && now == before.(buffer := now.buffer)
    && now.buffer.cursor == before.buffer.cursor
  }

  lemma DrainedNext(before: State, now: State, after: State, n: nat)
    requires DrainedBy(before, now, n) && Consistent(now.buffer) && now.buffer.pending != []
    requires after == now.(buffer := Taken(now.buffer))
    ensures n < |before.buffer.pending| && now.buffer.pending[0] == before.buffer.pending[n]
    ensures DrainedBy(before, after, n + 1)
  {
    assert before.buffer.pending[n..][1..] == before.buffer.pending[n + 1..];
  }

  /** Once all are gone the connection is as after a flush. */
  lemma DrainedAll(before: State, now: State, n: nat)
    requires DrainedBy(before, now, n) && Consistent(now.buffer) && now.buffer.pending == []
    ensures n == |before.buffer.pending| && now == before.(buffer := Flushed(before.buffer))
  {
  }

  lemma NextSent(start: seq<Wire>, us: seq<EngineUpdate>, n: nat)
    requires n < |us|
    ensures start + AsFrames(us)[..n] + [FrameMessage(us[n])] == start + AsFrames(us)[..n + 1]
  {
    assert AsFrames(us)[..n + 1] == AsFrames(us)[..n] + [AsFrames(us)[n]];
  }

  function FailureTurn(c: State, f: HostFailure): Turn {
    Turn(FailureNoted(c.(buffer := Flushed(c.buffer)), f), AsFrames(c.buffer.pending) + [FailureMessage(f)], false)
  }

  function AcceptTurn(c: State, held: EngineUpdate): Turn {
    var emptied := Flushed(c.buffer);
    Turn(c.(buffer := Pushed(emptied, held)), AsFrames(c.buffer.pending), Refusal(emptied, held).Some?)
  }

  /** What a turn does, by the action decided on. */
  lemma TurnIs(c: State, u: EngineUpdate)
    ensures var (next, action) := Ingested(c, u);
            && (action.Failed? || action.Flush? ==> next == c)
            && (action.Flush? ==> action == Flush(u, true))
            && UpdateTurn(c, u)
               == match action
                  case Failed(f) => FailureTurn(c, f)
                  case Flush(held, _) => AcceptTurn(c, held)
                  case _ => Turn(next, Announced(action), action.Rejected?)
  {
    var action := Ingested(c, u).1;
    if action.Failed? || action.Flush? {
      FlushesAll(c, u);
    } else {
      AnswerTurn(c, u);
    }
  }

  /** The actor's answer to a request for a baseline: its cursor and the failure it has latched, if any. */
  datatype BaselineAnswer =
    | Answered(cursor: Cursor, failure: Option<HostFailure>)
    | CannotBuild(reason: HostFailure)
    | Gone

  function AsInput(answer: BaselineAnswer): Input {
    match answer
    case Answered(cursor, failure) => ResyncAnswered(cursor, failure)
    case CannotBuild(reason) => ResyncRefused(reason)
    case Gone => ResyncUnanswered
  }

  class WsConnectionLoop {
    const connection: WsPublisherConnection
    var wire: seq<Wire>
    var open: bool
    ghost var broken: bool   // some send did not reach the client

    ghost predicate Ready()
      reads this, connection, connection.publisher
    {
      open && !broken && connection.IsConsistent()
    }

    constructor (connection: WsPublisherConnection)
      requires connection.IsConsistent()
      ensures this.connection == connection && Ready() && wire == []
    {
      this.connection := connection;
      wire, open, broken := [], true, false;
    }

    /** A send either reaches the client or ends the loop. */
    method Send(message: Wire)
      requires open && !broken
      modifies this
      ensures open == !broken && wire == if open then old(wire) + [message] else old(wire)
    {
      var reached: bool := *;
      if reached {
        wire := wire + [message];
      } else {
        open, broken := false, true;
      }
    }

    /** Sends the whole backlog in order, stopping at the first failed send. */
    method DrainBacklog()
      requires Ready()
      modifies this, connection.publisher
      ensures connection.IsConsistent() && open == !broken
      ensures var backlog := old(connection.Contents()).buffer.pending;
              && old(wire) <= wire <= old(wire) + AsFrames(backlog)
              && (open ==> wire == old(wire) + AsFrames(backlog)
                           && connection.Contents()
                              == old(connection.Contents()).(buffer := Flushed(old(connection.Contents()).buffer)))
    {
      ghost var before := connection.Contents();
      ghost var backlog := before.buffer.pending;
      ghost var sent := 0;
      while open
        invariant connection.IsConsistent() && open == !broken
        invariant sent <= |backlog|
        invariant wire == old(wire) + AsFrames(backlog)[..sent]
        invariant open ==> DrainedBy(before, connection.Contents(), sent)
        decreases open, |backlog| - sent
      {
        ghost var now := connection.Contents();
        var next := connection.TakeFlushFrame();
        if next.None? {
          DrainedAll(before, now, sent);
          return;
        }
        DrainedNext(before, now, connection.Contents(), sent);
        Send(FrameMessage(next.value));
        NextSent(old(wire), backlog, sent);
        if open {
          sent := sent + 1;
        }
      }
    }

    /** Sends the backlog, then the failure. */
    method FlushAndFail(failure: HostFailure)
      requires Ready()
      modifies this, connection, connection.publisher
      ensures open ==> Ready()
      ensures var c := old(connection.Contents());
              Performed(old(wire), wire, open, broken, connection.Contents(), FailureTurn(c, failure))
    {
      DrainBacklog();
      if open {
        Send(FailureMessage(failure));
      }
      if open {
        connection.FailureDelivered(failure);
      }
    }

    /** Sends the backlog, then offers the held update to the emptied buffer again. */
    method FlushAndAccept(held: EngineUpdate)
      requires Ready()
      modifies this, connection, connection.publisher
      ensures open ==> Ready()
      ensures var c := old(connection.Contents());
              Performed(old(wire), wire, open, broken, connection.Contents(), AcceptTurn(c, held))
    {
      DrainBacklog();
      if open {
        var refusal := connection.AcceptAfterFlush(held);
        if refusal.Some? {
          open := false;
        }
      }
    }

    method HandleUpdate(update: EngineUpdate)
      requires Ready()
      modifies this, connection, connection.publisher
      ensures open ==> Ready()
      ensures Performed(old(wire), wire, open, broken, connection.Contents(),
                  old(UpdateTurn(connection.Contents(), update)))
    {
      TurnIs(connection.Contents(), update);
      var action := connection.Ingest(update);
      match action {
        case Buffered =>
        case Ignored =>
        case Failed(failure) =>
          FlushAndFail(failure);
        case ResyncRequired(reason, _) =>
          Send(ResyncMessage(reason, None));
        case Flush(held, all) =>
          // The buffer never asks for a partial flush: a push reports no metadata transition.
          assert all;
          FlushAndAccept(held);
        case Rejected(_) =>
          Send(GatewayError(PublisherSequenceError));
          open := false;
      }
    }

    method HandleLagged(missed: nat)
      requires Ready()
      modifies this, connection, connection.publisher
      ensures open ==> Ready()
      ensures Performed(old(wire), wire, open, broken, connection.Contents(),
                  old(LaggedTurn(connection.Contents(), missed)))
    {
      connection.RequireResync();
      Send(ResyncMessage(EventStreamLagged, Some(missed)));
    }

    method HandlePushClock()
      requires Ready()
      modifies this, connection, connection.publisher
      ensures open ==> Ready()
      ensures Performed(old(wire), wire, open, broken, connection.Contents(), old(PushClockTurn(connection.Contents())))
    {
      if connection.delivery == Push && !connection.awaitingResync {
        var frame := connection.TakePushFrame();
        if frame.Some? {
          Send(FrameMessage(frame.value));
        }
      }
    }

    method HandleGetFrame()
      requires Ready()
      modifies this, connection, connection.publisher
      ensures open ==> Ready()
      ensures Performed(old(wire), wire, open, broken, connection.Contents(), old(GetFrameTurn(connection.Contents())))
    {
      var request := connection.RequestFrame();
      match request {
        case MustResync => Send(GatewayError(ResyncRequiredFirst));
        case WrongDeliveryMode => Send(GatewayError(WrongMode));
        case Frame(update) => Send(FrameMessage(update));
        case NoFrame => Send(FrameEmpty);
      }
    }

    /** Asks the actor for a new baseline: it answers with one, or cannot build one, or is gone. */
    method HandleResync(answer: BaselineAnswer)
      requires Ready()
      modifies this, connection, connection.publisher
      ensures open ==> Ready()
      ensures Performed(old(wire), wire, open, broken, connection.Contents(),
                  old(TurnOf(connection.Contents(), AsInput(answer))))
    {
      connection.PrepareResync();
      match answer {
        case Answered(cursor, failure) =>
          if failure.None? {
            connection.InstallBaselineCursor(cursor);
          }
          Send(BaselineMessage(cursor, failure));
          if open {
            connection.BaselineDelivered(failure);
          }
        case CannotBuild(reason) =>
          Send(FailureMessage(reason));
          open := false;
        case Gone =>
          Send(GatewayError(ResyncFailed));
      }
    }
  }
}
