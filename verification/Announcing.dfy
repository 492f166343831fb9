/** What a client is told, turn by turn: why its stream stops, when its connection ends, and its backlog in
    order. */
module Announcing {
  import opened Protocol
  import opened Publisher
  import opened PublishedLog
  import opened Connection

  // ---------------------------------------------------------------- the barrier is announced

  /** Something that tells the client to resync. */
  predicate TellsToResync(w: Wire) {
    w.ResyncMessage? || w.FailureMessage? || (w.BaselineMessage? && w.latched.Some?)
  }

  /** A client whose barrier goes up is told so in the same turn, whatever raises it. */
  lemma RaisingIsAnnounced(c: State, i: Input)
    requires BarrierHolds(c) && !c.awaitingResync
    requires !TurnOf(c, i).close && TurnOf(c, i).next.awaitingResync
    ensures exists k :: 0 <= k < |TurnOf(c, i).wire| && TellsToResync(TurnOf(c, i).wire[k])
  {
    var w := TurnOf(c, i).wire;
    if i.Received? {
      RaisedByUpdate(c, i.update);
    } else {
      RaisedOtherwise(c, i);
    }
    assert TellsToResync(w[|w| - 1]);
  }

  lemma RaisedOtherwise(c: State, i: Input)
    requires BarrierHolds(c) && !c.awaitingResync && !i.Received?
    requires !TurnOf(c, i).close && TurnOf(c, i).next.awaitingResync
    ensures var w := TurnOf(c, i).wire; w != [] && TellsToResync(Last(w))
  {
  }

  lemma RaisedByUpdate(c: State, u: EngineUpdate)
    requires BarrierHolds(c) && !c.awaitingResync
    requires !UpdateTurn(c, u).close && UpdateTurn(c, u).next.awaitingResync
    ensures var w := UpdateTurn(c, u).wire; w != [] && TellsToResync(Last(w))
  {
    if Ingested(c, u).1.Failed? || Ingested(c, u).1.Flush? {
      FlushesAll(c, u);
    } else {
      AnswerTurn(c, u);
    }
  }

  /** A new timeline clears the backlog, raises the barrier, and says so and nothing else. */
  lemma TimelineChangeIsAnnounced(c: State, u: EngineUpdate)
    requires u.failure.None? && u.generation != c.generation
    ensures UpdateTurn(c, u)
            == Turn(c.(buffer := EmptyBuffer, awaitingResync := true), [ResyncMessage(TimelineChanged, None)], false)
  {
    AnswerTurn(c, u);
    assert AsFrames([]) == [];
  }

  /** Lag does the same, and says how many updates were lost. */
  lemma LagIsAnnounced(c: State, missed: nat)
    requires Consistent(c.buffer)
    ensures TurnOf(c, Lagged(missed))
            == Turn(c.(buffer := EmptyBuffer, awaitingResync := true), [ResyncMessage(EventStreamLagged, Some(missed))],
                   false)
  {
  }

  /** A failure is forwarded behind the whole backlog exactly if it is news: not after a fatal one, and not
      the one noted last. Then it is noted, and the barrier goes up unless it is a strict rejection. */
  lemma FailureIsForwarded(c: State, u: EngineUpdate)
    requires BarrierHolds(c) && u.failure.Some?
    ensures var t, f := UpdateTurn(c, u), u.failure.value;
            if c.LatchedFatal() then t == Turn(c, [], false)
            else if c.deliveredFailure == u.failure then
              t == Turn(c.(awaitingResync := !f.IsCorrectionPrepareRejected(c.generation)), [], false)
            else
              && t.wire == AsFrames(c.buffer.pending) + [FailureMessage(f)] && !t.close
              && t.next.buffer.pending == [] && t.next.deliveredFailure == Some(f)
              && (t.next.awaitingResync <==> !f.IsCorrectionPrepareRejected(c.generation))
  {
    if Ingested(c, u).1.Failed? {
      FlushesAll(c, u);
    } else {
      AnswerTurn(c, u);
      assert AsFrames([]) == [];
    }
  }

  // ---------------------------------------------------------------- taking in, ignoring, closing

  /** An update without a failure that is for this connection's timeline, behind no barrier and not covered. */
  predicate Relevant(c: State, u: EngineUpdate) {
    && u.failure.None? && u.generation == c.generation && !c.awaitingResync
    && u.update.Some? && !Covered(u.update.value, c.baselineTick, c.baselineSeq)
  }

  /** The update fails validation or does not continue the updates taken in before. */
  predicate OutOfOrder(c: State, u: EngineUpdate)
    requires u.update.Some?
  {
    !Deliverable(u) || (c.buffer.cursor.Some? && !Follows(c.buffer.cursor.value, u))
  }

  lemma RefusedFor(c: State, u: EngineUpdate)
    requires Relevant(c, u)
    ensures var refusal := Refusal(c.buffer, u);
            && (OutOfOrder(c, u) <==> refusal == Some(InvalidProtocol) || refusal == Some(CursorMismatch))
            && (refusal.Some? && !OutOfOrder(c, u) ==>
                  refusal == Some(BufferCapacityExceeded(MAX_BUFFERED_EVENTS_PER_CLIENT)))
    ensures Ingested(c, u)
            == match Refusal(c.buffer, u)
               case None => (c.(buffer := Appended(c.buffer, u)), Buffered)
               case Some(e) => OnRefusal(c, u, e)
  {
  }

  /** A connection ends itself on an update exactly if the update is relevant and out of order, and then it
      says so first. */
  lemma ClosesExactly(c: State, u: EngineUpdate)
    requires BarrierHolds(c)
    ensures UpdateTurn(c, u).close <==> Relevant(c, u) && OutOfOrder(c, u)
    ensures UpdateTurn(c, u).close ==> UpdateTurn(c, u).wire == [GatewayError(PublisherSequenceError)]
  {
    if Relevant(c, u) {
      RefusedFor(c, u);
      if Ingested(c, u).1.Flush? {
        FlushesAll(c, u);
        CapacityRefusalClearsByDraining(c.buffer, u);
      } else {
        AnswerTurn(c, u);
        assert AsFrames([]) == [];
      }
    } else if Ingested(c, u).1.Failed? {
      FlushesAll(c, u);
    } else {
      AnswerTurn(c, u);
    }
  }

  /** What the turn does with the backlog and the update: either the backlog then ends with the update, with
      what was sent of it in front, or the update is not taken in. */
  predicate TakenInBy(c: State, u: EngineUpdate, t: Turn) {
    && !t.close && t.next.buffer.pending != [] && Last(t.next.buffer.pending) == u
    && t.wire + AsFrames(t.next.buffer.pending) == AsFrames(c.buffer.pending + [u])
    && t.next == c.(buffer := t.next.buffer)
  }

  /** A relevant update in order is taken in, behind the backlog, unless it overflows a pull client's. */
  lemma TakesInExactly(c: State, u: EngineUpdate)
    requires BarrierHolds(c)
    ensures TakenInBy(c, u, UpdateTurn(c, u)) <==>
              && Relevant(c, u) && !OutOfOrder(c, u)
              && (c.delivery.Pull? ==> Refusal(c.buffer, u).None?)
  {
    if Relevant(c, u) && !OutOfOrder(c, u) && (c.delivery.Pull? ==> Refusal(c.buffer, u).None?) {
      RefusedFor(c, u);
      if Refusal(c.buffer, u).None? {
        AnswerTurn(c, u);
        assert AsFrames([]) + AsFrames(c.buffer.pending + [u]) == AsFrames(c.buffer.pending + [u]);
      } else {
        OverflowRecovers(c, u);
        assert AsFrames(c.buffer.pending) + AsFrames([u]) == AsFrames(c.buffer.pending + [u]);
      }
    } else if TakenInBy(c, u, UpdateTurn(c, u)) {
      NotTakenIn(c, u);
    }
  }

  lemma NotTakenIn(c: State, u: EngineUpdate)
    requires BarrierHolds(c)
    requires !(Relevant(c, u) && !OutOfOrder(c, u) && (c.delivery.Pull? ==> Refusal(c.buffer, u).None?))
    ensures !TakenInBy(c, u, UpdateTurn(c, u))
  {
    var t := UpdateTurn(c, u);
    ClosesExactly(c, u);
    if Ingested(c, u).1.Failed? {
      FlushesAll(c, u);
    } else {
      if Relevant(c, u) {
        RefusedFor(c, u);
      }
      AnswerTurn(c, u);
      assert |AsFrames(c.buffer.pending + [u])| == |c.buffer.pending| + 1;
    }
  }

  /** What is neither a failure, a new timeline nor relevant is ignored: no message and no change. */
  lemma IgnoredExactly(c: State, u: EngineUpdate)
    requires BarrierHolds(c) && u.failure.None? && u.generation == c.generation
    ensures UpdateTurn(c, u) == Turn(c, [], false) <==> !Relevant(c, u)
  {
    if Relevant(c, u) {
      ClosesExactly(c, u);
      TakesInExactly(c, u);
      if !OutOfOrder(c, u) && Refusal(c.buffer, u).Some? {
        RefusedFor(c, u);
        OverflowRecovers(c, u);
      } else if !OutOfOrder(c, u) {
        assert UpdateTurn(c, u) == Turn(c, [], false) ==> c.buffer.pending != c.buffer.pending + [u];
      }
    } else {
      AnswerTurn(c, u);
      assert AsFrames([]) == [];
    }
  }

  // ---------------------------------------------------------------- handing the backlog over

  /** One tick of the push clock for a push client, one pulled frame for a pull client. */
  function HandOver(c: State): Turn
    requires Consistent(c.buffer)
  {
    if c.delivery.Push? then PushClockTurn(c) else GetFrameTurn(c)
  }

  lemma HandsOverOldest(c: State)
    requires Consistent(c.buffer) && !c.awaitingResync && c.buffer.pending != []
    ensures HandOver(c) == Turn(c.(buffer := Taken(c.buffer)), [FrameMessage(c.buffer.pending[0])], false)
    ensures Consistent(Taken(c.buffer)) && Taken(c.buffer).pending == c.buffer.pending[1..]
  {
    TakeKeepsConsistent(c.buffer);
  }

  /** The connection after n such turns, and all they sent. */
  function Handed(c: State, n: nat): (r: (State, seq<Wire>))
    requires Consistent(c.buffer)
    ensures Consistent(r.0.buffer)
  {
    if n == 0 then (c, [])
    else
      var (before, wire) := Handed(c, n - 1);
      TakeKeepsConsistent(before.buffer);
      (HandOver(before).next, wire + HandOver(before).wire)
  }

  /** The n oldest updates have been sent in order, and nothing else has changed. */
  predicate SentOldest(c: State, n: nat, now: State, wire: seq<Wire>)
    requires n <= |c.buffer.pending|
  {
    && wire == AsFrames(c.buffer.pending[..n]) && now.buffer.pending == c.buffer.pending[n..]
    && now.(buffer := c.buffer) == c
  }

  lemma NextInOrder(all: seq<EngineUpdate>, n: nat)
    requires 0 < n <= |all|
    ensures all[n - 1..] != [] && all[n - 1..][0] == all[n - 1] && all[n - 1..][1..] == all[n..]
    ensures AsFrames(all[..n]) == AsFrames(all[..n - 1]) + [FrameMessage(all[n - 1])]
  {
  }

  lemma OneMoreSent(c: State, n: nat, before: State, wire: seq<Wire>)
    requires 0 < n <= |c.buffer.pending| && SentOldest(c, n - 1, before, wire)
    requires Consistent(before.buffer) && !c.awaitingResync
    ensures SentOldest(c, n, HandOver(before).next, wire + HandOver(before).wire)
  {
    NextInOrder(c.buffer.pending, n);
    HandsOverOldest(before);
  }

  /** With the barrier down, n ticks or pulls hand over the n oldest updates in order, and nothing else
      changes: every pending update is on its way with the next, at the latest with the last of them. */
  lemma {:induction false} HandsOverInOrder(c: State, n: nat)
    requires Consistent(c.buffer) && !c.awaitingResync && n <= |c.buffer.pending|
    ensures SentOldest(c, n, Handed(c, n).0, Handed(c, n).1)
  {
    if n > 0 {
      HandsOverInOrder(c, n - 1);
      OneMoreSent(c, n, Handed(c, n - 1).0, Handed(c, n - 1).1);
    }
  }

  /** A push client hears nothing more between its updates; a pull client is told that none is left. */
  lemma NothingLeft(c: State)
    requires Consistent(c.buffer) && !c.awaitingResync && c.buffer.pending == []
    ensures c.delivery.Push? ==> TurnOf(c, PushClock) == Turn(c, [], false)
    ensures c.delivery.Pull? ==> TurnOf(c, GetFrame) == Turn(c, [FrameEmpty], false)
  {
  }

  /** The wrong question is answered too: a frame request behind the barrier or from a push client. */
  lemma WrongRequests(c: State)
    requires Consistent(c.buffer)
    ensures c.awaitingResync ==> TurnOf(c, GetFrame) == Turn(c, [GatewayError(ResyncRequiredFirst)], false)
    ensures !c.awaitingResync && c.delivery.Push? ==> TurnOf(c, GetFrame) == Turn(c, [GatewayError(WrongMode)], false)
    ensures c.awaitingResync || c.delivery.Pull? ==> TurnOf(c, PushClock) == Turn(c, [], false)
  {
  }

  /** A resync is answered by the baseline itself: a healthy one brings the barrier down over an empty
      backlog at the baseline's position; one with a failure notes it and leaves the barrier up. */
  lemma BaselineIsAnswered(c: State, cursor: Cursor, failure: Option<HostFailure>)
    requires Consistent(c.buffer)
    ensures var t := TurnOf(c, ResyncAnswered(cursor, failure));
            && t.wire == [BaselineMessage(cursor, failure)] && !t.close && t.next.buffer == EmptyBuffer
            && (t.next.awaitingResync <==> failure.Some?) && t.next.deliveredFailure == failure
            && (failure.None? ==>
                  Cursor(t.next.baselineTick, t.next.baselineSeq, t.next.generation) == cursor)
            && (failure.Some? ==>
                  && t.next.baselineTick == c.baselineTick && t.next.baselineSeq == c.baselineSeq
                  && t.next.generation == c.generation)
  {
  }
}
