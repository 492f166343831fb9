/** Gap-freedom of update delivery, over every interleaving of actor, channel and connection. */
module GapFreedom {
  import opened Protocol
  import opened Publisher
  import opened PublishedLog
  import opened Connection
  import opened Delivery

  // ---------------------------------------------------------------- one received update

  /** Whether the receiver's next entry is a frame the current baseline owes the client. */
  predicate Owed(s: System)
    requires s.next < |s.log|
  {
    s.base <= s.next && IsFrame(s.log[s.next], s.conn.generation)
  }

  function Owe(s: System): seq<EngineUpdate>
    requires s.next < |s.log|
  {
    if Owed(s) then [s.log[s.next].message] else []
  }

  /** A frame the connection takes in is one it owes: anything older is covered by the baseline. */
  lemma TakenInIsOwed(s: System)
    requires Grounded(s) && Connected(s) && s.next < |s.log|
    requires var a := Ingested(s.conn, s.log[s.next].message).1;
             a.Buffered? || a.Flush? || (a.ResyncRequired? && a.reason.PublisherBufferCapacity?)
    ensures Owed(s)
  {
    assert StepAt(s.origin, s.log, s.next);
    CoveredIffPublishedBefore(s.origin, s.log, s.base, s.next);
  }

  /** With the barrier down, no owed frame is ignored. */
  lemma OwedIsNotIgnored(s: System)
    requires Grounded(s) && Connected(s) && s.next < |s.log|
    requires Owed(s) && !s.conn.awaitingResync
    ensures !Ingested(s.conn, s.log[s.next].message).1.Ignored?
    ensures s.log[s.next].message.failure.None?
  {
    assert StepAt(s.origin, s.log, s.next);
    CoveredIffPublishedBefore(s.origin, s.log, s.base, s.next);
  }

  /** The backlog after a turn, by what the connection decided. */
  lemma BacklogAfter(c: State, u: EngineUpdate)
    requires BarrierHolds(c) && !UpdateTurn(c, u).close
    ensures UpdateTurn(c, u).next.buffer.pending
            == match Ingested(c, u).1
               case Buffered => c.buffer.pending + [u]
               case Flush(_, _) => [u]
               case Ignored => c.buffer.pending
               case _ => []
    ensures UpdateTurn(c, u).next.buffer.cursor
            == match Ingested(c, u).1
               case Buffered => Some(EndOf(u))
               case Flush(_, _) => Some(EndOf(u))
               case ResyncRequired(_, _) => None
               case _ => c.buffer.cursor
  {
    match Ingested(c, u).1
    case Failed(_) => BacklogAfterFailure(c, u);
    case Flush(_, _) => BacklogAfterFlush(c, u);
    case _ =>
      AnswerTurn(c, u);
      BacklogAfterAnswer(c, u);
  }

  lemma BacklogAfterAnswer(c: State, u: EngineUpdate)
    requires BarrierHolds(c)
    requires var action := Ingested(c, u).1;
             action.Buffered? || action.Ignored? || action.ResyncRequired? || action.Rejected?
    ensures var (next, action) := Ingested(c, u);
            && (action.Buffered? ==>
                  && Deliverable(u) && next.buffer.pending == c.buffer.pending + [u]
                  && next.buffer.cursor == Some(EndOf(u)))
            && (action.Ignored? ==> next.buffer == c.buffer)
            && (action.ResyncRequired? ==> next.buffer == EmptyBuffer)
            && (action.Rejected? ==> UpdateTurn(c, u).close)
  {
  }

  lemma BacklogAfterFailure(c: State, u: EngineUpdate)
    requires Ingested(c, u).1.Failed?
    ensures UpdateTurn(c, u).next.buffer == Flushed(c.buffer)
  {
    FlushesAll(c, u);
    assert FailureNoted(c.(buffer := Flushed(c.buffer)), Ingested(c, u).1.failure).buffer.pending == [];
  }

  lemma BacklogAfterFlush(c: State, u: EngineUpdate)
    requires BarrierHolds(c) && Ingested(c, u).1.Flush? && !UpdateTurn(c, u).close
    ensures Deliverable(u) && UpdateTurn(c, u).next.buffer.pending == [u]
    ensures UpdateTurn(c, u).next.buffer.cursor == Some(EndOf(u))
  {
    FlushesAll(c, u);
    CapacityRefusalClearsByDraining(c.buffer, u);
  }

  /** One received update moves frames between the log, the backlog and the wire without losing count. */
  lemma ReceivedAccounts(s: System)
    requires Grounded(s) && s.phase.Live? && s.Oldest() <= s.next < |s.log|
    requires !UpdateTurn(s.conn, s.log[s.next].message).close
    ensures var t := UpdateTurn(s.conn, s.log[s.next].message);
            && |FramesIn(t.wire)| + |t.next.buffer.pending| + DroppedByReceive(s) == |s.conn.buffer.pending| + |Owe(s)|
            && (DroppedByReceive(s) == 0 ==> FramesIn(t.wire) + t.next.buffer.pending == s.conn.buffer.pending + Owe(s))
  {
    var u := s.log[s.next].message;
    UpdateTurnFrames(s.conn, u);
    BacklogAfter(s.conn, u);
    OwedByAction(s);
  }

  /** Taking an update in means owing it; a failure or a foreign generation owes nothing. */
  lemma OwedByAction(s: System)
    requires Grounded(s) && Connected(s) && s.next < |s.log|
    ensures match Ingested(s.conn, s.log[s.next].message).1
            case Buffered => Owed(s)
            case Flush(_, _) => Owed(s)
            case ResyncRequired(PublisherBufferCapacity, _) => Owed(s)
            case ResyncRequired(_, _) => !Owed(s)
            case Failed(_) => !Owed(s)
            case _ => true
    ensures s.log[s.next].message.failure.Some? ==> !Owed(s)
  {
    var a := Ingested(s.conn, s.log[s.next].message).1;
    assert StepAt(s.origin, s.log, s.next);
    if a.Buffered? || a.Flush? || (a.ResyncRequired? && a.reason.PublisherBufferCapacity?) {
      TakenInIsOwed(s);
    }
  }

  lemma SegmentGrows(s: System)
    requires s.base <= |s.log| && s.next < |s.log|
    ensures s.(next := s.next + 1).Segment() == s.Segment() + Owe(s)
  {
  }

  // ---------------------------------------------------------------- what every run keeps

  lemma PublishKeepsGrounded(s: System, e: Entry)
    requires Grounded(s) && Enabled(s, Publish(e))
    ensures Grounded(Apply(s, Publish(e)))
  {
    AppendKeepsWellFormed(s.origin, s.log, e);
    assert HeadAt(s.origin, s.log + [e], s.base) == HeadAt(s.origin, s.log, s.base);
  }

  lemma StepKeepsGrounded(s: System, step: Step)
    requires Grounded(s) && Enabled(s, step)
    ensures Grounded(Apply(s, step))
  {
    match step
    case Publish(e) => PublishKeepsGrounded(s, e);
    case InstallBaseline(cut) => InstallingKeepsGrounded(s, s.phase.at, cut);
    case Receive(cut) => ReceiveKeepsGrounded(s, cut);
    case PushTick(cut) =>
      TurnKeepsBarrier(s.conn, PushClock);
      TurnKeepsGrounded(s, PushClockTurn(s.conn), s.next, 0, cut);
    case PullFrame(cut) =>
      TurnKeepsBarrier(s.conn, GetFrame);
      TurnKeepsGrounded(s, GetFrameTurn(s.conn), s.next, 0, cut);
    case _ => OtherStepKeepsGrounded(s, step);
  }

  lemma OtherStepKeepsGrounded(s: System, step: Step)
    requires Grounded(s) && Enabled(s, step)
    requires step.CloseCommands? || step.AnswerBaseline? || step.BaselineLost? || step.RequestResync? || step.HangUp?
    ensures Grounded(Apply(s, step))
  {
  }

  lemma InstallingKeepsGrounded(s: System, at: nat, cut: Option<nat>)
    requires Grounded(s) && (s.phase == FirstAnswer(at) || s.phase == Reanswered(at))
    ensures Grounded(Installed(s, at, cut))
  {
  }

  /** A turn that keeps the barrier and the baseline keeps the system grounded. */
  lemma TurnKeepsGrounded(s: System, t: Turn, next: nat, dropped: nat, cut: Option<nat>)
    requires Grounded(s) && s.phase.Live? && next <= |s.log| && (!t.close ==> BarrierHolds(t.next))
    requires t.next.baselineTick == s.conn.baselineTick && t.next.baselineSeq == s.conn.baselineSeq
    requires t.next.generation == s.conn.generation
    ensures Grounded(AfterTurn(s, t, next, dropped, cut))
  {
  }

  lemma ReceiveKeepsGrounded(s: System, cut: Option<nat>)
    requires Grounded(s) && s.phase.Live? && s.next < |s.log|
    ensures Grounded(AfterReceive(s, cut))
  {
    if s.next < s.Oldest() {
      TurnKeepsBarrier(s.conn, Input.Lagged(s.Oldest() - s.next));
      TurnKeepsGrounded(s, LaggedTurn(s.conn, s.Oldest() - s.next), s.Oldest(), DroppedByReceive(s), cut);
    } else {
      var u := s.log[s.next].message;
      TurnKeepsBarrier(s.conn, Input.Received(u));
      BaselineSurvives(s.conn, u);
      TurnKeepsGrounded(s, UpdateTurn(s.conn, u), s.next + 1, DroppedByReceive(s), cut);
    }
  }

  /** Receiving an update never touches the installed baseline. */
  lemma BaselineSurvives(c: State, u: EngineUpdate)
    ensures var n := UpdateTurn(c, u).next;
            n.baselineTick == c.baselineTick && n.baselineSeq == c.baselineSeq && n.generation == c.generation
                && n.delivery == c.delivery
  {
    var a := Ingested(c, u).1;
    if a.Failed? || a.Flush? {
      FlushesAll(c, u);
    }
  }

  lemma StepKeepsAccounted(s: System, step: Step)
    requires Accounted(s) && Enabled(s, step)
    ensures Accounted(Apply(s, step))
  {
    StepKeepsGrounded(s, step);
    match step
    case Publish(e) => FramesStable(s.log, s.log + [e], s.conn.generation, s.base, s.Ahead());
    case Receive(cut) => ReceiveKeepsBalanced(s, cut);
    case PushTick(cut) => HandOverKeepsBalanced(s, PushClockTurn(s.conn), cut);
    case PullFrame(cut) => HandOverKeepsBalanced(s, GetFrameTurn(s.conn), cut);
    case RequestResync => ResubscribingKeepsBalanced(s);
    case _ => PhaseStepKeepsBalanced(s, step);
  }

  lemma ResubscribingKeepsBalanced(s: System)
    requires Placed(s) && Balanced(s) && s.phase.Live?
    ensures Balanced(Resubscribed(s))
  {
    FramesSplit(s.log, s.conn.generation, s.base, s.Ahead(), |s.log|);
  }

  lemma InstallingKeepsBalanced(s: System, at: nat, cut: Option<nat>)
    requires Accounted(s) && (s.phase == FirstAnswer(at) || s.phase == Reanswered(at))
    ensures Placed(Installed(s, at, cut)) && Balanced(Installed(s, at, cut))
  {
  }

  lemma PhaseStepKeepsBalanced(s: System, step: Step)
    requires Accounted(s) && Enabled(s, step)
    requires step.CloseCommands? || step.AnswerBaseline? || step.InstallBaseline? || step.BaselineLost? || step.HangUp?
    ensures Placed(Apply(s, step)) && Balanced(Apply(s, step))
  {
    match step
    case InstallBaseline(cut) => InstallingKeepsBalanced(s, s.phase.at, cut);
    case _ =>
  }

  lemma HandOverKeepsBalanced(s: System, t: Turn, cut: Option<nat>)
    requires Accounted(s) && s.phase.Live? && (t == PushClockTurn(s.conn) || t == GetFrameTurn(s.conn))
    ensures Balanced(AfterTurn(s, t, s.next, 0, cut))
  {
    HandOverAccounts(s, t);
  }

  /** Handing the oldest pending frame to the wire keeps the frames in hand. */
  lemma HandOverAccounts(s: System, t: Turn)
    requires BarrierHolds(s.conn) && (t == PushClockTurn(s.conn) || t == GetFrameTurn(s.conn))
    ensures s.delivered + FramesIn(t.wire) + t.next.buffer.pending == s.InHand()
    ensures t.next == s.conn.(buffer := t.next.buffer) && t.next.buffer.cursor == s.conn.buffer.cursor
  {
    if t == PushClockTurn(s.conn) {
      PushClockFrames(s.conn);
    } else {
      GetFrameFrames(s.conn);
    }
    FromTheFront(s.delivered, s.conn.buffer.pending);
  }

  lemma FromTheFront<T>(delivered: seq<T>, pending: seq<T>)
    ensures delivered + [] + pending == delivered + pending
    ensures pending != [] ==> delivered + [pending[0]] + pending[1..] == delivered + pending
  {
  }

  /** A lagged receive drops the backlog and every owed frame it jumps over. */
  lemma LaggedAccounts(s: System)
    requires Accounted(s) && s.phase.Live? && s.next < s.Oldest()
    ensures var t := LaggedTurn(s.conn, s.Oldest() - s.next);
            && FramesIn(t.wire) == []
            && s.(next := s.Oldest()).Segment() == s.Segment() + Frames(s.log, s.conn.generation, s.Ahead(), s.Oldest())
  {
    FramesInSingle(LaggedTurn(s.conn, s.Oldest() - s.next).wire[0]);
    if s.base <= s.Oldest() {
      FramesSplit(s.log, s.conn.generation, s.base, s.Ahead(), s.Oldest());
    }
  }

  lemma ReceiveKeepsBalanced(s: System, cut: Option<nat>)
    requires Accounted(s) && s.phase.Live? && s.next < |s.log|
    ensures Placed(AfterReceive(s, cut)) && Balanced(AfterReceive(s, cut))
  {
    if s.next < s.Oldest() {
      if cut.None? {
        LaggedKeepsBalanced(s);
      } else {
        ClosedIsBalanced(s, LaggedTurn(s.conn, s.Oldest() - s.next), s.Oldest(), DroppedByReceive(s), cut);
      }
    } else {
      UpdateKeepsBalanced(s, UpdateTurn(s.conn, s.log[s.next].message), cut);
    }
  }

  lemma ClosedIsBalanced(s: System, t: Turn, next: nat, dropped: nat, cut: Option<nat>)
    requires Placed(s) && next <= |s.log| && (cut.Some? || t.close)
    ensures Balanced(AfterTurn(s, t, next, dropped, cut))
  {
  }

  lemma UpdateKeepsBalanced(s: System, t: Turn, cut: Option<nat>)
    requires Accounted(s) && s.phase.Live? && s.Oldest() <= s.next < |s.log|
    requires t == UpdateTurn(s.conn, s.log[s.next].message)
    ensures Balanced(AfterTurn(s, t, s.next + 1, DroppedByReceive(s), cut))
  {
    if cut.None? && !t.close {
      UpdateKeepsAccounted(s);
      HandIsBalanced(s, t, DroppedByReceive(s));
    } else {
      ClosedIsBalanced(s, t, s.next + 1, DroppedByReceive(s), cut);
    }
  }

  lemma HandIsBalanced(s: System, t: Turn, dropped: nat)
    requires Placed(s) && s.next < |s.log| && !t.close
    requires var hand := s.delivered + FramesIn(t.wire) + t.next.buffer.pending;
             var segment := Frames(s.log, t.next.generation, s.base, s.(next := s.next + 1).Ahead());
             |hand| + (s.missed + dropped) == |segment| && (s.missed + dropped == 0 ==> hand == segment)
    requires s.next + 1 < s.base ==> t.next.buffer.cursor.None?
    ensures Balanced(AfterTurn(s, t, s.next + 1, dropped, None))
  {
  }

  lemma LaggedKeepsBalanced(s: System)
    requires Accounted(s) && s.phase.Live? && s.next < s.Oldest()
    ensures Balanced(AfterReceive(s, None))
  {
    LaggedAccounts(s);
    assert s.delivered + [] + [] == s.delivered;
  }

  /** The bookkeeping of one turn, on plain sequences. */
  lemma Ledger<T>(delivered: seq<T>, pending: seq<T>, segment: seq<T>, missed: nat,
                  sent: seq<T>, left: seq<T>, owed: seq<T>, dropped: nat)
    requires |delivered + pending| + missed == |segment| && (missed == 0 ==> delivered + pending == segment)
    requires |sent| + |left| + dropped == |pending| + |owed| && (dropped == 0 ==> sent + left == pending + owed)
    ensures |delivered + sent + left| + (missed + dropped) == |segment + owed|
    ensures missed + dropped == 0 ==> delivered + sent + left == segment + owed
  {
    if missed + dropped == 0 {
      assert delivered + sent + left == delivered + (sent + left);
      assert segment + owed == delivered + (pending + owed);
    }
  }

  lemma UpdateKeepsAccounted(s: System)
    requires Accounted(s) && s.phase.Live? && s.Oldest() <= s.next < |s.log|
    requires !UpdateTurn(s.conn, s.log[s.next].message).close
    ensures var t := UpdateTurn(s.conn, s.log[s.next].message);
            var hand := s.delivered + FramesIn(t.wire) + t.next.buffer.pending;
            var segment := Frames(s.log, t.next.generation, s.base, s.(next := s.next + 1).Ahead());
            && |hand| + (s.missed + DroppedByReceive(s)) == |segment|
            && (s.missed + DroppedByReceive(s) == 0 ==> hand == segment)
            && (s.next + 1 < s.base ==> t.next.buffer.cursor.None?)
  {
    var u := s.log[s.next].message;
    var t := UpdateTurn(s.conn, u);
    ReceivedAccounts(s);
    Ledger(s.delivered, s.conn.buffer.pending, s.Segment(), s.missed,
           FramesIn(t.wire), t.next.buffer.pending, Owe(s), DroppedByReceive(s));
    SegmentGrows(s);
    BaselineSurvives(s.conn, u);
    if s.next < s.base {
      CursorAfterOldUpdate(s);
    }
  }

  /** While the receiver is still behind the baseline nothing enters the buffer. */
  lemma CursorAfterOldUpdate(s: System)
    requires Accounted(s) && s.phase.Live? && s.Oldest() <= s.next < |s.log|
    requires !UpdateTurn(s.conn, s.log[s.next].message).close && s.next < s.base
    ensures UpdateTurn(s.conn, s.log[s.next].message).next.buffer.cursor.None?
  {
    BacklogAfter(s.conn, s.log[s.next].message);
    OwedByAction(s);
  }

  // ---------------------------------------------------------------- exact gap-freedom

  /** In the loop with the barrier down, the frames in hand are exactly the owed segment of the log. */
  ghost predicate GapFree(s: System) {
    Grounded(s) && (s.phase.Live? && !s.conn.awaitingResync ==> s.InHand() == s.Segment())
  }

  /** The two ways the code opens the loop's barrier, or leaves it open, over dropped frames: a strict
      correction rejection arriving behind a raised barrier, and a resync nobody answered. */
  ghost predicate Losing(s: System, step: Step)
    requires Grounded(s) && Enabled(s, step)
  {
    && s.missed > 0
    && match step
       case Receive(None) =>
         && s.conn.awaitingResync
         && s.Oldest() <= s.next
         && LowersBarrier(s.conn, s.log[s.next].message)
       case BaselineLost(None) => s.phase.Resyncing? && !s.conn.awaitingResync
       case _ => false
  }

  /** One step out of a gap-free state ends in a gap-free state exactly when it is not a losing one. */
  lemma StepGapFree(s: System, step: Step)
    requires Accounted(s) && GapFree(s) && Enabled(s, step)
    ensures GapFree(Apply(s, step)) <==> !Losing(s, step)
  {
    StepKeepsAccounted(s, step);
    GapFreeIsUnmissed(Apply(s, step));
    match step
    case Receive(cut) =>
      GapFreeIsUnmissed(s);
      if s.Oldest() <= s.next {
        ReceivedHonestly(s);
      }
      ReceiveGapFree(s, cut);
    case _ =>
  }

  lemma GapFreeIsUnmissed(s: System)
    requires Accounted(s)
    ensures GapFree(s) <==> (s.phase.Live? && !s.conn.awaitingResync ==> s.missed == 0)
  {
  }

  /** A turn that leaves the barrier down drops nothing, and a raised barrier falls only where it may. */
  predicate Honest(s: System, t: Turn, dropped: nat, lowers: bool) {
    && (!t.close && !t.next.awaitingResync ==> dropped == 0)
    && (s.conn.awaitingResync ==> !t.close && (!t.next.awaitingResync <==> lowers))
  }

  lemma ReceivedHonestly(s: System)
    requires Grounded(s) && s.phase.Live? && s.Oldest() <= s.next < |s.log|
    ensures var u := s.log[s.next].message;
            Honest(s, UpdateTurn(s.conn, u), DroppedByReceive(s), LowersBarrier(s.conn, u))
  {
    var t := UpdateTurn(s.conn, s.log[s.next].message);
    if !t.close && !t.next.awaitingResync {
      ReceivedMisses(s);
    }
    if s.conn.awaitingResync {
      BarrierNeverCloses(s.conn, s.log[s.next].message);
      LowersExactly(s.conn, s.log[s.next].message);
    }
  }

  lemma TurnGapFree(s: System, t: Turn, next: nat, dropped: nat, cut: Option<nat>, lowers: bool)
    requires s.phase.Live? && (!s.conn.awaitingResync ==> s.missed == 0) && Honest(s, t, dropped, lowers)
    ensures var after := AfterTurn(s, t, next, dropped, cut);
            (after.phase.Live? && !after.conn.awaitingResync ==> after.missed == 0)
            <==> !(s.missed > 0 && cut.None? && s.conn.awaitingResync && lowers)
  {
  }

  lemma ReceiveGapFree(s: System, cut: Option<nat>)
    requires s.phase.Live? && s.next < |s.log| && (!s.conn.awaitingResync ==> s.missed == 0)
    requires s.Oldest() <= s.next ==>
               Honest(s, UpdateTurn(s.conn, s.log[s.next].message), DroppedByReceive(s),
                   LowersBarrier(s.conn, s.log[s.next].message))
    ensures var after := AfterReceive(s, cut);
            (after.phase.Live? && !after.conn.awaitingResync ==> after.missed == 0)
            <==> !(s.missed > 0 && cut.None? && s.conn.awaitingResync && s.Oldest() <= s.next
                   && LowersBarrier(s.conn, s.log[s.next].message))
  {
    var u, dropped := s.log[s.next].message, DroppedByReceive(s);
    if s.Oldest() <= s.next {
      TurnGapFree(s, UpdateTurn(s.conn, u), s.next + 1, dropped, cut, LowersBarrier(s.conn, u));
    } else {
      TurnGapFree(s, LaggedTurn(s.conn, s.Oldest() - s.next), s.Oldest(), dropped, cut, false);
    }
  }

  /** A turn that leaves the barrier down drops nothing. */
  lemma ReceivedMisses(s: System)
    requires Grounded(s) && s.phase.Live? && s.Oldest() <= s.next < |s.log|
    requires var t := UpdateTurn(s.conn, s.log[s.next].message); !t.close && !t.next.awaitingResync
    ensures DroppedByReceive(s) == 0
  {
    var u := s.log[s.next].message;
    OwedByAction(s);
    if Owed(s) && !s.conn.awaitingResync {
      OwedIsNotIgnored(s);
    }
    if s.conn.awaitingResync {
      BarrierFallsOnlyTwoWays(s.conn, Input.Received(u));
    }
  }

  /** A run: every step enabled where it is taken. */
  ghost predicate Run(s: System, steps: seq<Step>)
    decreases |steps|
  {
    Grounded(s) && (steps == [] || (Enabled(s, steps[0]) && Run(Apply(s, steps[0]), steps[1..])))
  }

  ghost function After(s: System, steps: seq<Step>): System
    requires Run(s, steps)
    decreases |steps|
  {
    if steps == [] then s else After(Apply(s, steps[0]), steps[1..])
  }

  lemma {:induction false} RunExtends(s: System, steps: seq<Step>, step: Step)
    requires Run(s, steps)
    ensures Grounded(After(s, steps))
    ensures Enabled(After(s, steps), step) ==>
              Run(s, steps + [step]) && After(s, steps + [step]) == Apply(After(s, steps), step)
    decreases |steps|
  {
    if steps == [] {
      assert steps + [step] == [step] && [step][1..] == [];
      if Enabled(s, step) {
        StepKeepsGrounded(s, step);
        assert Run(Apply(s, step), []);
      }
    } else {
      assert (steps + [step])[1..] == steps[1..] + [step];
      RunExtends(Apply(s, steps[0]), steps[1..], step);
    }
  }

  /** Whatever an actor adds to its log is a run of publishing steps, in any state of the connection. */
  lemma {:induction false} ActorRunIsPublished(s: System, more: seq<Entry>) returns (steps: seq<Step>)
    requires Grounded(s) && s.accepting && s.log <= more && WellFormedLog(s.origin, more)
    ensures Run(s, steps) && After(s, steps) == s.(log := more)
    ensures |steps| == |more| - |s.log| && forall k | 0 <= k < |steps| :: steps[k] == Publish(more[|s.log| + k])
    decreases |more|
  {
    if s.log == more {
      steps := [];
    } else {
      var front := more[..|more| - 1];
      FrontIsWellFormed(s.origin, more);
      steps := ActorRunIsPublished(s, front);
      assert StepAt(s.origin, more, |more| - 1)
          && HeadAt(s.origin, front, |front|) == HeadAt(s.origin, more, |more| - 1);
      RunExtends(s, steps, Publish(Last(more)));
      assert front + [Last(more)] == more;
      steps := steps + [Publish(Last(more))];
    }
  }

  lemma FrontIsWellFormed(origin: Head, log: seq<Entry>)
    requires WellFormedLog(origin, log) && log != []
    ensures WellFormedLog(origin, log[..|log| - 1])
  {
    var front := log[..|log| - 1];
    forall i | 0 <= i < |front| ensures StepAt(origin, front, i) {
      assert StepAt(origin, log, i);
    }
  }

  ghost predicate AlwaysGapFree(s: System, steps: seq<Step>)
    requires Run(s, steps)
    decreases |steps|
  {
    GapFree(s) && (steps == [] || AlwaysGapFree(Apply(s, steps[0]), steps[1..]))
  }

  ghost predicate NeverLosing(s: System, steps: seq<Step>)
    requires Run(s, steps)
    decreases |steps|
  {
    steps == [] || (!Losing(s, steps[0]) && NeverLosing(Apply(s, steps[0]), steps[1..]))
  }

  lemma {:induction false} RunGapFree(s: System, steps: seq<Step>)
    requires Run(s, steps) && Accounted(s) && GapFree(s)
    ensures AlwaysGapFree(s, steps) <==> NeverLosing(s, steps)
    decreases |steps|
  {
    if steps != [] {
      StepGapFree(s, steps[0]);
      StepKeepsAccounted(s, steps[0]);
      if GapFree(Apply(s, steps[0])) {
        RunGapFree(Apply(s, steps[0]), steps[1..]);
      }
    }
  }

  /** Gap-freedom, exactly: over every run of a connection, the frames delivered since the last healthy
      baseline followed by those pending equal the owed segment of the published log in every state with
      the barrier down, if and only if no step of the run is a losing one. */
  lemma GapFreeExactly(origin: Head, log: seq<Entry>, delivery: DeliveryMode, steps: seq<Step>)
    requires WellFormedLog(origin, log) && Run(Start(origin, log, delivery), steps)
    ensures AlwaysGapFree(Start(origin, log, delivery), steps) <==> NeverLosing(Start(origin, log, delivery), steps)
  {
    RunGapFree(Start(origin, log, delivery), steps);
  }
}
