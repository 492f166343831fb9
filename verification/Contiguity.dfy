/** What the client has been sent is a contiguous prefix of the published log, even behind a barrier,
    inside a failing turn, or after the connection closed; and exactly what it takes to break that. */
module Contiguity {
  import opened Protocol
  import opened SequenceNumbers
  import opened Publisher
  import opened PublishedLog
  import opened Connection
  import opened Delivery
  import opened GapFreedom

  /** The buffer's cursor stands at log position p, and the frames in hand are those owed up to there. */
  predicate CursorAt(s: System, p: nat)
    requires Placed(s)
  {
    && s.base <= p <= s.next
    && s.conn.buffer.cursor == Some(HeadAt(s.origin, s.log, p).At())
    && s.InHand() == Frames(s.log, s.conn.generation, s.base, p)
  }

  /** What the client has been sent, and the backlog behind it, are a prefix of the owed log. */
  predicate PrefixOfLog(s: System)
    requires Placed(s)
  {
    && (s.phase.Closed? ==> s.delivered <= Frames(s.log, s.conn.generation, s.base, |s.log|))
    && (Connected(s) ==> s.InHand() <= s.Segment())
  }

  /** A prefix, and the cursor, where there is one, marks its end. */
  ghost predicate InLine(s: System)
    requires Placed(s)
  {
    && PrefixOfLog(s)
    && (!Connected(s) && !s.phase.Closed? ==> s.delivered == [])
    && (Connected(s) && s.conn.buffer.cursor.Some? ==> exists p :: CursorAt(s, p))
  }

  /** In its loop with the barrier down over dropped frames, and no cursor to notice them by. */
  predicate Blind(s: System) {
    s.phase.Live? && !s.conn.awaitingResync && s.missed > 0 && s.conn.buffer.cursor.None?
  }

  ghost predicate Contiguous(s: System) { Accounted(s) && InLine(s) && !Blind(s) }

  /** A losing step after which not even a stale cursor is left to notice the loss. */
  ghost predicate LosesBlindly(s: System, step: Step)
    requires Grounded(s) && Enabled(s, step)
  {
    Losing(s, step) && s.conn.buffer.cursor.None?
  }

  /** A blind connection receives an update it owes the client. */
  ghost predicate TakesBlindly(s: System, step: Step)
    requires Enabled(s, step)
  {
    step == Receive(None) && Blind(s) && s.Oldest() <= s.next && Owed(s)
  }

  // ---------------------------------------------------------------- turns, seen from their results

  /** What a connection in its loop has sent, and could still send from its backlog, lies in the log. */
  lemma SentWithinLog(s: System, sent: seq<EngineUpdate>)
    requires Placed(s) && InLine(s) && Connected(s) && sent <= s.conn.buffer.pending
    ensures s.delivered + sent <= Frames(s.log, s.conn.generation, s.base, |s.log|)
  {
    var g := s.conn.generation;
    FramesSplit(s.log, g, s.base, s.Ahead(), |s.log|);
    assert s.delivered + sent <= s.InHand() <= s.Segment() <= Frames(s.log, g, s.base, |s.log|);
  }

  predicate SameLog(s: System, after: System) {
    && after.log == s.log && after.base == s.base && after.origin == s.origin
    && after.conn.generation == s.conn.generation && s.next <= after.next
  }

  /** A turn inside which the connection closes has still sent a prefix. */
  lemma ClosingStays(s: System, after: System, sent: seq<EngineUpdate>)
    requires Placed(s) && InLine(s) && Connected(s) && sent <= s.conn.buffer.pending
    requires Placed(after) && SameLog(s, after) && after.phase.Closed? && after.delivered == s.delivered + sent
    ensures InLine(after)
  {
    SentWithinLog(s, sent);
  }

  /** A turn that takes nothing in, and either keeps the backlog or drops it together with the cursor. */
  lemma QuietTurn(s: System, after: System)
    requires Placed(s) && InLine(s) && s.phase.Live?
    requires Placed(after) && SameLog(s, after) && after.phase.Live? && s.Segment() <= after.Segment()
    requires || (after.InHand() == s.InHand() && after.conn.buffer.cursor == s.conn.buffer.cursor)
             || (after.InHand() == s.delivered && after.conn.buffer.cursor.None?)
    ensures InLine(after)
  {
    assert after.InHand() <= s.InHand() <= s.Segment() <= after.Segment();
    if after.conn.buffer.cursor.Some? {
      CursorStays(s, after);
    }
  }

  /** The cursor's position survives a turn that leaves cursor and frames in hand alone. */
  lemma CursorStays(s: System, after: System)
    requires Placed(s) && exists p :: CursorAt(s, p)
    requires Placed(after) && SameLog(s, after)
    requires after.conn.buffer.cursor == s.conn.buffer.cursor && after.InHand() == s.InHand()
    ensures exists p :: CursorAt(after, p)
  {
    var p :| CursorAt(s, p);
    assert CursorAt(after, p);
  }

  // ---------------------------------------------------------------- handing a pending frame over

  lemma HandOverInLine(s: System, t: Turn, cut: Option<nat>)
    requires Placed(s) && InLine(s) && s.phase.Live? && !t.close
    requires t.next == s.conn.(buffer := t.next.buffer) && t.next.buffer.cursor == s.conn.buffer.cursor
    requires s.delivered + FramesIn(t.wire) + t.next.buffer.pending == s.InHand()
    requires FramesIn(Sent(t.wire, cut)) <= s.conn.buffer.pending
    ensures InLine(AfterTurn(s, t, s.next, 0, cut))
  {
    var after := AfterTurn(s, t, s.next, 0, cut);
    if cut.Some? {
      ClosingStays(s, after, FramesIn(Sent(t.wire, cut)));
    } else {
      QuietTurn(s, after);
    }
  }

  lemma HandOverKeepsInLine(s: System, i: Input, cut: Option<nat>)
    requires Grounded(s) && InLine(s) && s.phase.Live? && (i.PushClock? || i.GetFrame?)
    ensures InLine(AfterTurn(s, TurnOf(s.conn, i), s.next, 0, cut))
  {
    HandOverAccounts(s, TurnOf(s.conn, i));
    CutTurnFrames(s.conn, i, cut);
    HandOverInLine(s, TurnOf(s.conn, i), cut);
  }

  // ---------------------------------------------------------------- receiving

  /** A backlog whose cursor is stale refuses the next update; so an update taken in with open eyes leaves no gap. */
  lemma TakenInContinues(s: System)
    requires Accounted(s) && InLine(s) && s.phase.Live? && s.Oldest() <= s.next < |s.log|
    requires var a := Ingested(s.conn, s.log[s.next].message).1; a.Buffered? || a.Flush?
    requires !TakesBlindly(s, Receive(None))
    ensures s.missed == 0 && Owed(s)
  {
    OwedByAction(s);
    if s.conn.buffer.cursor.Some? {
      var p :| CursorAt(s, p);
      HeadsAdvance(s.origin, s.log, s.base, p);
      StaleCursorFitsNothing(s.origin, s.log, p, s.next);
      assert Follows(s.conn.buffer.cursor.value, s.log[s.next].message);
      FramesSplit(s.log, s.conn.generation, s.base, p, s.next);
    }
  }

  lemma OwedEndsAtHead(s: System)
    requires Grounded(s) && s.next < |s.log| && Owed(s)
    ensures Deliverable(s.log[s.next].message)
    ensures EndOf(s.log[s.next].message) == HeadAt(s.origin, s.log, s.next + 1).At()
  {
    assert StepAt(s.origin, s.log, s.next);
  }

  lemma CursorAtEnd(after: System)
    requires Placed(after) && after.phase.Live? && after.base <= after.next && after.missed == 0
    requires after.InHand() == after.Segment()
    requires after.conn.buffer.cursor == Some(HeadAt(after.origin, after.log, after.next).At())
    ensures InLine(after)
  {
    assert CursorAt(after, after.next);
  }

  lemma TakingInKeepsInLine(s: System)
    requires Accounted(s) && InLine(s) && s.phase.Live? && s.Oldest() <= s.next < |s.log|
             && !TakesBlindly(s, Receive(None))
    requires !UpdateTurn(s.conn, s.log[s.next].message).close
    requires var a := Ingested(s.conn, s.log[s.next].message).1; a.Buffered? || a.Flush?
    requires Placed(AfterReceive(s, None)) && Balanced(AfterReceive(s, None))
    ensures InLine(AfterReceive(s, None))
  {
    TakenInContinues(s);
    TakenInCursor(s);
    TakingTurn(s, UpdateTurn(s.conn, s.log[s.next].message));
    assert AfterReceive(s, None) == AfterTurn(s, UpdateTurn(s.conn, s.log[s.next].message), s.next + 1, 0, None);
  }

  lemma TakenInCursor(s: System)
    requires Grounded(s) && s.phase.Live? && s.Oldest() <= s.next < |s.log| && Owed(s)
    requires !UpdateTurn(s.conn, s.log[s.next].message).close
    requires var a := Ingested(s.conn, s.log[s.next].message).1; a.Buffered? || a.Flush?
    ensures UpdateTurn(s.conn, s.log[s.next].message).next.buffer.cursor
            == Some(HeadAt(s.origin, s.log, s.next + 1).At())
    ensures DroppedByReceive(s) == 0
  {
    BacklogAfter(s.conn, s.log[s.next].message);
    OwedEndsAtHead(s);
  }

  lemma TakingTurn(s: System, t: Turn)
    requires Placed(s) && s.phase.Live? && s.base <= s.next < |s.log| && s.missed == 0
    requires !t.close && t.next.buffer.cursor == Some(HeadAt(s.origin, s.log, s.next + 1).At())
    requires Balanced(AfterTurn(s, t, s.next + 1, 0, None))
    ensures InLine(AfterTurn(s, t, s.next + 1, 0, None))
  {
    CursorAtEnd(AfterTurn(s, t, s.next + 1, 0, None));
  }

  predicate LeavesHand(s: System, t: Turn) {
    var hand := s.delivered + FramesIn(t.wire) + t.next.buffer.pending;
    || (hand == s.InHand() && t.next.buffer.cursor == s.conn.buffer.cursor)
    || (hand == s.delivered && t.next.buffer.cursor.None?)
  }

  /** A turn that takes nothing in leaves the frames in hand alone, or drops the backlog and the cursor. */
  lemma PassingByHand(s: System)
    requires BarrierHolds(s.conn) && s.next < |s.log|
    requires !UpdateTurn(s.conn, s.log[s.next].message).close
    requires var a := Ingested(s.conn, s.log[s.next].message).1; !a.Buffered? && !a.Flush?
    ensures LeavesHand(s, UpdateTurn(s.conn, s.log[s.next].message))
  {
    BacklogAfter(s.conn, s.log[s.next].message);
    UpdateTurnFrames(s.conn, s.log[s.next].message);
    Padded(s.delivered, s.conn.buffer.pending);
  }

  lemma Padded<T>(d: seq<T>, p: seq<T>)
    ensures d + [] + p == d + p && d + p + [] == d + p && d + [] + [] == d
  {
  }

  lemma PassingByKeepsInLine(s: System)
    requires Grounded(s) && InLine(s) && s.phase.Live? && s.Oldest() <= s.next < |s.log|
    requires !UpdateTurn(s.conn, s.log[s.next].message).close
    requires var a := Ingested(s.conn, s.log[s.next].message).1; !a.Buffered? && !a.Flush?
    ensures InLine(AfterReceive(s, None))
  {
    BaselineSurvives(s.conn, s.log[s.next].message);
    PassingByHand(s);
    PassingTurn(s, UpdateTurn(s.conn, s.log[s.next].message), DroppedByReceive(s));
    assert AfterReceive(s, None) == AfterTurn(s, UpdateTurn(s.conn, s.log[s.next].message), s.next + 1,
        DroppedByReceive(s), None);
  }

  lemma PassingTurn(s: System, t: Turn, dropped: nat)
    requires Placed(s) && InLine(s) && s.phase.Live? && s.next < |s.log| && !t.close
             && t.next.generation == s.conn.generation
    requires LeavesHand(s, t)
    ensures InLine(AfterTurn(s, t, s.next + 1, dropped, None))
  {
    SegmentGrows(s);
    QuietTurn(s, AfterTurn(s, t, s.next + 1, dropped, None));
  }

  lemma LaggedKeepsInLine(s: System)
    requires Accounted(s) && InLine(s) && s.phase.Live? && s.next < s.Oldest()
    ensures InLine(AfterReceive(s, None))
  {
    LaggedGrows(s);
    LaggedQuiet(s, LaggedTurn(s.conn, s.Oldest() - s.next), DroppedByReceive(s));
  }

  lemma LaggedGrows(s: System)
    requires Accounted(s) && s.phase.Live? && s.next < s.Oldest()
    ensures FramesIn(LaggedTurn(s.conn, s.Oldest() - s.next).wire) == []
    ensures s.Segment() <= s.(next := s.Oldest()).Segment()
  {
    LaggedAccounts(s);
  }

  lemma LaggedQuiet(s: System, t: Turn, dropped: nat)
    requires Placed(s) && InLine(s) && s.phase.Live? && s.next < s.Oldest()
    requires FramesIn(t.wire) == [] && !t.close && t.next == s.conn.ResyncNeeded()
    requires s.Segment() <= s.(next := s.Oldest()).Segment()
    ensures InLine(AfterTurn(s, t, s.Oldest(), dropped, None))
  {
    Padded(s.delivered, []);
    QuietTurn(s, AfterTurn(s, t, s.Oldest(), dropped, None));
  }

  lemma CutLagKeepsInLine(s: System, cut: Option<nat>)
    requires Grounded(s) && InLine(s) && s.phase.Live? && s.next < s.Oldest() && cut.Some?
    ensures InLine(AfterReceive(s, cut))
  {
    var i := Input.Lagged(s.Oldest() - s.next);
    CutTurnFrames(s.conn, i, cut);
    CutTurnStays(s, TurnOf(s.conn, i), s.Oldest(), DroppedByReceive(s), cut);
  }

  lemma CutUpdateKeepsInLine(s: System, cut: Option<nat>)
    requires Grounded(s) && InLine(s) && s.phase.Live? && s.Oldest() <= s.next < |s.log|
    requires cut.Some? || UpdateTurn(s.conn, s.log[s.next].message).close
    ensures InLine(AfterReceive(s, cut))
  {
    CutUpdateSends(s.conn, s.log[s.next].message, cut);
    CutTurnStays(s, UpdateTurn(s.conn, s.log[s.next].message), s.next + 1, DroppedByReceive(s), cut);
  }

  lemma CutUpdateSends(c: State, u: EngineUpdate, cut: Option<nat>)
    requires BarrierHolds(c)
    ensures UpdateTurn(c, u).next.generation == c.generation
    ensures FramesIn(Sent(UpdateTurn(c, u).wire, cut)) <= c.buffer.pending
  {
    BaselineSurvives(c, u);
    CutTurnFrames(c, Input.Received(u), cut);
  }

  lemma CutTurnStays(s: System, t: Turn, next: nat, dropped: nat, cut: Option<nat>)
    requires Placed(s) && InLine(s) && s.phase.Live? && s.next <= next <= |s.log|
    requires t.next.generation == s.conn.generation && FramesIn(Sent(t.wire, cut)) <= s.conn.buffer.pending
    requires cut.Some? || t.close
    ensures InLine(AfterTurn(s, t, next, dropped, cut))
  {
    ClosingStays(s, AfterTurn(s, t, next, dropped, cut), FramesIn(Sent(t.wire, cut)));
  }

  lemma ReceiveKeepsInLine(s: System, cut: Option<nat>)
    requires Accounted(s) && InLine(s) && s.phase.Live? && s.next < |s.log|
    requires Placed(AfterReceive(s, cut)) && Balanced(AfterReceive(s, cut))
    requires !TakesBlindly(s, Receive(cut))
    ensures InLine(AfterReceive(s, cut))
  {
    if s.next < s.Oldest() {
      if cut.Some? {
        CutLagKeepsInLine(s, cut);
      } else {
        LaggedKeepsInLine(s);
      }
    } else if cut.Some? || UpdateTurn(s.conn, s.log[s.next].message).close {
      CutUpdateKeepsInLine(s, cut);
    } else {
      var a := Ingested(s.conn, s.log[s.next].message).1;
      if a.Buffered? || a.Flush? {
        TakingInKeepsInLine(s);
      } else {
        PassingByKeepsInLine(s);
      }
    }
  }

  // ---------------------------------------------------------------- every other step

  lemma PublishKeepsInLine(s: System, e: Entry)
    requires Placed(s) && InLine(s)
    ensures InLine(s.(log := s.log + [e]))
  {
    var after := s.(log := s.log + [e]);
    FramesStable(s.log, after.log, s.conn.generation, s.base, s.Ahead());
    FramesStable(s.log, after.log, s.conn.generation, s.base, |s.log|);
    if Connected(s) && s.conn.buffer.cursor.Some? {
      var p :| CursorAt(s, p);
      FramesStable(s.log, after.log, s.conn.generation, s.base, p);
      assert CursorAt(after, p);
    }
  }

  lemma ClosingCommandsKeepsInLine(s: System)
    requires Placed(s) && InLine(s)
    ensures InLine(s.(accepting := false))
  {
    if Connected(s) && s.conn.buffer.cursor.Some? {
      CursorStays(s, s.(accepting := false));
    }
  }

  lemma ClosedKeepsInLine(s: System)
    requires Placed(s) && InLine(s)
    ensures InLine(s.(phase := Closed))
  {
    if Connected(s) {
      SentWithinLog(s, []);
    }
  }

  lemma InstallingKeepsInLine(s: System, at: nat, cut: Option<nat>)
    requires Placed(s) && InLine(s) && (s.phase == FirstAnswer(at) || s.phase == Reanswered(at))
             && s.next <= at <= |s.log|
    requires s.conn.buffer == EmptyBuffer
    ensures InLine(Installed(s, at, cut))
  {
    if Installed(s, at, cut).phase.Closed? {
      ClosedKeepsInLine(s);
    }
  }

  lemma ResubscribingKeepsInLine(s: System)
    requires Placed(s) && InLine(s) && s.phase.Live?
    ensures InLine(Resubscribed(s))
  {
    SentWithinLog(s, []);
    assert Resubscribed(s).InHand() == s.delivered + [];
  }

  lemma LostBaselineKeepsInLine(s: System, cut: Option<nat>)
    requires Grounded(s) && InLine(s) && (s.phase.Subscribing? || s.phase.Resyncing?)
    ensures InLine(s.(phase := if s.phase.Subscribing? || cut.Some? then Closed else Live))
  {
    if s.phase.Subscribing? || cut.Some? {
      ClosedKeepsInLine(s);
    }
  }

  lemma StepKeepsInLine(s: System, step: Step)
    requires Accounted(s) && InLine(s) && Enabled(s, step) && !TakesBlindly(s, step)
    requires Placed(Apply(s, step)) && Balanced(Apply(s, step))
    ensures InLine(Apply(s, step))
  {
    if step.Receive? {
      ReceiveStepKeepsInLine(s, step.cut);
    } else if step.PushTick? {
      PushStepKeepsInLine(s, step.cut);
    } else if step.PullFrame? {
      PullStepKeepsInLine(s, step.cut);
    } else {
      OtherStepKeepsInLine(s, step);
    }
  }

  lemma ReceiveStepKeepsInLine(s: System, cut: Option<nat>)
    requires Accounted(s) && InLine(s) && Enabled(s, Receive(cut)) && !TakesBlindly(s, Receive(cut))
    requires Placed(Apply(s, Receive(cut))) && Balanced(Apply(s, Receive(cut)))
    ensures InLine(Apply(s, Receive(cut)))
  {
    ReceiveKeepsInLine(s, cut);
  }

  lemma PushStepKeepsInLine(s: System, cut: Option<nat>)
    requires Grounded(s) && InLine(s) && Enabled(s, PushTick(cut))
    ensures Placed(Apply(s, PushTick(cut))) && InLine(Apply(s, PushTick(cut)))
  {
    HandOverKeepsInLine(s, PushClock, cut);
    assert Apply(s, PushTick(cut)) == AfterTurn(s, TurnOf(s.conn, PushClock), s.next, 0, cut);
  }

  lemma PullStepKeepsInLine(s: System, cut: Option<nat>)
    requires Grounded(s) && InLine(s) && Enabled(s, PullFrame(cut))
    ensures Placed(Apply(s, PullFrame(cut))) && InLine(Apply(s, PullFrame(cut)))
  {
    HandOverKeepsInLine(s, GetFrame, cut);
    assert Apply(s, PullFrame(cut)) == AfterTurn(s, TurnOf(s.conn, GetFrame), s.next, 0, cut);
  }

  lemma OtherStepKeepsInLine(s: System, step: Step)
    requires Grounded(s) && InLine(s) && Enabled(s, step)
    requires !step.Receive? && !step.PushTick? && !step.PullFrame?
    ensures Placed(Apply(s, step)) && InLine(Apply(s, step))
  {
    match step
    case Publish(e) => PublishKeepsInLine(s, e);
    case RequestResync => ResubscribingKeepsInLine(s);
    case CloseCommands => ClosingCommandsKeepsInLine(s);
    case _ => PhaseStepKeepsInLine(s, step);
  }

  lemma PhaseStepKeepsInLine(s: System, step: Step)
    requires Grounded(s) && InLine(s) && Enabled(s, step)
    requires step.AnswerBaseline? || step.InstallBaseline? || step.BaselineLost? || step.HangUp?
    ensures Placed(Apply(s, step)) && InLine(Apply(s, step))
  {
    match step
    case InstallBaseline(cut) => InstallingKeepsInLine(s, s.phase.at, cut);
    case BaselineLost(cut) => LostBaselineKeepsInLine(s, cut);
    case HangUp => ClosedKeepsInLine(s);
    case AnswerBaseline =>
  }

  // ---------------------------------------------------------------- taking an update in blindly

  /** Two updates of one generation at different log positions are different updates. */
  lemma FramesDiffer(origin: Head, log: seq<Entry>, i: nat, k: nat)
    requires WellFormedLog(origin, log) && i < k < |log|
    requires log[i].message.update.Some? && log[k].message.update.Some?
    requires log[i].message.generation == log[k].message.generation
    ensures log[i].message != log[k].message
  {
    assert StepAt(origin, log, i) && StepAt(origin, log, k);
    EntryAdvances(HeadAt(origin, log, i), log[i]);
    EntryAdvances(HeadAt(origin, log, k), log[k]);
    HeadsAdvance(origin, log, i + 1, k);
  }

  lemma {:induction false} LaterFrameNotAmong(origin: Head, log: seq<Entry>, g: U64, i: nat, j: nat, k: nat)
    requires WellFormedLog(origin, log) && j <= k < |log| && IsFrame(log[k], g)
    ensures log[k].message !in Frames(log, g, i, j)
  {
    if i < j {
      LaterFrameNotAmong(origin, log, g, i, j - 1, k);
      if IsFrame(log[j - 1], g) {
        FramesDiffer(origin, log, j - 1, k);
      }
    }
  }

  /** With neither barrier nor cursor, whatever owed update comes next is taken in. */
  lemma CursorlessTakesAnything(s: System)
    requires Accounted(s) && s.phase.Live? && s.Oldest() <= s.next < |s.log| && Owed(s)
    requires !s.conn.awaitingResync && s.conn.buffer.pending == [] && s.conn.buffer.cursor.None?
    ensures Ingested(s.conn, s.log[s.next].message).1.Buffered?
  {
    OwedIsNotIgnored(s);
    assert StepAt(s.origin, s.log, s.next);
  }

  /** A blind connection takes in any update it receives, and from then on the frames in hand are no
      longer a prefix of the log: the gap is silent. */
  lemma BlindReceiveIsSilent(s: System)
    requires Accounted(s) && s.phase.Live? && s.Oldest() <= s.next < |s.log| && Owed(s)
    requires !s.conn.awaitingResync && s.conn.buffer.pending == [] && s.conn.buffer.cursor.None? && s.missed > 0
    ensures var after := AfterReceive(s, None);
            && after.phase.Live? && !after.conn.awaitingResync
            && after.InHand() == s.InHand() + [s.log[s.next].message]
            && !(after.InHand() <= after.Segment())
  {
    CursorlessTakesAnything(s);
    TakenInHand(s);
    LaterFrameNotAmong(s.origin, s.log, s.conn.generation, s.base, s.next, s.next);
    NotAPrefix(s.InHand(), s.Segment(), s.log[s.next].message);
  }

  lemma TakenInHand(s: System)
    requires Grounded(s) && s.phase.Live? && s.Oldest() <= s.next < |s.log| && Owed(s)
    requires Ingested(s.conn, s.log[s.next].message).1.Buffered?
    ensures var after := AfterReceive(s, None);
            && after.phase.Live? && after.conn.awaitingResync == s.conn.awaitingResync
            && after.InHand() == s.InHand() + [s.log[s.next].message]
            && after.Segment() == s.Segment() + [s.log[s.next].message]
  {
    var u := s.log[s.next].message;
    BufferedTurn(s.conn, u);
    SegmentGrows(s);
    TakenTurn(s, UpdateTurn(s.conn, u), u);
  }

  lemma BufferedTurn(c: State, u: EngineUpdate)
    requires BarrierHolds(c) && Ingested(c, u).1.Buffered?
    ensures var t := UpdateTurn(c, u);
            && !t.close && FramesIn(t.wire) == [] && t.next.buffer.pending == c.buffer.pending + [u]
            && t.next.awaitingResync == c.awaitingResync && t.next.generation == c.generation
  {
    AnswerTurn(c, u);
    UpdateTurnFrames(c, u);
  }

  lemma TakenTurn(s: System, t: Turn, u: EngineUpdate)
    requires Placed(s) && s.next < |s.log| && !t.close && FramesIn(t.wire) == []
    requires t.next.buffer.pending == s.conn.buffer.pending + [u] && t.next.generation == s.conn.generation
    ensures var after := AfterTurn(s, t, s.next + 1, 0, None);
            && after.phase.Live? && after.conn == t.next && after.InHand() == s.InHand() + [u]
            && Placed(after) && after.Segment() == s.(next := s.next + 1).Segment()
  {
    assert s.delivered + [] + (s.conn.buffer.pending + [u]) == s.InHand() + [u];
  }

  lemma NotAPrefix<T(!new)>(hand: seq<T>, segment: seq<T>, x: T)
    requires |hand| < |segment| && x !in segment
    ensures !(hand + [x] <= segment + [x])
  {
    assert (hand + [x])[|hand|] == x && (segment + [x])[|hand|] == segment[|hand|] && segment[|hand|] in segment;
  }

  // ---------------------------------------------------------------- exact contiguity of runs

  /** One step keeps the frames in hand in line with the log exactly when it takes nothing in blindly. */
  lemma StepInLine(s: System, step: Step)
    requires Accounted(s) && InLine(s) && Enabled(s, step)
    ensures Accounted(Apply(s, step))
    ensures !TakesBlindly(s, step) ==> InLine(Apply(s, step))
    ensures TakesBlindly(s, step) ==> !PrefixOfLog(Apply(s, step))
  {
    StepKeepsAccounted(s, step);
    if TakesBlindly(s, step) {
      BlindReceiveIsSilent(s);
    } else {
      StepKeepsInLine(s, step);
    }
  }

  /** A turn that leaves the barrier down keeps a cursor; behind a raised one nothing moves the cursor. */
  predicate KeepsCursor(c: State, t: Turn) {
    !t.close && !t.next.awaitingResync ==>
      && (c.awaitingResync ==> t.next.buffer.cursor == c.buffer.cursor)
      && (c.buffer.cursor.Some? ==> t.next.buffer.cursor.Some?)
  }

  lemma CursorIsKept(c: State, u: EngineUpdate)
    requires BarrierHolds(c)
    ensures KeepsCursor(c, UpdateTurn(c, u))
  {
    if !UpdateTurn(c, u).close {
      BacklogAfter(c, u);
      if !Ingested(c, u).1.Failed? && !Ingested(c, u).1.Flush? {
        AnswerTurn(c, u);
      }
    }
  }

  /** Going blind on a received turn: only by a barrier that falls over dropped frames without a cursor. */
  lemma TurnGoesBlind(s: System, t: Turn, next: nat, dropped: nat, cut: Option<nat>, lowers: bool)
    requires s.phase.Live? && !Blind(s) && Honest(s, t, dropped, lowers) && KeepsCursor(s.conn, t)
    ensures Blind(AfterTurn(s, t, next, dropped, cut))
            <==> s.missed > 0 && cut.None? && s.conn.awaitingResync && lowers && s.conn.buffer.cursor.None?
  {
  }

  lemma ReceivedGoesBlind(s: System, t: Turn, cut: Option<nat>)
    requires Grounded(s) && s.phase.Live? && s.Oldest() <= s.next < |s.log| && !Blind(s)
    requires t == UpdateTurn(s.conn, s.log[s.next].message)
    ensures Blind(AfterTurn(s, t, s.next + 1, DroppedByReceive(s), cut)) <==> LosesBlindly(s, Receive(cut))
  {
    var u := s.log[s.next].message;
    ReceivedHonestly(s);
    CursorIsKept(s.conn, u);
    TurnGoesBlind(s, t, s.next + 1, DroppedByReceive(s), cut, LowersBarrier(s.conn, u));
  }

  lemma ReceiveGoesBlind(s: System, cut: Option<nat>)
    requires Grounded(s) && s.phase.Live? && s.next < |s.log| && !Blind(s)
    ensures Blind(AfterReceive(s, cut)) <==> LosesBlindly(s, Receive(cut))
  {
    if s.Oldest() <= s.next {
      ReceivedGoesBlind(s, UpdateTurn(s.conn, s.log[s.next].message), cut);
    } else {
      assert AfterReceive(s, cut).conn.awaitingResync;
    }
  }

  lemma HandOverStaysAware(s: System, t: Turn, cut: Option<nat>)
    requires s.phase.Live? && !Blind(s) && Consistent(s.conn.buffer) && HandsOver(s.conn, t)
    ensures !Blind(AfterTurn(s, t, s.next, 0, cut))
  {
  }

  /** One step makes a connection blind exactly when it loses blindly. */
  lemma StepGoesBlind(s: System, step: Step)
    requires Grounded(s) && !Blind(s) && Enabled(s, step)
    ensures Blind(Apply(s, step)) <==> LosesBlindly(s, step)
  {
    match step
    case Receive(cut) => ReceiveGoesBlind(s, cut);
    case PushTick(cut) =>
      PushClockFrames(s.conn);
      HandOverStaysAware(s, PushClockTurn(s.conn), cut);
    case PullFrame(cut) =>
      GetFrameFrames(s.conn);
      HandOverStaysAware(s, GetFrameTurn(s.conn), cut);
    case _ =>
  }

  /** Every step keeps the frames in hand a prefix of the owed ones with the loss, if any, noticeable,
      exactly when it does not lose blindly. */
  lemma StepKeepsContiguous(s: System, step: Step)
    requires Contiguous(s) && Enabled(s, step)
    ensures Accounted(Apply(s, step))
    ensures Contiguous(Apply(s, step)) <==> !LosesBlindly(s, step)
  {
    StepInLine(s, step);
    StepGoesBlind(s, step);
  }

  ghost predicate NeverLosesBlindly(s: System, steps: seq<Step>)
    requires Run(s, steps)
    decreases |steps|
  {
    steps == [] || (!LosesBlindly(s, steps[0]) && NeverLosesBlindly(Apply(s, steps[0]), steps[1..]))
  }

  ghost predicate AlwaysContiguous(s: System, steps: seq<Step>)
    requires Run(s, steps)
    decreases |steps|
  {
    Contiguous(s) && (steps == [] || AlwaysContiguous(Apply(s, steps[0]), steps[1..]))
  }

  ghost predicate NeverTakesBlindly(s: System, steps: seq<Step>)
    requires Run(s, steps)
    decreases |steps|
  {
    steps == [] || (!TakesBlindly(s, steps[0]) && NeverTakesBlindly(Apply(s, steps[0]), steps[1..]))
  }

  ghost predicate AlwaysPrefix(s: System, steps: seq<Step>)
    requires Run(s, steps)
    decreases |steps|
  {
    PrefixOfLog(s) && (steps == [] || AlwaysPrefix(Apply(s, steps[0]), steps[1..]))
  }

  lemma {:induction false} RunContiguous(s: System, steps: seq<Step>)
    requires Run(s, steps) && Contiguous(s)
    ensures AlwaysContiguous(s, steps) <==> NeverLosesBlindly(s, steps)
    decreases |steps|
  {
    if steps != [] {
      StepKeepsContiguous(s, steps[0]);
      if Contiguous(Apply(s, steps[0])) {
        RunContiguous(Apply(s, steps[0]), steps[1..]);
      }
    }
  }

  lemma {:induction false} RunInLine(s: System, steps: seq<Step>)
    requires Run(s, steps) && Accounted(s) && InLine(s)
    ensures AlwaysPrefix(s, steps) <==> NeverTakesBlindly(s, steps)
    ensures NeverTakesBlindly(s, steps) ==> Accounted(After(s, steps)) && InLine(After(s, steps))
    decreases |steps|
  {
    if steps != [] {
      StepInLine(s, steps[0]);
      if !TakesBlindly(s, steps[0]) {
        RunInLine(Apply(s, steps[0]), steps[1..]);
      }
    }
  }

  /** Nothing is taken in blindly before something was lost blindly. */
  lemma {:induction false} AwareTakesNothingBlindly(s: System, steps: seq<Step>)
    requires Run(s, steps) && !Blind(s) && NeverLosesBlindly(s, steps)
    ensures NeverTakesBlindly(s, steps)
    decreases |steps|
  {
    if steps != [] {
      StepGoesBlind(s, steps[0]);
      AwareTakesNothingBlindly(Apply(s, steps[0]), steps[1..]);
    }
  }

  /** Contiguity, exactly: over every run of a connection, what the client has been sent and what waits for
      it is a prefix of the owed log in every state, if and only if no update is ever taken in blindly. And
      all along nothing goes unnoticed, either, if and only if no step loses blindly. */
  lemma ContiguousExactly(origin: Head, log: seq<Entry>, delivery: DeliveryMode, steps: seq<Step>)
    requires WellFormedLog(origin, log) && Run(Start(origin, log, delivery), steps)
    ensures var s := Start(origin, log, delivery);
            && (AlwaysPrefix(s, steps) <==> NeverTakesBlindly(s, steps))
            && (AlwaysContiguous(s, steps) <==> NeverLosesBlindly(s, steps))
            && (NeverLosesBlindly(s, steps) ==> NeverTakesBlindly(s, steps))
  {
    var s := Start(origin, log, delivery);
    RunInLine(s, steps);
    RunContiguous(s, steps);
    if NeverLosesBlindly(s, steps) {
      AwareTakesNothingBlindly(s, steps);
    }
  }

  lemma {:induction false} PrefixOfChain(c: Cursor, us: seq<EngineUpdate>, front: seq<EngineUpdate>)
    requires Chain(c, us) && front <= us
    ensures Chain(c, front)
  {
    if front != [] {
      assert us[0] == front[0];
    }
    forall i | 0 < i < |front| ensures Follows(EndOf(front[i - 1]), front[i]) {
      assert us[i] == front[i] && us[i - 1] == front[i - 1];
    }
  }

  /** In every run that takes nothing in blindly, at every moment (barrier up or down, open or
      closed, mid-turn failures included) the frames delivered since the last healthy baseline are a
      prefix of what the actor published after it: no gap, no duplicate, no reordering, and each frame
      continues the tick and sequence number of the one before. */
  lemma DeliveredIsContiguous(origin: Head, log: seq<Entry>, delivery: DeliveryMode, steps: seq<Step>)
    requires WellFormedLog(origin, log) && Run(Start(origin, log, delivery), steps)
    requires NeverTakesBlindly(Start(origin, log, delivery), steps)
    ensures var s := After(Start(origin, log, delivery), steps);
            && s.base <= |s.log|
            && s.delivered <= Frames(s.log, s.conn.generation, s.base, |s.log|)
            && (Connected(s) ==> Chain(HeadAt(s.origin, s.log, s.base).At(), s.delivered))
  {
    RunInLine(Start(origin, log, delivery), steps);
    var s := After(Start(origin, log, delivery), steps);
    if Connected(s) {
      FramesSplit(s.log, s.conn.generation, s.base, s.Ahead(), |s.log|);
      FramesChain(s.origin, s.log, s.base, |s.log|);
      PrefixOfChain(HeadAt(s.origin, s.log, s.base).At(), Frames(s.log, s.conn.generation, s.base, |s.log|),
          s.delivered);
    }
  }

  /** In such a run the client is told every sequence number after its baseline, up to the last update it was
      sent, by exactly one update: no fact is missing and none comes twice. */
  lemma ClientIsToldOnce(origin: Head, log: seq<Entry>, delivery: DeliveryMode, steps: seq<Step>, n: nat)
    requires WellFormedLog(origin, log) && Run(Start(origin, log, delivery), steps)
    requires NeverTakesBlindly(Start(origin, log, delivery), steps)
    requires var s := After(Start(origin, log, delivery), steps);
             && Connected(s) && s.delivered != [] && s.base <= |s.log| && Deliverable(Last(s.delivered))
             && HeadAt(s.origin, s.log, s.base).seqNo < n <= EndOf(Last(s.delivered)).seqNo
    ensures var us := After(Start(origin, log, delivery), steps).delivered;
            && (forall j | 0 <= j < |us| :: Deliverable(us[j]))
            && exists k :: 0 <= k < |us| && Tells(us[k].update.value, n)
                           && forall j | 0 <= j < |us| :: Tells(us[j].update.value, n) ==> j == k
  {
    DeliveredIsContiguous(origin, log, delivery, steps);
    var s := After(Start(origin, log, delivery), steps);
    ChainTellsEachOnce(HeadAt(s.origin, s.log, s.base).At(), s.delivered, n);
  }

  // ---------------------------------------------------------------- after a blind loss

  /** After a blind loss, the very next update published and received leaves the client's frames in
      hand no longer a prefix of the log: the gap is silent. */
  lemma BlindLossIsSilent(s: System, e: Entry)
    requires Accounted(s) && Blind(s) && s.conn.buffer.pending == []
    requires s.base <= s.next == |s.log|
    requires Enabled(s, Publish(e)) && IsFrame(e, s.conn.generation)
    ensures var published := Apply(s, Publish(e));
            && Grounded(published) && Enabled(published, Receive(None)) && TakesBlindly(published, Receive(None))
            && var after := Apply(published, Receive(None));
               && after.phase.Live? && !after.conn.awaitingResync
               && after.InHand() == s.InHand() + [e.message]
               && !(after.InHand() <= after.Segment())
  {
    StepKeepsAccounted(s, Publish(e));
    FramesStable(s.log, s.log + [e], s.conn.generation, s.base, s.next);
    BlindReceiveIsSilent(Apply(s, Publish(e)));
  }

  lemma LoneTurn(c: State)
    requires Consistent(c.buffer) && !c.awaitingResync && |c.buffer.pending| == 1
    ensures var t := if c.delivery.Push? then PushClockTurn(c) else GetFrameTurn(c);
            t == Turn(c.(buffer := Taken(c.buffer)), [FrameMessage(c.buffer.pending[0])], false)
    ensures Taken(c.buffer).pending == [] && c.buffer.pending == [c.buffer.pending[0]]
  {
  }

  lemma LoneHandedOver(s: System, frame: EngineUpdate, c: State)
    ensures var t := AfterTurn(s, Turn(c, [FrameMessage(frame)], false), s.next, 0, None);
            t.delivered == s.delivered + [frame] && t.phase.Live? && t.conn == c
  {
    FramesInSingle(FrameMessage(frame));
  }

  /** With the barrier down a single pending update goes out with the next push or pull. */
  lemma LastPendingIsSent(s: System)
    requires Grounded(s) && s.phase.Live? && !s.conn.awaitingResync && |s.conn.buffer.pending| == 1
    ensures var hand := if s.conn.delivery.Push? then PushTick(None) else PullFrame(None);
            && Enabled(s, hand) && Apply(s, hand).phase.Live? && !Apply(s, hand).conn.awaitingResync
            && Apply(s, hand).delivered == s.InHand() && Apply(s, hand).Segment() == s.Segment()
  {
    LoneTurn(s.conn);
    LoneHandedOver(s, s.conn.buffer.pending[0], s.conn.(buffer := Taken(s.conn.buffer)));
  }
}
