/** What a client's backlog weighs, told from sequence numbers and quiet frames, and when it is too heavy. */
module BacklogWeight {
  import opened Protocol
  import opened Publisher
  import opened SequenceNumbers

  // ---------------------------------------------------------------- one update

  /** Frames in which nothing happened. */
  function Quiet(frames: seq<TickFrame>): set<int> { set j | 0 <= j < |frames| && frames[j].facts == [] }

  lemma QuietAppend(frames: seq<TickFrame>, f: TickFrame)
    ensures |Quiet(frames + [f])| == |Quiet(frames)| + if f.facts == [] then 1 else 0
  {
    var more := frames + [f];
    forall j ensures j in Quiet(more) <==> j in Quiet(frames) || (j == |frames| && f.facts == []) {
    }
    assert Quiet(more) == if f.facts == [] then Quiet(frames) + {|frames|} else Quiet(frames);
  }

  /** A valid run of frames weighs its facts, of which there are as many as sequence numbers, and one for
      every quiet frame. */
  lemma {:induction false} FramesWeigh(frames: seq<TickFrame>)
    requires ValidFrames(frames)
    ensures FrameUnits(frames) == Last(frames).seqTo - frames[0].seqFrom + |Quiet(frames)|
  {
    var front, last := frames[..|frames| - 1], Last(frames);
    assert ValidFrame(last) && frames == front + [last];
    QuietAppend(front, last);
    if front == [] {
      assert Quiet(front) == {};
    } else {
      assert Linked(frames, |frames| - 1);
      ValidFront(frames, |front|);
      FramesWeigh(front);
      assert last == frames[|frames| - 1] && Last(front) == frames[|frames| - 2];
    }
  }

  /** The frames an update brings: a batch's own, or the finished day that a civil update repeats. */
  function Brings(p: ProtocolUpdate): seq<TickFrame> {
    match p case TickBatchUpdate(b) => b.frames case CivilDayUpdate(c) => c.intraday
  }

  /** The sequence numbers that a civil update repeats from the finished day. */
  function Repeated(p: ProtocolUpdate): set<nat> {
    match p
    case TickBatchUpdate(_) => {}
    case CivilDayUpdate(c) => if c.intraday == [] then {} else Range(c.intraday[0].seqFrom, c.seqFrom)
  }

  lemma FramesAscend(frames: seq<TickFrame>)
    requires ValidFrames(frames)
    ensures frames[0].seqFrom <= Last(frames).seqTo
  {
    FramesAdvance(frames, |frames| - 1);
  }

  lemma UpdateWeighs(p: ProtocolUpdate)
    requires Valid(p)
    ensures UpdateUnits(p) == LastSeq(p) - SeqFrom(p) + |Repeated(p)| + |Quiet(Brings(p))|
  {
    match p
    case TickBatchUpdate(b) => FramesWeigh(b.frames);
    case CivilDayUpdate(c) =>
      if c.intraday == [] {
        assert Quiet(c.intraday) == {};
      } else {
        FramesWeigh(c.intraday);
        FramesAscend(c.intraday);
        RangeSize(c.intraday[0].seqFrom, c.seqFrom);
      }
  }

  // ---------------------------------------------------------------- a backlog

  /** The quiet frames of all updates. */
  function AllQuiet(us: seq<EngineUpdate>): set<(int, int)> {
    set i, j | 0 <= i < |us| && us[i].update.Some? && j in Quiet(Brings(us[i].update.value)) :: (i, j)
  }

  /** The repeated sequence numbers of all updates. */
  function AllRepeated(us: seq<EngineUpdate>): set<(int, nat)> {
    set i, n | 0 <= i < |us| && us[i].update.Some? && n in Repeated(us[i].update.value) :: (i, n)
  }

  function Tagged<T>(tag: int, s: set<T>): set<(int, T)> { set x | x in s :: (tag, x) }

  lemma {:induction false} TaggedSize<T>(tag: int, s: set<T>)
    ensures |Tagged(tag, s)| == |s|
    decreases |s|
  {
    if s != {} {
      var x :| x in s;
      TaggedSize(tag, s - {x});
      assert Tagged(tag, s) == Tagged(tag, s - {x}) + {(tag, x)};
    } else {
      assert Tagged(tag, s) == {};
    }
  }

  lemma QuietGrows(us: seq<EngineUpdate>, u: EngineUpdate)
    requires u.update.Some?
    ensures |AllQuiet(us + [u])| == |AllQuiet(us)| + |Quiet(Brings(u.update.value))|
  {
    var more, added := us + [u], Tagged(|us|, Quiet(Brings(u.update.value)));
    forall x ensures x in AllQuiet(more) <==> x in AllQuiet(us) || x in added {
      assert 0 <= x.0 < |us| ==> more[x.0] == us[x.0];
    }
    assert AllQuiet(more) == AllQuiet(us) + added && AllQuiet(us) !! added;
    TaggedSize(|us|, Quiet(Brings(u.update.value)));
  }

  lemma RepeatedGrows(us: seq<EngineUpdate>, u: EngineUpdate)
    requires u.update.Some?
    ensures |AllRepeated(us + [u])| == |AllRepeated(us)| + |Repeated(u.update.value)|
  {
    var more, added := us + [u], Tagged(|us|, Repeated(u.update.value));
    forall x ensures x in AllRepeated(more) <==> x in AllRepeated(us) || x in added {
      assert 0 <= x.0 < |us| ==> more[x.0] == us[x.0];
    }
    assert AllRepeated(more) == AllRepeated(us) + added && AllRepeated(us) !! added;
    TaggedSize(|us|, Repeated(u.update.value));
  }

  /** Updates of which each follows the one before. */
  predicate Chained(us: seq<EngineUpdate>) {
    && (forall i | 0 <= i < |us| :: Deliverable(us[i]))
    && (forall i | 0 < i < |us| :: Follows(EndOf(us[i - 1]), us[i]))
  }

  /** From the first sequence number a backlog tells to the last. */
  function Span(us: seq<EngineUpdate>): int
    requires Chained(us)
  {
    if us == [] then 0 else LastSeq(Last(us).update.value) - SeqFrom(us[0].update.value)
  }

  /** What a backlog carries: the sequence numbers it spans, those it repeats, and its quiet frames. */
  function Load(us: seq<EngineUpdate>): int
    requires Chained(us)
  {
    Span(us) + |AllRepeated(us)| + |AllQuiet(us)|
  }

  lemma ChainedFront(us: seq<EngineUpdate>)
    requires Chained(us) && us != []
    ensures Chained(us[..|us| - 1]) && us == us[..|us| - 1] + [Last(us)]
    ensures |us| > 1 ==> Follows(EndOf(Last(us[..|us| - 1])), Last(us))
  {
    var front := us[..|us| - 1];
    forall i | 0 < i < |front| ensures Follows(EndOf(front[i - 1]), front[i]) {
      assert Follows(EndOf(us[i - 1]), us[i]);
    }
    if |us| > 1 {
      assert Last(front) == us[|us| - 2];
    }
  }

  /** The weight of a chained backlog is its load. */
  lemma {:induction false} BacklogWeighs(us: seq<EngineUpdate>)
    requires Chained(us)
    ensures PendingUnits(us) == Load(us)
  {
    if us == [] {
      assert AllQuiet(us) == {} && AllRepeated(us) == {};
    } else {
      var front, last := us[..|us| - 1], Last(us);
      ChainedFront(us);
      BacklogWeighs(front);
      assert Deliverable(last);
      PendingUnitsAppend(front, last);
      assert PendingUnits([last]) == UpdateUnits(last.update.value);
      UpdateWeighs(last.update.value);
      QuietGrows(front, last);
      RepeatedGrows(front, last);
    }
  }

  /** A backlog of two or more updates spans at most 65536 sequence numbers, and together with the quiet
      frames and the repeated days it carries no more than that. */
  lemma BacklogSpans(b: Buffer)
    requires Consistent(b) && |b.pending| >= 2
    ensures Chained(b.pending) && Span(b.pending) <= Load(b.pending) <= 65_536
  {
    BacklogWeighs(b.pending);
  }

  lemma FollowersChain(b: Buffer, u: EngineUpdate)
    requires Consistent(b) && Deliverable(u) && (b.cursor.Some? ==> Follows(b.cursor.value, u))
    ensures Chained(b.pending + [u])
  {
    ChainGrows(b.pending, u);
  }

  /** A push is refused for capacity exactly if the update is fit for the backlog, something is pending, and
      together they would carry more than 65536 sequence numbers and quiet frames. */
  lemma CapacityExactly(b: Buffer, u: EngineUpdate)
    requires Consistent(b)
    ensures Refusal(b, u) == Some(BufferCapacityExceeded(65_536)) <==>
              && Deliverable(u) && (b.cursor.Some? ==> Follows(b.cursor.value, u))
              && b.pending != [] && Chained(b.pending + [u]) && Load(b.pending + [u]) > 65_536
    ensures Refusal(b, u).None? <==>
              && Deliverable(u) && (b.cursor.Some? ==> Follows(b.cursor.value, u))
              && (b.pending == [] || (Chained(b.pending + [u]) && Load(b.pending + [u]) <= 65_536))
  {
    if Deliverable(u) && (b.cursor.Some? ==> Follows(b.cursor.value, u)) {
      FollowersChain(b, u);
      BacklogWeighs(b.pending + [u]);
      PendingUnitsAppend(b.pending, u);
      assert PendingUnits([u]) == UpdateUnits(u.update.value);
    }
  }

  /** The other refusals: no update, one that fails validation, and one that does not continue the cursor. */
  lemma OtherRefusalsExactly(b: Buffer, u: EngineUpdate)
    ensures Refusal(b, u) == Some(EmptyUpdate) <==> u.update.None?
    ensures Refusal(b, u) == Some(InvalidProtocol) <==> u.update.Some? && !Deliverable(u)
    ensures Refusal(b, u) == Some(CursorMismatch) <==>
              Deliverable(u) && b.cursor.Some? && !Follows(b.cursor.value, u)
  {
  }
}
