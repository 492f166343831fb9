/** The log of everything a session actor broadcasts, and what its order guarantees.
    Every entry carries the head it leaves behind: the position clients would stand at after it. */
module PublishedLog {
  import opened Protocol
  import opened Publisher

  /** The generation, the last published tick and sequence number, and the latched fatal failure. */
  datatype Head = Head(generation: U64, tick: U64, seqNo: U64, fatal: Option<HostFailure>) {
    function At(): Cursor { Cursor(tick, seqNo, generation) }
  }

  datatype Entry = Entry(message: EngineUpdate, after: Head)

  /** What one broadcast may do to the head. */
  ghost predicate EntryStep(before: Head, e: Entry) {
    var m := e.message;
    && before.fatal.None?
    && if m.failure.Some? then
         && m.update.None?
         && m.generation == before.generation
         && e.after == if m.failure.value.recoverable then before else before.(fatal := m.failure)
       else if m.update.Some? then
         && Deliverable(m)
         && Follows(before.At(), m)
         && e.after == Head(m.generation, EndOf(m).tick, EndOf(m).seqNo, None)
       else
         // A timeline reset opens the next generation at whatever position the new game stands.
         && m.generation == before.generation + 1
         && e.after.generation == m.generation
         && e.after.fatal.None?
  }

  function HeadAt(origin: Head, log: seq<Entry>, i: nat): Head
    requires i <= |log|
  {
    if i == 0 then origin else log[i - 1].after
  }

  ghost predicate StepAt(origin: Head, log: seq<Entry>, i: nat)
    requires i < |log|
  {
    EntryStep(HeadAt(origin, log, i), log[i])
  }

  ghost predicate WellFormedLog(origin: Head, log: seq<Entry>) {
    forall i {:trigger StepAt(origin, log, i)} | 0 <= i < |log| :: StepAt(origin, log, i)
  }

  lemma AppendKeepsWellFormed(origin: Head, log: seq<Entry>, e: Entry)
    requires WellFormedLog(origin, log) && EntryStep(HeadAt(origin, log, |log|), e)
    ensures WellFormedLog(origin, log + [e])
    ensures HeadAt(origin, log + [e], |log| + 1) == e.after
  {
    var next := log + [e];
    forall i | 0 <= i < |next| ensures StepAt(origin, next, i) {
      assert HeadAt(origin, next, i) == HeadAt(origin, log, i);
      assert i < |log| ==> StepAt(origin, log, i);
    }
  }

  predicate IsFrame(e: Entry, generation: U64) {
    e.message.update.Some? && e.message.generation == generation
  }

  /** The protocol updates of one generation among log[i..j], in order. */
  function Frames(log: seq<Entry>, generation: U64, i: nat, j: nat): (us: seq<EngineUpdate>)
    requires j <= |log|
    ensures |us| <= if i <= j then j - i else 0
  {
    if j <= i then []
    else Frames(log, generation, i, j - 1) + if IsFrame(log[j - 1], generation) then [log[j - 1].message] else []
  }

  lemma {:induction false} FramesStable(log: seq<Entry>, more: seq<Entry>, generation: U64, i: nat, j: nat)
    requires j <= |log| && log <= more
    ensures Frames(log, generation, i, j) == Frames(more, generation, i, j)
  {
    if i < j {
      FramesStable(log, more, generation, i, j - 1);
    }
  }

  lemma {:induction false} FramesSplit(log: seq<Entry>, generation: U64, i: nat, k: nat, j: nat)
    requires i <= k <= j <= |log|
    ensures Frames(log, generation, i, j) == Frames(log, generation, i, k) + Frames(log, generation, k, j)
  {
    if k < j {
      FramesSplit(log, generation, i, k, j - 1);
    }
  }

  // ---------------------------------------------------------------- order

  /** One broadcast never moves the head back, and an update moves tick plus sequence number strictly on. */
  lemma EntryAdvances(before: Head, e: Entry)
    requires EntryStep(before, e)
    ensures before.generation <= e.after.generation
    ensures before.generation == e.after.generation ==>
              && before.tick <= e.after.tick
              && before.seqNo <= e.after.seqNo
              && (e.message.update.Some? ==> before.tick + before.seqNo < e.after.tick + e.after.seqNo)
              && (e.message.update.None? ==> before.At() == e.after.At())
    ensures e.message.generation == e.after.generation
    ensures e.message.update.Some? ==> e.message.generation == before.generation && e.after.fatal.None?
  {
    if e.message.failure.None? && e.message.update.Some? {
      ValidUpdateAdvances(before.tick, before.seqNo, e.message.update.value);
    }
  }

  /** Generations never go back, and within one generation neither do tick and sequence number;
      a published update moves their sum strictly forward. */
  lemma {:induction false} HeadsAdvance(origin: Head, log: seq<Entry>, i: nat, j: nat)
    requires WellFormedLog(origin, log) && i <= j <= |log|
    ensures HeadAt(origin, log, i).generation <= HeadAt(origin, log, j).generation
    ensures HeadAt(origin, log, i).generation == HeadAt(origin, log, j).generation ==>
              && HeadAt(origin, log, i).tick <= HeadAt(origin, log, j).tick
              && HeadAt(origin, log, i).seqNo <= HeadAt(origin, log, j).seqNo
              && HeadAt(origin, log, i).tick + HeadAt(origin, log, i).seqNo
                 + |Frames(log, HeadAt(origin, log, i).generation, i, j)|
                 <= HeadAt(origin, log, j).tick + HeadAt(origin, log, j).seqNo
  {
    if i < j {
      HeadsAdvance(origin, log, i, j - 1);
      assert StepAt(origin, log, j - 1);
      EntryAdvances(HeadAt(origin, log, j - 1), log[j - 1]);
    }
  }

  /** What a client with a baseline calls covered. */
  predicate Covered(p: ProtocolUpdate, baselineTick: U64, baselineSeq: U64) {
    match p
    case TickBatchUpdate(b) => b.frames != [] && Last(b.frames).tick <= baselineTick
        && Last(b.frames).seqTo <= baselineSeq
    case CivilDayUpdate(c) => c.tick <= baselineTick && c.seqTo <= baselineSeq
  }

  /** Against the head at any point of the log, the updates of that generation published before that
      point are exactly the covered ones. */
  lemma CoveredIffPublishedBefore(origin: Head, log: seq<Entry>, base: nat, k: nat)
    requires WellFormedLog(origin, log) && base <= |log| && k < |log|
    requires IsFrame(log[k], HeadAt(origin, log, base).generation)
    ensures var h := HeadAt(origin, log, base);
            Covered(log[k].message.update.value, h.tick, h.seqNo) <==> k < base
  {
    var h, m := HeadAt(origin, log, base), log[k].message;
    assert StepAt(origin, log, k);
    ValidUpdateAdvances(HeadAt(origin, log, k).tick, HeadAt(origin, log, k).seqNo, m.update.value);
    if k < base {
      assert HeadAt(origin, log, k + 1) == log[k].after;
      HeadsAdvance(origin, log, k + 1, base);
    } else {
      HeadsAdvance(origin, log, base, k);
    }
  }

  /** A cursor left behind by an earlier update fits the next update of its generation only when
      no update of that generation lies in between. */
  lemma StaleCursorFitsNothing(origin: Head, log: seq<Entry>, i: nat, k: nat)
    requires WellFormedLog(origin, log) && i <= k < |log|
    requires IsFrame(log[k], HeadAt(origin, log, i).generation)
    ensures Deliverable(log[k].message)
    ensures var h := HeadAt(origin, log, i);
            Follows(h.At(), log[k].message) <==> Frames(log, h.generation, i, k) == []
  {
    var h, before := HeadAt(origin, log, i), HeadAt(origin, log, k);
    assert StepAt(origin, log, k);
    HeadsAdvance(origin, log, i, k);
    FramesChain(origin, log, i, k);
  }

  /** The updates of one generation from any point of the log form a chain starting at that point's
      head, and as long as the generation lasts the chain ends at the current head. */
  lemma {:induction false} FramesChain(origin: Head, log: seq<Entry>, i: nat, k: nat)
    requires WellFormedLog(origin, log) && i <= k <= |log|
    ensures var h, us := HeadAt(origin, log, i), Frames(log, HeadAt(origin, log, i).generation, i, k);
            && Chain(h.At(), us)
            && (HeadAt(origin, log, k).generation == h.generation ==>
                  HeadAt(origin, log, k).At() == if us == [] then h.At() else EndOf(Last(us)))
  {
    if i < k {
      FramesChain(origin, log, i, k - 1);
      FramesChainOn(origin, log, i, k);
    }
  }

  lemma FramesChainOn(origin: Head, log: seq<Entry>, i: nat, k: nat)
    requires WellFormedLog(origin, log) && i < k <= |log|
    requires var h, us := HeadAt(origin, log, i), Frames(log, HeadAt(origin, log, i).generation, i, k - 1);
             && Chain(h.At(), us)
             && (HeadAt(origin, log, k - 1).generation == h.generation ==>
                   HeadAt(origin, log, k - 1).At() == if us == [] then h.At() else EndOf(Last(us)))
    ensures var h, us := HeadAt(origin, log, i), Frames(log, HeadAt(origin, log, i).generation, i, k);
            && Chain(h.At(), us)
            && (HeadAt(origin, log, k).generation == h.generation ==>
                  HeadAt(origin, log, k).At() == if us == [] then h.At() else EndOf(Last(us)))
  {
    assert StepAt(origin, log, k - 1);
    HeadsAdvance(origin, log, i, k - 1);
    var h, before, e := HeadAt(origin, log, i), HeadAt(origin, log, k - 1), log[k - 1];
    var us := Frames(log, h.generation, i, k - 1);
    if IsFrame(e, h.generation) {
      UpdateMovesHead(before, e);
      ChainAppend(h.At(), us, e.message);
      assert Last(us + [e.message]) == e.message;
    } else {
      OtherKeepsHead(before, e);
    }
  }

  lemma UpdateMovesHead(before: Head, e: Entry)
    requires EntryStep(before, e) && e.message.update.Some?
    ensures Deliverable(e.message) && Follows(before.At(), e.message)
    ensures e.message.generation == before.generation == e.after.generation && e.after.At() == EndOf(e.message)
  {
  }

  lemma OtherKeepsHead(before: Head, e: Entry)
    requires EntryStep(before, e)
    ensures e.message.update.None? ==>
              if e.after.generation == before.generation then e.after.At() == before.At()
              else e.after.generation == before.generation + 1
    ensures e.message.update.Some? ==> e.message.generation == before.generation == e.after.generation
  {
  }

  predicate IsFatal(e: Entry) { e.message.failure.Some? && !e.message.failure.value.recoverable }

  lemma NothingLatchedBefore(origin: Head, log: seq<Entry>, i: nat)
    requires WellFormedLog(origin, log) && i < |log|
    ensures HeadAt(origin, log, i).fatal.None?
  {
    assert StepAt(origin, log, i);
  }

  /** Behind a latched failure a log does not grow. */
  lemma LatchedLogStays(origin: Head, log: seq<Entry>, more: seq<Entry>)
    requires WellFormedLog(origin, more) && log <= more && HeadAt(origin, log, |log|).fatal.Some?
    ensures more == log
  {
    if |log| < |more| {
      NothingLatchedBefore(origin, more, |log|);
    }
  }

  /** First-fatal latch: at most one non-recoverable failure is ever broadcast, and it ends the log. */
  lemma FatalEndsTheLog(origin: Head, log: seq<Entry>, i: nat)
    requires WellFormedLog(origin, log) && i < |log|
    requires log[i].message.failure.Some? && !log[i].message.failure.value.recoverable
    ensures i == |log| - 1
    ensures HeadAt(origin, log, |log|).fatal == log[i].message.failure
  {
    assert i + 1 < |log| ==> StepAt(origin, log, i + 1);
    assert StepAt(origin, log, i);
  }

  predicate BatchFrame(e: Entry, a: nat, generation: U64) {
    && e.message.update.Some? && e.message.update.value.TickBatchUpdate? && e.message.generation == generation
    && a < |e.message.update.value.batch.frames|
  }

  function FrameOf(e: Entry, a: nat): TickFrame
    requires e.message.update.Some? && e.message.update.value.TickBatchUpdate?
             && a < |e.message.update.value.batch.frames|
  {
    e.message.update.value.batch.frames[a]
  }

  lemma FrameTicks(before: Head, e: Entry, a: nat)
    requires EntryStep(before, e) && BatchFrame(e, a, e.message.generation)
    ensures before.tick < FrameOf(e, a).tick <= e.after.tick
  {
    var frames := e.message.update.value.batch.frames;
    FramesAdvance(frames, a);
    FramesAdvance(frames, |frames| - 1);
  }

  /** No frame is published twice: of two frames of one generation in different broadcasts, the one in the
      later broadcast has the later tick. */
  lemma FramesPublishedOnce(origin: Head, log: seq<Entry>, generation: U64, i: nat, a: nat, k: nat, b: nat)
    requires WellFormedLog(origin, log) && i < k < |log|
    requires BatchFrame(log[i], a, generation) && BatchFrame(log[k], b, generation)
    ensures FrameOf(log[i], a).tick < FrameOf(log[k], b).tick
  {
    assert StepAt(origin, log, i) && StepAt(origin, log, k);
    FrameTicks(HeadAt(origin, log, i), log[i], a);
    FrameTicks(HeadAt(origin, log, k), log[k], b);
    HeadsAdvance(origin, log, i + 1, k);
  }

  // ---------------------------------------------------------------- a fresh buffer on a window of the log

  /** Pushes log[i..j] into a fresh buffer, taking `takes(k)` updates after entry k, stopping at the first refusal. */
  function FeedWindow(log: seq<Entry>, i: nat, j: nat, takes: nat -> nat): (Buffer, Option<FrameBufferError>)
    requires i <= j <= |log|
  {
    if i == j then (EmptyBuffer, None)
    else
      var (b, refusal) := FeedWindow(log, i, j - 1, takes);
      var m := log[j - 1].message;
      if refusal.Some? || m.update.None? then (b, refusal)
      else (Drained(Pushed(b, m), takes(j - 1)), Refusal(b, m))
  }

  function Drained(b: Buffer, n: nat): Buffer
    decreases n
  {
    if n == 0 || b.pending == [] then b
    else Drained(Buffer(b.pending[1..], PendingUnits(b.pending[1..]), b.cursor), n - 1)
  }

  lemma {:induction false} DrainedKeeps(b: Buffer, n: nat)
    requires Consistent(b)
    ensures Consistent(Drained(b, n)) && Drained(b, n).cursor == b.cursor
    decreases n
  {
    if n != 0 && b.pending != [] {
      TakeKeepsConsistent(b);
      DrainedKeeps(Taken(b), n - 1);
    }
  }

  /** The published log is a chain: whatever window of one generation is fed to a fresh buffer, and
      however it is drained meanwhile, the only refusal that can ever come back is for capacity. */
  lemma {:induction false} WindowNeverBreaksTheCursor(origin: Head, log: seq<Entry>, i: nat, j: nat, takes: nat -> nat)
    requires WellFormedLog(origin, log) && i <= j <= |log|
    requires HeadAt(origin, log, i).generation == HeadAt(origin, log, j).generation
    ensures var (b, refusal) := FeedWindow(log, i, j, takes);
            && Consistent(b)
            && (refusal.Some? ==> refusal.value.BufferCapacityExceeded?)
            && (refusal.None? && b.cursor.Some? ==> b.cursor.value == HeadAt(origin, log, j).At())
  {
    if i < j {
      HeadsAdvance(origin, log, i, j - 1);
      HeadsAdvance(origin, log, j - 1, j);
      WindowNeverBreaksTheCursor(origin, log, i, j - 1, takes);
      var (b, refusal) := FeedWindow(log, i, j - 1, takes);
      var m := log[j - 1].message;
      assert StepAt(origin, log, j - 1);
      if refusal.None? && m.update.Some? {
        PushKeepsConsistent(b, m);
        DrainedKeeps(Pushed(b, m), takes(j - 1));
      }
    }
  }
}
