/** What the two validators accept, exactly, told without their own tests: consecutive ticks, every sequence
    number once, the reported position, the one move of the date, and the finished day. */
module Validation {
  import opened Protocol
  import opened SequenceNumbers

  /** Frames of consecutive ticks whose facts, taken together in order, carry every sequence number once. */
  ghost predicate ConsecutiveFrames(frames: seq<TickFrame>) {
    && frames != []
    && (forall k | 0 <= k < |frames| :: frames[k].tick == frames[0].tick + k <= JS_SAFE_MAX)
    && (forall k | 0 <= k < |frames| :: CarriesRange(frames[k].facts, frames[k].seqFrom, frames[k].seqTo))
    && (forall k {:trigger Linked(frames, k)} | 0 < k < |frames| :: frames[k].seqFrom == frames[k - 1].seqTo)
  }

  /** As many facts as numbers, and every number carried. */
  predicate CarriesRange(facts: seq<Fact>, from: U64, upTo: U64) {
    from <= upTo <= JS_SAFE_MAX && |facts| == upTo - from && CarriesAll(facts, from, upTo)
  }

  lemma ValidFramesExactly(frames: seq<TickFrame>)
    ensures ValidFrames(frames) <==> ConsecutiveFrames(frames)
  {
    forall k | 0 <= k < |frames|
      ensures CoversSequence(frames[k].facts, frames[k].seqFrom, frames[k].seqTo)
              <==> CarriesRange(frames[k].facts, frames[k].seqFrom, frames[k].seqTo)
    {
      CoversEachOnce(frames[k].facts, frames[k].seqFrom, frames[k].seqTo);
    }
    if ValidFrames(frames) {
      FramesAreConsecutive(frames);
    }
    if ConsecutiveFrames(frames) {
      ConsecutiveAreValid(frames);
    }
  }

  lemma FramesAreConsecutive(frames: seq<TickFrame>)
    requires ValidFrames(frames)
    requires forall k | 0 <= k < |frames| :: CarriesRange(frames[k].facts, frames[k].seqFrom, frames[k].seqTo)
    ensures ConsecutiveFrames(frames)
  {
    forall k | 0 <= k < |frames| ensures frames[k].tick == frames[0].tick + k <= JS_SAFE_MAX {
      FramesAdvance(frames, k);
      assert ValidFrame(frames[k]);
    }
    forall k | 0 < k < |frames| ensures frames[k].seqFrom == frames[k - 1].seqTo {
      assert Linked(frames, k);
    }
  }

  lemma ConsecutiveAreValid(frames: seq<TickFrame>)
    requires ConsecutiveFrames(frames)
    requires forall k | 0 <= k < |frames| :: CoversSequence(frames[k].facts, frames[k].seqFrom, frames[k].seqTo)
    ensures ValidFrames(frames)
  {
    forall k | 0 <= k < |frames| ensures ValidFrame(frames[k]) {
      assert frames[k].tick == frames[0].tick + k <= JS_SAFE_MAX;
    }
    forall k | 0 < k < |frames| ensures Linked(frames, k) {
      assert frames[k].tick == frames[0].tick + k && frames[k - 1].tick == frames[0].tick + (k - 1);
    }
  }

  /** A batch reports its end by a snapshot, or its whole stretch by a delta, or neither, but not both. */
  predicate ReportsItself(b: TickBatch)
    requires b.frames != []
  {
    var first, last := b.frames[0], b.frames[|b.frames| - 1];
    match (b.snapshot, b.delta)
    case (None, None) => true
    case (Some(s), None) => s.tick == last.tick && s.seqNo == last.seqTo
    case (None, Some(d)) => d.tick == last.tick && d.seqFrom == first.seqFrom && d.seqTo == last.seqTo
    case (Some(_), Some(_)) => false
  }

  lemma ValidBatchExactly(b: TickBatch)
    ensures ValidBatch(b) <==> ConsecutiveFrames(b.frames) && ReportsItself(b)
  {
    ValidFramesExactly(b.frames);
  }

  /** The facts that move the civil date. */
  function DateMoves(facts: seq<Fact>): set<int> {
    set i | 0 <= i < |facts| && facts[i].event == CivilDateAdvanced
  }

  lemma MovesOnceExactly(facts: seq<Fact>)
    ensures |DateMoves(facts)| == 1 <==>
              && (exists i :: 0 <= i < |facts| && facts[i].event == CivilDateAdvanced)
              && (forall i, j | 0 <= i < j < |facts| :: !(facts[i].event == facts[j].event == CivilDateAdvanced))
  {
    if i :| 0 <= i < |facts| && facts[i].event == CivilDateAdvanced {
      if forall j, k | 0 <= j < k < |facts| :: !(facts[j].event == facts[k].event == CivilDateAdvanced) {
        assert DateMoves(facts) == {i};
      } else {
        var j, k :| 0 <= j < k < |facts| && facts[j].event == facts[k].event == CivilDateAdvanced;
        SubsetSize({j, k}, DateMoves(facts));
      }
    } else {
      assert DateMoves(facts) == {};
    }
  }

  /** After the close a civil update repeats the finished day: every tick of it, up to the tick on which it
      settles, and every fact up to its own first. Otherwise it repeats nothing. */
  ghost predicate RepeatsTheDay(c: CivilUpdate) {
    if c.afterClose then
      && ConsecutiveFrames(c.intraday)
      && |c.intraday| == c.ticksPerDay && c.intraday[0].tick == c.tick - c.ticksPerDay + 1
      && c.intraday[|c.intraday| - 1].seqTo == c.seqFrom
    else c.intraday == []
  }

  /** A civil update is valid exactly if its facts carry every sequence number of its range, one of them and
      only one moves the date, it reports its own position, and it repeats the finished day. */
  lemma ValidCivilExactly(c: CivilUpdate)
    ensures ValidCivil(c) <==>
              && CarriesRange(c.facts, c.seqFrom, c.seqTo) && |DateMoves(c.facts)| == 1
              && c.snapshot.tick == c.tick && c.snapshot.seqNo == c.seqTo
              && c.ticksPerDay > 0 && c.boundaryConsistent && RepeatsTheDay(c)
  {
    CoversEachOnce(c.facts, c.seqFrom, c.seqTo);
    MovesOnceExactly(c.facts);
    ValidFramesExactly(c.intraday);
    if c.intraday != [] && ConsecutiveFrames(c.intraday) {
      var k := |c.intraday| - 1;
      assert c.intraday[k].tick == c.intraday[0].tick + k;
    }
  }
}
