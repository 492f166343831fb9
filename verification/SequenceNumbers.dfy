/** Which sequence numbers validated facts, frames and chains of updates carry: every one of a range, once. */
module SequenceNumbers {
  import opened Protocol

  function Numbers(facts: seq<Fact>): (n: seq<U64>)
    ensures |n| == |facts|
  {
    seq(|facts|, i requires 0 <= i < |facts| => facts[i].seqNo)
  }

  /** Some fact has this sequence number. */
  predicate Carries(facts: seq<Fact>, n: nat) { exists i :: 0 <= i < |facts| && facts[i].seqNo == n }

  predicate Between(from: nat, n: nat, to: nat) { from < n <= to }

  function Range(from: nat, to: nat): set<nat> { set n: nat | n <= to && Between(from, n, to) }

  lemma {:induction false} RangeSize(from: nat, upTo: nat)
    requires from <= upTo
    ensures |Range(from, upTo)| == upTo - from
    decreases upTo
  {
    if from < upTo {
      RangeSize(from, upTo - 1);
      assert Range(from, upTo) == Range(from, upTo - 1) + {upTo};
    } else {
      assert Range(from, upTo) == {};
    }
  }

  function Elements(s: seq<U64>): set<nat> { set i | 0 <= i < |s| :: s[i] }

  lemma {:induction false} DistinctSize(s: seq<U64>)
    requires forall i, j | 0 <= i < j < |s| :: s[i] != s[j]
    ensures |Elements(s)| == |s|
  {
    if s != [] {
      var front := s[..|s| - 1];
      DistinctSize(front);
      assert Last(s) !in Elements(front);
      assert Elements(s) == Elements(front) + {Last(s)};
    }
  }

  lemma {:induction false} ElementsBound(s: seq<U64>)
    ensures |Elements(s)| <= |s|
  {
    if s != [] {
      ElementsBound(s[..|s| - 1]);
      assert Elements(s) == Elements(s[..|s| - 1]) + {Last(s)};
    }
  }

  lemma SubsetSize<T>(a: set<T>, b: set<T>)
    requires a <= b
    ensures |a| <= |b| && (|a| == |b| ==> a == b)
  {
    assert b == a + (b - a);
  }

  predicate CarriesAll(facts: seq<Fact>, from: nat, to: nat) {
    forall n {:trigger Carries(facts, n)} | from < n <= to :: Carries(facts, n)
  }

  /** The validator's test, by counting, bounds and pairwise difference, accepts exactly the facts that carry
      every number of the range once. */
  lemma CoversEachOnce(facts: seq<Fact>, from: U64, to: U64)
    ensures CoversSequence(facts, from, to) <==>
              from <= to <= JS_SAFE_MAX && |facts| == to - from
              && CarriesAll(facts, from, to)
  {
    var s := Numbers(facts);
    if CoversSequence(facts, from, to) {
      DistinctSize(s);
      RangeSize(from, to);
      SubsetSize(Elements(s), Range(from, to));
      forall n {:trigger Carries(facts, n)} | from < n <= to ensures Carries(facts, n) {
        assert n in Range(from, to);
      }
    }
    if from <= to <= JS_SAFE_MAX && |facts| == to - from && CarriesAll(facts, from, to) {
      CoveredIsValid(facts, from, to);
    }
  }

  lemma CoveredIsValid(facts: seq<Fact>, from: U64, to: U64)
    requires from <= to <= JS_SAFE_MAX && |facts| == to - from
    requires CarriesAll(facts, from, to)
    ensures CoversSequence(facts, from, to)
  {
    var s := Numbers(facts);
    RangeSize(from, to);
    forall n | n in Range(from, to) ensures n in Elements(s) {
      assert Carries(facts, n);
      var i :| 0 <= i < |facts| && facts[i].seqNo == n;
      assert s[i] == n;
    }
    ElementsBound(s);
    SubsetSize(Range(from, to), Elements(s));
    forall i | 0 <= i < |facts| ensures from < facts[i].seqNo <= to {
      assert s[i] in Elements(s);
    }
    forall i, j | 0 <= i < j < |facts| ensures facts[i].seqNo != facts[j].seqNo {
      if s[i] == s[j] {
        RepeatedIsShort(s, i, j);
      }
    }
  }

  lemma RepeatedIsShort(s: seq<U64>, i: nat, j: nat)
    requires i < j < |s| && s[i] == s[j]
    ensures |Elements(s)| < |s|
  {
    var rest := s[..j] + s[j + 1..];
    forall x | x in Elements(s) ensures x in Elements(rest) {
      var k :| 0 <= k < |s| && s[k] == x;
      assert x == rest[if k < j then k else if k == j then i else k - 1];
    }
    SubsetSize(Elements(s), Elements(rest));
    ElementsBound(rest);
  }

  // ---------------------------------------------------------------- frames and updates

  /** A valid run of frames carries each number of its range in exactly one frame. */
  lemma {:induction false} FramesCarryEachOnce(frames: seq<TickFrame>, n: nat)
    requires ValidFrames(frames) && frames[0].seqFrom < n <= Last(frames).seqTo
    ensures exists k :: 0 <= k < |frames| && Carries(frames[k].facts, n)
                        && forall j | 0 <= j < |frames| :: Carries(frames[j].facts, n) ==> j == k
  {
    var k := FrameWith(frames, n);
    assert ValidFrame(frames[k]);
    CoversEachOnce(frames[k].facts, frames[k].seqFrom, frames[k].seqTo);
    forall j | 0 <= j < |frames| && Carries(frames[j].facts, n) ensures j == k {
      assert ValidFrame(frames[j]);
      if j < k {
        FramesOrdered(frames, j, k);
      } else if k < j {
        FramesOrdered(frames, k, j);
      }
    }
  }

  lemma {:induction false} FrameWith(frames: seq<TickFrame>, n: nat) returns (k: nat)
    requires ValidFrames(frames) && frames[0].seqFrom < n <= Last(frames).seqTo
    ensures k < |frames| && frames[k].seqFrom < n <= frames[k].seqTo
  {
    k := |frames| - 1;
    if n <= Last(frames).seqFrom && k > 0 {
      assert Linked(frames, k) && frames[..k][k - 1] == frames[k - 1];
      ValidFront(frames, k);
      k := FrameWith(frames[..k], n);
    }
  }

  lemma {:induction false} FramesOrdered(frames: seq<TickFrame>, j: nat, k: nat)
    requires ValidFrames(frames) && j < k < |frames|
    ensures frames[j].seqTo <= frames[k].seqFrom
  {
    assert Linked(frames, k);
    if j + 1 < k {
      FramesOrdered(frames, j, k - 1);
      assert ValidFrame(frames[k - 1]);
    }
  }

  /** The update's own news: a batch's frames, a civil update's facts; not the finished day it may repeat. */
  predicate Tells(p: ProtocolUpdate, n: nat) {
    match p
    case TickBatchUpdate(b) => exists k :: 0 <= k < |b.frames| && Carries(b.frames[k].facts, n)
    case CivilDayUpdate(c) => Carries(c.facts, n)
  }

  function SeqFrom(p: ProtocolUpdate): U64
    requires p.TickBatchUpdate? ==> p.batch.frames != []
  {
    match p case TickBatchUpdate(b) => b.frames[0].seqFrom case CivilDayUpdate(c) => c.seqFrom
  }

  lemma UpdateTells(p: ProtocolUpdate, n: nat)
    requires Valid(p)
    ensures Tells(p, n) <==> SeqFrom(p) < n <= LastSeq(p)
  {
    match p
    case TickBatchUpdate(b) =>
      if SeqFrom(p) < n <= LastSeq(p) {
        FramesCarryEachOnce(b.frames, n);
      }
      forall k | 0 <= k < |b.frames| && Carries(b.frames[k].facts, n) ensures SeqFrom(p) < n <= LastSeq(p) {
        assert ValidFrame(b.frames[k]);
        FramesAdvance(b.frames, k);
        if k < |b.frames| - 1 {
          FramesOrdered(b.frames, k, |b.frames| - 1);
          assert ValidFrame(Last(b.frames));
        }
      }
    case CivilDayUpdate(c) =>
      CoversEachOnce(c.facts, c.seqFrom, c.seqTo);
  }

  /** Chained updates tell every sequence number after the cursor once: none is missing and none comes twice. */
  lemma {:induction false} ChainTellsEachOnce(c: Cursor, us: seq<EngineUpdate>, n: nat)
    requires Chain(c, us) && us != [] && c.seqNo < n <= EndOf(Last(us)).seqNo
    ensures exists k :: 0 <= k < |us| && Tells(us[k].update.value, n)
                        && forall j | 0 <= j < |us| :: Tells(us[j].update.value, n) ==> j == k
  {
    var k := UpdateWith(c, us, n);
    UpdateTells(us[k].update.value, n);
    forall j | 0 <= j < |us| && Tells(us[j].update.value, n) ensures j == k {
      UpdateTells(us[j].update.value, n);
      if j < k {
        UpdatesOrdered(c, us, j, k);
      } else if k < j {
        UpdatesOrdered(c, us, k, j);
      }
    }
  }

  lemma {:induction false} UpdateWith(c: Cursor, us: seq<EngineUpdate>, n: nat) returns (k: nat)
    requires Chain(c, us) && us != [] && c.seqNo < n <= EndOf(Last(us)).seqNo
    ensures k < |us| && SeqFrom(us[k].update.value) < n <= LastSeq(us[k].update.value)
  {
    k := |us| - 1;
    assert k > 0 ==> Follows(EndOf(us[k - 1]), us[k]);
    if n <= SeqFrom(us[k].update.value) && k > 0 {
      assert us[..k][k - 1] == us[k - 1];
      k := UpdateWith(c, us[..k], n);
    }
  }

  lemma {:induction false} UpdatesOrdered(c: Cursor, us: seq<EngineUpdate>, j: nat, k: nat)
    requires Chain(c, us) && j < k < |us|
    ensures LastSeq(us[j].update.value) <= SeqFrom(us[k].update.value)
  {
    assert Follows(EndOf(us[k - 1]), us[k]);
    if j + 1 < k {
      UpdatesOrdered(c, us, j, k - 1);
      var p := us[k - 1].update.value;
      assert Follows(EndOf(us[k - 2]), us[k - 1]);
      ValidUpdateAdvances(EndOf(us[k - 2]).tick, EndOf(us[k - 2]).seqNo, p);
    }
  }
}
