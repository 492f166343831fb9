/** The ping/pong liveness check of a WebSocket connection, and the supervisor that enforces its deadline. */
module Heartbeat {
  import opened Protocol

  // ---------------------------------------------------------------- ping payloads

  type Byte = x: int | 0 <= x < 256

  /** The low n bytes of a number, most significant first. */
  function BigEndian(x: nat, n: nat): (bytes: seq<Byte>)
    ensures |bytes| == n
  {
    if n == 0 then [] else BigEndian(x / 256, n - 1) + [x % 256]
  }

  function Number(bytes: seq<Byte>): nat {
    if bytes == [] then 0 else 256 * Number(bytes[..|bytes| - 1]) + Last(bytes)
  }

  function Power256(n: nat): (p: nat)
    ensures p > 0
  {
    if n == 0 then 1 else 256 * Power256(n - 1)
  }

  lemma {:induction false} BigEndianRoundTrip(x: nat, n: nat)
    requires x < Power256(n)
    ensures Number(BigEndian(x, n)) == x
  {
    if n > 0 {
      BigEndianRoundTrip(x / 256, n - 1);
      var bytes := BigEndian(x, n);
      assert bytes[..n - 1] == BigEndian(x / 256, n - 1);
    }
  }

  function Payload(sequence: U64): seq<Byte> { BigEndian(sequence, 8) }

  lemma PayloadsDistinct(a: U64, b: U64)
    requires Payload(a) == Payload(b)
    ensures a == b
  {
    assert Power256(8) == U64_MAX + 1;
    BigEndianRoundTrip(a, 8);
    BigEndianRoundTrip(b, 8);
  }

  // ---------------------------------------------------------------- heartbeat states

  /** Instants are nanoseconds since some origin. */
  type Instant = nat

  const PONG_TIMEOUT: nat := 10_000_000_000

  datatype Ping = Ping(payload: seq<Byte>, deadline: Instant)

  datatype State = State(sequence: U64, outstanding: Option<Ping>) {
    function Deadline(): Option<Instant> {
      match outstanding case None => None case Some(p) => Some(p.deadline)
    }

    predicate Expired(now: Instant) { outstanding.Some? && now >= outstanding.value.deadline }
  }

  const Idle := State(0, None)

  function NextSequence(n: U64): U64 { if n == U64_MAX then 0 else n + 1 }

  function Pinged(h: State, now: Instant): State {
    if h.outstanding.Some? then h
    else State(NextSequence(h.sequence), Some(Ping(Payload(NextSequence(h.sequence)), now + PONG_TIMEOUT)))
  }

  function Ponged(h: State, payload: seq<Byte>, now: Instant): State {
    if h.outstanding.Some? && h.outstanding.value.payload == payload && now < h.outstanding.value.deadline
    then h.(outstanding := None) else h
  }

  class WsHeartbeat {
    var sequence: U64
    var outstanding: Option<Ping>

    function Contents(): State
      reads this
    {
      State(sequence, outstanding)
    }

    constructor ()
      ensures Contents() == Idle
    {
      sequence, outstanding := 0, None;
    }

    method SendPing(now: Instant) returns (payload: Option<seq<Byte>>)
      modifies this
      ensures Contents() == old(Pinged(Contents(), now))
      ensures payload == if old(outstanding).Some? then None else Some(outstanding.value.payload)
    {
      if outstanding.Some? {
        return None;
      }
      sequence := if sequence == U64_MAX then 0 else sequence + 1;
      var bytes := Payload(sequence);
      outstanding := Some(Ping(bytes, now + PONG_TIMEOUT));
      payload := Some(bytes);
    }

    method ReceivePong(payload: seq<Byte>, now: Instant)
      modifies this
      ensures Contents() == old(Ponged(Contents(), payload, now))
    {
      if outstanding.Some? && outstanding.value.payload == payload && now < outstanding.value.deadline {
        outstanding := None;
      }
    }

    method Deadline() returns (deadline: Option<Instant>)
      ensures deadline == Contents().Deadline()
    {
      deadline := match outstanding case None => None case Some(p) => Some(p.deadline);
    }
  }

  // ---------------------------------------------------------------- timed runs of a heartbeat

  datatype Beat = Tick(at: Instant) | Pong(payload: seq<Byte>, at: Instant)

  function Beaten(h: State, b: Beat): State {
    match b case Tick(now) => Pinged(h, now) case Pong(payload, now) => Ponged(h, payload, now)
  }

  /** The state after the first i beats. */
  function StateAt(h: State, beats: seq<Beat>, i: nat): State
    requires i <= |beats|
  {
    if i == 0 then h else Beaten(StateAt(h, beats, i - 1), beats[i - 1])
  }

  predicate Timed(beats: seq<Beat>) {
    forall i, j | 0 <= i <= j < |beats| :: beats[i].at <= beats[j].at
  }

  /** The beat sends a ping. */
  predicate Sends(h: State, beats: seq<Beat>, i: nat) {
    i < |beats| && beats[i].Tick? && StateAt(h, beats, i).outstanding.None?
  }

  /** The beat is the one pong that answers p: the same payload, strictly before the deadline. */
  predicate Answers(b: Beat, p: Ping) { b.Pong? && b.payload == p.payload && b.at < p.deadline }

  lemma {:induction false} UnansweredStays(h: State, beats: seq<Beat>, i: nat, j: nat, p: Ping)
    requires i <= j <= |beats| && StateAt(h, beats, i).outstanding == Some(p)
    requires forall k | i <= k < j :: !Answers(beats[k], p)
    ensures StateAt(h, beats, j) == StateAt(h, beats, i)
    decreases j
  {
    if i < j {
      UnansweredStays(h, beats, i, j - 1, p);
    }
  }

  /** At most one ping is outstanding: the next one is sent only after the last was answered with its own
      payload strictly within ten seconds. */
  lemma AnsweredBeforeNext(h: State, beats: seq<Beat>, i: nat, j: nat)
    requires i < j && Sends(h, beats, i) && Sends(h, beats, j)
    ensures var p := StateAt(h, beats, i + 1).outstanding;
            && p.Some? && p.value.deadline == beats[i].at + PONG_TIMEOUT
            && exists k :: i < k < j && Answers(beats[k], p.value)
  {
    var p := StateAt(h, beats, i + 1).outstanding.value;
    if forall k | i + 1 <= k < j :: !Answers(beats[k], p) {
      UnansweredStays(h, beats, i + 1, j, p);
    }
  }

  /** A ping whose deadline has passed stays outstanding for good, whatever arrives afterwards. */
  lemma ExpiredStays(h: State, beats: seq<Beat>, i: nat, j: nat)
    requires Timed(beats) && i < j <= |beats| && StateAt(h, beats, i).Expired(beats[i].at)
    ensures StateAt(h, beats, j) == StateAt(h, beats, i)
  {
    UnansweredStays(h, beats, i, j, StateAt(h, beats, i).outstanding.value);
  }

  /** In a run from the start, an outstanding ping was sent once and not answered since. */
  lemma {:induction false} OutstandingWasSent(beats: seq<Beat>, n: nat) returns (i: nat)
    requires n <= |beats| && StateAt(Idle, beats, n).outstanding.Some?
    ensures i < n && Sends(Idle, beats, i)
    ensures StateAt(Idle, beats, i + 1).outstanding == StateAt(Idle, beats, n).outstanding
    ensures forall k | i < k < n :: !Answers(beats[k], StateAt(Idle, beats, n).outstanding.value)
  {
    if StateAt(Idle, beats, n - 1).outstanding.Some? {
      i := OutstandingWasSent(beats, n - 1);
    } else {
      i := n - 1;
    }
  }

  /** The ping sent at beat i has had ten seconds and no answer among the beats up to n. */
  predicate LeftUnanswered(beats: seq<Beat>, i: nat, n: nat, now: Instant) {
    && i < n <= |beats| && Sends(Idle, beats, i) && beats[i].at + 10_000_000_000 <= now
    && StateAt(Idle, beats, i + 1).outstanding.Some?
    && forall k | i < k < n :: !Answers(beats[k], StateAt(Idle, beats, i + 1).outstanding.value)
  }

  lemma SentPing(h: State, beats: seq<Beat>, i: nat)
    requires Sends(h, beats, i)
    ensures StateAt(h, beats, i + 1).outstanding
            == Some(Ping(Payload(NextSequence(StateAt(h, beats, i).sequence)), beats[i].at + 10_000_000_000))
  {
  }

  /** A connection is overdue exactly if some ping was left unanswered for ten seconds: timely answers keep it
      alive, whatever else arrives, and nothing else does. */
  lemma OverdueExactly(beats: seq<Beat>, n: nat, now: Instant)
    requires n <= |beats|
    ensures StateAt(Idle, beats, n).Expired(now) <==> exists i: nat :: LeftUnanswered(beats, i, n, now)
  {
    if StateAt(Idle, beats, n).outstanding.Some? {
      var i := OutstandingWasSent(beats, n);
      SentPing(Idle, beats, i);
      if StateAt(Idle, beats, n).Expired(now) {
        assert LeftUnanswered(beats, i, n, now);
      }
    }
    forall i: nat | LeftUnanswered(beats, i, n, now) ensures StateAt(Idle, beats, n).Expired(now) {
      SentPing(Idle, beats, i);
      UnansweredStays(Idle, beats, i + 1, n, StateAt(Idle, beats, i + 1).outstanding.value);
    }
  }

  function PingsSent(beats: seq<Beat>, n: nat): nat
    requires n <= |beats|
  {
    if n == 0 then 0 else PingsSent(beats, n - 1) + if Sends(Idle, beats, n - 1) then 1 else 0
  }

  const PING_NUMBERS: nat := 0x1_0000_0000_0000_0000

  lemma CountsOn(n: U64, count: nat)
    requires n == count % PING_NUMBERS
    ensures NextSequence(n) == (count + 1) % PING_NUMBERS
  {
  }

  lemma BeatNumbers(h: State, b: Beat)
    ensures Beaten(h, b).sequence == if b.Tick? && h.outstanding.None? then NextSequence(h.sequence) else h.sequence
  {
  }

  lemma {:induction false} SequenceCounts(beats: seq<Beat>, n: nat)
    requires n <= |beats|
    ensures StateAt(Idle, beats, n).sequence == PingsSent(beats, n) % PING_NUMBERS
  {
    if n > 0 {
      SequenceCounts(beats, n - 1);
      BeatNumbers(StateAt(Idle, beats, n - 1), beats[n - 1]);
      CountsOn(StateAt(Idle, beats, n - 1).sequence, PingsSent(beats, n - 1));
    }
  }

  lemma PayloadNumber(x: U64)
    ensures |Payload(x)| == 8 && Number(Payload(x)) == x
  {
    assert Power256(8) == PING_NUMBERS;
    BigEndianRoundTrip(x, 8);
  }

  /** The k-th ping carries the number k, as eight bytes, counted modulo 2^64. */
  lemma PingsAreNumbered(beats: seq<Beat>, i: nat)
    requires Sends(Idle, beats, i)
    ensures StateAt(Idle, beats, i + 1).outstanding.Some?
    ensures var bytes := StateAt(Idle, beats, i + 1).outstanding.value.payload;
            |bytes| == 8 && Number(bytes) == PingsSent(beats, i + 1) % PING_NUMBERS
  {
    SequenceCounts(beats, i + 1);
    SentPing(Idle, beats, i);
    PayloadNumber(StateAt(Idle, beats, i + 1).sequence);
  }

  /** A pong for the preceding ping never clears the current one. */
  lemma StalePongIgnored(h: State, now: Instant, later: Instant)
    requires h.outstanding.None?
    ensures var current := Pinged(h, now); Ponged(current, Payload(h.sequence), later) == current
  {
    if Payload(NextSequence(h.sequence)) == Payload(h.sequence) {
      PayloadsDistinct(NextSequence(h.sequence), h.sequence);
    }
  }

  // ---------------------------------------------------------------- the supervisor

  /** `seen` is the deadline the supervisor read when it last started to wait. */
  datatype Phase = Top | Waiting(seen: Option<Instant>) | Ended

  /** `watch` is the published deadline, `changed` whether it was published since the supervisor read it. */
  datatype World = World(heart: State, watch: Option<Instant>, changed: bool, now: Instant, phase: Phase)

  datatype Step =
    | Pass(time: nat)
    | Check                              // the test at the head of the supervisor's loop
    | Poll(beats: seq<Beat>, done: bool) // the connection runs until it waits or returns
    | SeeChange
    | Timer

  /** The test at the head of the supervisor's loop. */
  predicate PastPublished(w: World) { w.watch.Some? && w.now >= w.watch.value }

  predicate Enabled(w: World, step: Step) {
    match step
    case Pass(_) => true
    case Check => w.phase.Top?
    case Poll(beats, _) => w.phase.Waiting? && Timed(beats) && (beats != [] ==> beats[0].at >= w.now)
    case SeeChange => w.phase.Waiting? && w.changed
    case Timer => w.phase.Waiting? && w.phase.seen.Some? && w.now >= w.phase.seen.value
  }

  /** The connection publishes its deadline after every beat. */
  function Polled(w: World, beats: seq<Beat>, done: bool): World {
    var heart := StateAt(w.heart, beats, |beats|);
    World(heart, if beats == [] then w.watch else heart.Deadline(), w.changed || beats != [],
          if beats == [] then w.now else Last(beats).at, if done then Ended else w.phase)
  }

  function Apply(w: World, step: Step): World
    requires Enabled(w, step)
  {
    match step
    case Pass(time) => w.(now := w.now + time)
    case Check =>
      if PastPublished(w) then w.(phase := Ended) else w.(phase := Waiting(w.watch), changed := false)
    case Poll(beats, done) => Polled(w, beats, done)
    case SeeChange => w.(phase := Top)
    case Timer => w.(phase := Ended)
  }

  predicate Sound(w: World) {
    && w.watch == w.heart.Deadline()
    && (w.phase.Waiting? && !w.changed ==> w.phase.seen == w.watch)
  }

  predicate Run(w: World, steps: seq<Step>)
    decreases |steps|
  {
    steps == [] || (Enabled(w, steps[0]) && Run(Apply(w, steps[0]), steps[1..]))
  }

  function After(w: World, steps: seq<Step>): World
    requires Run(w, steps)
    decreases |steps|
  {
    if steps == [] then w else After(Apply(w, steps[0]), steps[1..])
  }

  lemma {:induction false} RunKeepsSound(w: World, steps: seq<Step>)
    requires Sound(w) && Run(w, steps)
    ensures Sound(After(w, steps))
    decreases |steps|
  {
    if steps != [] {
      RunKeepsSound(Apply(w, steps[0]), steps[1..]);
    }
  }

  predicate Overdue(w: World) { w.heart.Expired(w.now) }

  lemma PollKeepsOverdue(w: World, beats: seq<Beat>, done: bool)
    requires Overdue(w) && Enabled(w, Poll(beats, done))
    ensures Polled(w, beats, done).heart == w.heart && Polled(w, beats, done).now >= w.now
  {
    if beats != [] {
      ExpiredStays(w.heart, beats, 0, |beats|);
    }
  }

  /** Once a deadline has passed unanswered, no run brings the connection back: the same ping stays
      outstanding and overdue, and the supervisor never starts to wait again. */
  lemma {:induction false} OverdueForever(w: World, steps: seq<Step>)
    requires Sound(w) && Overdue(w) && Run(w, steps)
    ensures After(w, steps).heart == w.heart && Overdue(After(w, steps))
    ensures !w.phase.Waiting? ==> !After(w, steps).phase.Waiting?
    decreases |steps|
  {
    if steps != [] {
      if steps[0].Poll? {
        PollKeepsOverdue(w, steps[0].beats, steps[0].done);
      }
      OverdueForever(Apply(w, steps[0]), steps[1..]);
    }
  }

  /** Past the deadline the supervisor's own exit is always ready: its timer has fired or it has a change
      to look at, and looking at the deadline again ends the connection. */
  lemma ExitIsReady(w: World)
    requires Sound(w) && Overdue(w)
    ensures w.phase.Waiting? ==> Enabled(w, Timer) || Enabled(w, SeeChange)
    ensures Enabled(w, SeeChange) ==> Apply(Apply(w, SeeChange), Check).phase.Ended?
    ensures w.phase.Top? ==> Apply(w, Check).phase.Ended?
  {
  }

  /** The connection is polled only when neither of the supervisor's own branches is ready. */
  predicate PollsLast(w: World, steps: seq<Step>)
    requires Run(w, steps)
    decreases |steps|
  {
    || steps == []
    || ((steps[0].Poll? ==> !Enabled(w, Timer) && !Enabled(w, SeeChange)) && PollsLast(Apply(w, steps[0]), steps[1..]))
  }

  predicate NeverPollsOverdue(w: World, steps: seq<Step>)
    requires Run(w, steps)
    decreases |steps|
  {
    steps == [] || ((steps[0].Poll? ==> !Overdue(w)) && NeverPollsOverdue(Apply(w, steps[0]), steps[1..]))
  }

  /** A waiting supervisor has its exit at hand: with nothing new published its timer has fired, and with
      something new the change it has not looked at names a deadline that has passed. */
  predicate ExitAtHand(w: World)
    requires w.phase.Waiting?
  {
    if w.changed then PastPublished(w) else Enabled(w, Timer)
  }

  /** The supervisor's own view is exact: its exit is at hand exactly in an overdue world, and then the
      timer is the ready branch if nothing new was published, the change and the head test if something was. */
  lemma ExitAtHandExactly(w: World)
    requires Sound(w) && w.phase.Waiting?
    ensures ExitAtHand(w) <==> Overdue(w)
    ensures PastPublished(w) <==> Overdue(w)
    ensures !w.changed ==> !Enabled(w, SeeChange) && (Overdue(w) <==> Enabled(w, Timer))
    ensures w.changed ==> Enabled(w, SeeChange) && (Overdue(w) <==> Apply(Apply(w, SeeChange), Check).phase.Ended?)
  {
  }

  /** No poll is chosen while the supervisor's exit is at hand. */
  predicate NeverPassesExit(w: World, steps: seq<Step>)
    requires Run(w, steps)
    decreases |steps|
  {
    steps == [] || ((steps[0].Poll? ==> !ExitAtHand(w)) && NeverPassesExit(Apply(w, steps[0]), steps[1..]))
  }

  /** The supervisor's promise, exactly: the connection is never polled past an unanswered deadline if and
      only if the wait never prefers the connection while the supervisor's exit is at hand. */
  lemma {:induction false} NeverPollsOverdueExactly(w: World, steps: seq<Step>)
    requires Sound(w) && Run(w, steps)
    ensures NeverPollsOverdue(w, steps) <==> NeverPassesExit(w, steps)
    decreases |steps|
  {
    if steps != [] {
      if w.phase.Waiting? {
        ExitAtHandExactly(w);
      }
      NeverPollsOverdueExactly(Apply(w, steps[0]), steps[1..]);
    }
  }

  /** The supervisor itself ends a connection that is not overdue. */
  predicate EndsHealthy(w: World, step: Step)
    requires Enabled(w, step)
  {
    (step.Check? || step.Timer?) && Apply(w, step).phase.Ended? && !Overdue(w)
  }

  /** It does so exactly by an outdated timer: one that fired for a deadline that was answered in time, with
      the newly published deadline not yet looked at. */
  predicate OutdatedTimer(w: World, step: Step) { step.Timer? && w.changed && !PastPublished(w) }

  lemma EndsHealthyExactly(w: World, step: Step)
    requires Sound(w) && Enabled(w, step)
    ensures EndsHealthy(w, step) <==> OutdatedTimer(w, step)
    ensures Enabled(w, Timer) ==> Apply(w, Timer).phase.Ended?
  {
  }

  predicate NeverEndsHealthy(w: World, steps: seq<Step>)
    requires Run(w, steps)
    decreases |steps|
  {
    steps == [] || (!EndsHealthy(w, steps[0]) && NeverEndsHealthy(Apply(w, steps[0]), steps[1..]))
  }

  predicate NeverUsesOutdatedTimer(w: World, steps: seq<Step>)
    requires Run(w, steps)
    decreases |steps|
  {
    steps == [] || (!OutdatedTimer(w, steps[0]) && NeverUsesOutdatedTimer(Apply(w, steps[0]), steps[1..]))
  }

  /** The supervisor's other promise, exactly: it ends no connection that answered in time if and only if the
      wait never prefers an outdated timer to the change it has not looked at. */
  lemma {:induction false} NeverEndsHealthyExactly(w: World, steps: seq<Step>)
    requires Sound(w) && Run(w, steps)
    ensures NeverEndsHealthy(w, steps) <==> NeverUsesOutdatedTimer(w, steps)
    decreases |steps|
  {
    if steps != [] {
      EndsHealthyExactly(w, steps[0]);
      NeverEndsHealthyExactly(Apply(w, steps[0]), steps[1..]);
    }
  }

  /** A scheduling policy that suffices: if the wait looks at its own branches first, the connection is never
      polled past an unanswered deadline. */
  lemma {:induction false} PollsLastNeverOverdue(w: World, steps: seq<Step>)
    requires Sound(w) && Run(w, steps) && PollsLast(w, steps)
    ensures NeverPollsOverdue(w, steps)
    decreases |steps|
  {
    if steps != [] {
      if Overdue(w) {
        ExitIsReady(w);
      }
      PollsLastNeverOverdue(Apply(w, steps[0]), steps[1..]);
    }
  }

  /** The program's wait picks its branches in no fixed order, so after a late wake-up the connection can be
      polled past its deadline. */
  lemma LatePollCanHappen() returns (steps: seq<Step>)
    ensures Run(World(Idle, None, false, 0, Top), steps)
    ensures !NeverPollsOverdue(World(Idle, None, false, 0, Top), steps)
  {
    var start := World(Idle, None, false, 0, Top);
    var ping := Poll([Tick(0)], false);
    var late := Poll([], false);
    var s1 := Apply(start, Check);
    assert StateAt(Idle, [Tick(0)], 0) == Idle;
    var s2 := Apply(s1, ping);
    assert s2.heart == Pinged(Idle, 0) && s2.changed;
    var s3 := Apply(s2, SeeChange);
    var s4 := Apply(s3, Check);
    var s5 := Apply(s4, Pass(PONG_TIMEOUT));
    assert Overdue(s5) && Enabled(s5, late);
    var tail5 := [late];
    assert tail5[1..] == [] && Run(s5, tail5) && !NeverPollsOverdue(s5, tail5);
    var tail4 := [Pass(PONG_TIMEOUT)] + tail5;
    assert tail4[1..] == tail5 && Run(s4, tail4) && !NeverPollsOverdue(s4, tail4);
    var tail3 := [Check] + tail4;
    assert tail3[1..] == tail4 && Run(s3, tail3) && !NeverPollsOverdue(s3, tail3);
    var tail2 := [SeeChange] + tail3;
    assert tail2[1..] == tail3 && Run(s2, tail2) && !NeverPollsOverdue(s2, tail2);
    var tail1 := [ping] + tail2;
    assert tail1[1..] == tail2 && Run(s1, tail1) && !NeverPollsOverdue(s1, tail1);
    steps := [Check] + tail1;
    assert steps[1..] == tail1;
  }

  lemma OneBeatMore(h: State, beats: seq<Beat>, n: nat)
    requires n < |beats|
    ensures StateAt(h, beats, n + 1) == Beaten(StateAt(h, beats, n), beats[n])
  {
  }

  /** A pong in the last nanosecond, and a supervisor that wakes up only after its timer has fired: the wait
      may then end a connection that answered in time. */
  lemma OutdatedTimerCanFire() returns (steps: seq<Step>)
    ensures Run(World(Idle, None, false, 0, Top), steps)
    ensures !NeverEndsHealthy(World(Idle, None, false, 0, Top), steps)
  {
    var start := World(Idle, None, false, 0, Top);
    var beats := [Tick(0)];
    var answer := [Pong(Payload(1), PONG_TIMEOUT - 1)];
    OneBeatMore(Idle, beats, 0);
    var ping, pong := Poll(beats, false), Poll(answer, false);
    var s1 := Apply(start, Check);
    var s2 := Apply(s1, ping);
    assert s2.heart == Pinged(Idle, 0) && s2.changed;
    var s3 := Apply(s2, SeeChange);
    var s4 := Apply(s3, Check);
    OneBeatMore(s4.heart, answer, 0);
    var s5 := Apply(s4, pong);
    assert s5.heart.outstanding.None? && s5.changed;
    var s6 := Apply(s5, Pass(1));
    assert EndsHealthy(s6, Timer);
    var tail6 := [Timer];
    assert tail6[1..] == [] && Run(s6, tail6) && !NeverEndsHealthy(s6, tail6);
    var tail5 := [Pass(1)] + tail6;
    assert tail5[1..] == tail6 && Run(s5, tail5) && !NeverEndsHealthy(s5, tail5);
    var tail4 := [pong] + tail5;
    assert tail4[1..] == tail5 && Run(s4, tail4) && !NeverEndsHealthy(s4, tail4);
    var tail3 := [Check] + tail4;
    assert tail3[1..] == tail4 && Run(s3, tail3) && !NeverEndsHealthy(s3, tail3);
    var tail2 := [SeeChange] + tail3;
    assert tail2[1..] == tail3 && Run(s2, tail2) && !NeverEndsHealthy(s2, tail2);
    var tail1 := [ping] + tail2;
    assert tail1[1..] == tail2 && Run(s1, tail1) && !NeverEndsHealthy(s1, tail1);
    steps := [Check] + tail1;
    assert steps[1..] == tail1;
  }
}
