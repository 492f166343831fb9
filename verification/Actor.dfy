/** The session actor: the batch loop, civil-day publication, the fatal latch, and timeline replacement,
    each proved to extend the broadcast log only in the ways clients rely on. */
module Actor {
  import opened Protocol
  import opened PublishedLog
  import opened Engine

  const FASTEST_BATCH_MAX_STEPS: nat := 100_000

  // ---------------------------------------------------------------- committed and published frames

  /** The frames of a broadcast tick batch, the day of a broadcast civil update, and whether a broadcast
      announces a day that was not archived. */
  function FramesOf(m: EngineUpdate): seq<TickFrame> {
    if m.update.Some? && m.update.value.TickBatchUpdate? then m.update.value.batch.frames else []
  }

  function DayOf(m: EngineUpdate): seq<CivilUpdate> {
    if m.update.Some? && m.update.value.CivilDayUpdate? then [m.update.value.civil] else []
  }

  predicate IsArchiveLoss(m: EngineUpdate) { m.failure.Some? && m.failure.value.code == DayEndArchiveFailed }

  /** All frames of all broadcast tick batches, in order. */
  function PublishedFrames(log: seq<Entry>): seq<TickFrame> {
    if log == [] then [] else PublishedFrames(log[..|log| - 1]) + FramesOf(Last(log).message)
  }

  /** All broadcast civil days, in order. */
  function PublishedDays(log: seq<Entry>): seq<CivilUpdate> {
    if log == [] then [] else PublishedDays(log[..|log| - 1]) + DayOf(Last(log).message)
  }

  function ArchiveLosses(log: seq<Entry>): nat {
    if log == [] then 0 else ArchiveLosses(log[..|log| - 1]) + if IsArchiveLoss(Last(log).message) then 1 else 0
  }

  lemma LogGrows(log: seq<Entry>, e: Entry)
    ensures PublishedFrames(log + [e]) == PublishedFrames(log) + FramesOf(e.message)
    ensures PublishedDays(log + [e]) == PublishedDays(log) + DayOf(e.message)
    ensures ArchiveLosses(log + [e]) == ArchiveLosses(log) + if IsArchiveLoss(e.message) then 1 else 0
    ensures Keeps(log, log + [e])
  {
    assert (log + [e])[..|log|] == log;
  }

  /** The later sequence keeps everything of the earlier one, where it was. */
  ghost predicate Keeps<T>(early: seq<T>, late: seq<T>) {
    |early| <= |late| && forall i {:trigger SameAt(early, late, i)} | 0 <= i < |early| :: SameAt(early, late, i)
  }

  ghost predicate SameAt<T>(early: seq<T>, late: seq<T>, i: nat)
    requires i < |early| <= |late|
  {
    early[i] == late[i]
  }

  lemma KeepsOn<T>(a: seq<T>, b: seq<T>, c: seq<T>)
    requires Keeps(a, b) && Keeps(b, c)
    ensures Keeps(a, c)
  {
    forall i | 0 <= i < |a| ensures SameAt(a, c, i) {
      assert SameAt(a, b, i) && SameAt(b, c, i);
    }
  }

  /** What grows behind the same front has grown. */
  lemma GrowsBehind<T>(front: seq<T>, early: seq<T>, late: seq<T>, more: seq<T>)
    requires early == front + [] && late == front + more
    ensures Keeps(early, late) && |late| == |early| + |more|
  {
  }

  lemma KeptIsPrefix<T>(early: seq<T>, late: seq<T>)
    requires Keeps(early, late)
    ensures early <= late
  {
    forall i | 0 <= i < |early| ensures early[i] == late[i] {
      assert SameAt(early, late, i);
    }
  }

  /** What a log that has only grown says about fatal failures. */
  lemma LifeOfLog(origin: Head, log: seq<Entry>, more: seq<Entry>)
    requires WellFormedLog(origin, more) && Keeps(log, more)
    ensures log <= more && (HeadAt(origin, log, |log|).fatal.Some? ==> more == log)
    ensures forall i | 0 <= i < |more| && IsFatal(more[i]) ::
              i == |more| - 1 && HeadAt(origin, more, |more|).fatal == more[i].message.failure
  {
    KeptIsPrefix(log, more);
    if HeadAt(origin, log, |log|).fatal.Some? {
      LatchedLogStays(origin, log, more);
    }
    forall i | 0 <= i < |more| && IsFatal(more[i])
      ensures i == |more| - 1 && HeadAt(origin, more, |more|).fatal == more[i].message.failure
    {
      FatalEndsTheLog(origin, more, i);
    }
  }

  function RangeOf(frames: seq<TickFrame>): Option<FrameRange> {
    if frames == [] then None
    else Some(FrameRange(frames[0].tick, Last(frames).tick, frames[0].seqFrom, Last(frames).seqTo))
  }

  /** Frames, if any, that lead from a head to an engine's position. */
  ghost predicate Leads(from: Head, frames: seq<TickFrame>, tick: U64, seqNo: U64) {
    frames != [] ==>
      && ValidFrames(frames)
      && frames[0].tick == from.tick + 1 && frames[0].seqFrom == from.seqNo
      && Last(frames).tick == tick && Last(frames).seqTo == seqNo
  }

  lemma LeadsOn(from: Head, frames: seq<TickFrame>, tick: U64, seqNo: U64, next: TickFrame)
    requires Leads(from, frames, tick, seqNo) && (frames == [] ==> from.tick == tick && from.seqNo == seqNo)
    requires ValidFrame(next) && next.tick == tick + 1 && next.seqFrom == seqNo
    ensures Leads(from, frames + [next], next.tick, next.seqTo)
  {
    ValidFramesAppend(frames, next);
    assert (frames + [next])[0] == if frames == [] then next else frames[0];
  }

  // ---------------------------------------------------------------- failures

  function FailureContext(f: HostFailure, tick: U64, seqNo: U64, day: nat, generation: U64): HostFailure {
    f.(tick := Some(tick), seqNo := Some(seqNo), day := Some(day), generation := Some(generation))
  }

  function NewFailure(code: FailureCode, site: FailureSite, recoverable: bool, operation: Operation,
                      fault: Option<nat>, cause: Option<CauseCode>): HostFailure
  {
    HostFailure(code, site, recoverable, operation, fault, None, None, None, None, cause, None)
  }

  const StepFailure := NewFailure(StepFatal, AtEngineStep, false, StepOp, None, None)

  const ArchiveFailure := NewFailure(DayEndArchiveFailed, AtSaveDayEnd, true, SaveDayEndOp, None, None)

  function CatalogFailure(fault: nat): HostFailure {
    NewFailure(CatalogBaselineFailed, AtPublicBaseline, false, PublicBaselineOp, Some(fault), None)
  }

  function CivilFailure(error: SessionError): HostFailure {
    match error
    case StepFault => StepFailure
    case OtherError(cause) => NewFailure(CivilDaySettlementFailed, AtCivilDay, false, EndCivilDayOp, None, cause)
  }

  function CorrectionFailure(error: SessionError): HostFailure {
    CivilFailure(error).(code := ReportCorrectionPrepareRejected, site := AtPrepareCivilUpdates, recoverable := true)
  }

  /** Of all the failures the actor announces, exactly the rejections of a report correction keep a client's
      stream open, and only for clients of the current timeline. */
  lemma StrictExactly(error: SessionError, fault: nat, tick: U64, seqNo: U64, day: nat, at: U64, current: U64)
    ensures FailureContext(CorrectionFailure(error), tick, seqNo, day, at).IsCorrectionPrepareRejected(current)
            <==> error == OtherError(Some(ReportCorrectionRejected)) && at == current
    ensures !FailureContext(CivilFailure(error), tick, seqNo, day, at).IsCorrectionPrepareRejected(current)
    ensures !FailureContext(CatalogFailure(fault), tick, seqNo, day, at).IsCorrectionPrepareRejected(current)
    ensures !FailureContext(ArchiveFailure, tick, seqNo, day, at).IsCorrectionPrepareRejected(current)
    ensures !FailureContext(StepFailure, tick, seqNo, day, at).IsCorrectionPrepareRejected(current)
  {
  }

  const RejectedCorrection := CorrectionFailure(OtherError(Some(ReportCorrectionRejected)))

  /** A failure has the strict form exactly if it is such a rejection, at some position of the current timeline. */
  lemma StrictIsCorrection(f: HostFailure, current: U64)
    ensures f.IsCorrectionPrepareRejected(current) <==>
              exists tick: U64, seqNo: U64, day: nat ::
                f.(unpublished := None) == FailureContext(RejectedCorrection, tick, seqNo, day, current)
  {
    if f.IsCorrectionPrepareRejected(current) {
      assert f.(unpublished := None)
             == FailureContext(RejectedCorrection, f.tick.value, f.seqNo.value, f.day.value, current);
    }
  }

  // ---------------------------------------------------------------- the actor

  /** The generation, the mailbox and the roster that submitters check intents against. */
  class IngressCell {
    var generation: U64
    var service: Ingress
    var members: map<nat, nat>

    constructor (generation: U64, game: ProtocolSession)
      ensures this.generation == generation && service == game.ingress && members == game.roster
    {
      this.generation, this.service, this.members := generation, game.ingress, game.roster;
    }
  }

  /** What the actor's loop reacts to: a tick of its clock, or a command. A clock turn comes with what it will
      find after each committed frame: whether a command waits, and whether its time slice is spent. Queries
      change nothing. */
  datatype Event =
    | Clock(fastest: bool, waiting: nat -> bool, spent: nat -> bool)
    | AskBaseline(catalogFault: Option<nat>)
    | CompanyWrite(hitFatal: bool)
    | RestoreTo(slot: Result<ProtocolSession, SessionError>)
    | ResetTo(requested: U64, mayControl: bool, replacement: Result<ProtocolSession, SessionError>, renewed: bool)
    | AdvanceCivilDay(requested: U64)
    | SetRunning(on: bool)
    | SetPausePreferences(requested: U64, preferences: CivilUpdate -> bool)
    | Shutdown(closes: bool)
    | Query

  /** The games an event brings along. */
  function Brought(e: Event): set<ProtocolSession> {
    match e
    case RestoreTo(Ok(game)) => {game}
    case ResetTo(_, _, Ok(game), _) => {game}
    case _ => {}
  }

  function AllBrought(events: seq<Event>): set<ProtocolSession> {
    if events == [] then {} else AllBrought(events[..|events| - 1]) + Brought(Last(events))
  }

  function IngressesOf(games: set<ProtocolSession>): set<Ingress> { set game | game in games :: game.ingress }

  lemma {:induction false} BroughtAmong(events: seq<Event>, i: nat)
    requires i < |events|
    ensures Brought(events[i]) <= AllBrought(events)
  {
    if i < |events| - 1 {
      BroughtAmong(events[..|events| - 1], i);
    }
  }

  /** The events from the i-th up to the first shutdown, which ends the loop. */
  function UpToShutdown(events: seq<Event>, i: nat): seq<Event>
    requires i <= |events|
    decreases |events| - i
  {
    if i == |events| then []
    else [events[i]] + if events[i].Shutdown? then [] else UpToShutdown(events, i + 1)
  }

  lemma Joined<T>(a: seq<T>, x: T, b: seq<T>)
    ensures a + ([x] + b) == (a + [x]) + b && a + [] == a
  {
  }

  datatype Baseline = Baseline(cursor: Cursor, failure: Option<HostFailure>)

  datatype AdvanceError = HostFailed | StaleTimeline(requested: U64, current: U64) | EngineRefused(error: SessionError)

  function NextRevision(n: U64): U64 { if n < U64_MAX then n + 1 else n }

  /** Nothing asks a batch to end after k frames: the limit, a waiting command, which a single tick does not
      look for, or the time slice. */
  predicate GoesOn(k: nat, limit: nat, waiting: nat -> bool, spent: nat -> bool) {
    k < limit && !(limit > 1 && waiting(k)) && !(k > 0 && spent(k))
  }

  const Never: nat -> bool := _ => false

  predicate Uncut(n: nat, limit: nat, waiting: nat -> bool, spent: nat -> bool) {
    forall k | 0 <= k < n :: GoesOn(k, limit, waiting, spent)
  }

  // ---------------------------------------------------------------- what turns and commands do

  /** What can be seen of the actor, its game and its mailbox cell between two turns. */
  datatype View = View(log: seq<Entry>, committed: seq<TickFrame>, fatal: Option<HostFailure>, running: bool,
                       revision: U64, generation: U64, preferences: CivilUpdate -> bool,
                       game: ProtocolSession, poisoned: bool, dueDays: nat, date: nat, faults: nat,
                       cellGeneration: U64, mailbox: Ingress, members: map<nat, nat>)
  {
    ghost predicate Rejects() { poisoned || fatal.Some? }
  }

  /** The log and the committed frames only grow. */
  ghost predicate Onward(v: View, w: View) { Keeps(v.log, w.log) && Keeps(v.committed, w.committed) }

  /** A civil day was settled and broadcast. */
  ghost predicate SettledSome(v: View, w: View) { |PublishedDays(w.log)| > |PublishedDays(v.log)| }

  /** What one turn of the clock does. After a fatal failure nothing. Otherwise the batch has exactly the
      frames that nothing cut short, and what cut it short was a reason to end it, a civil day that was then
      settled, or a fault that was announced; faults of the engine, and nothing else, stop the actor; and no
      civil day is left due unless something paused the clock. */
  ghost predicate BatchRan(v: View, w: View, limit: nat, waiting: nat -> bool, spent: nat -> bool) {
    var n := |w.committed| - |v.committed|;
    && Onward(v, w) && w.faults >= v.faults
    && (v.fatal.Some? ==> w.log == v.log && n == 0 && w.running == v.running)
    && (v.fatal.None? ==>
          && Uncut(n, limit, waiting, spent)
          && (w.fatal.Some? ==> v.poisoned || w.faults > v.faults)
          && (v.poisoned || w.faults > v.faults ==>
                !w.running && |w.log| > |v.log| && Last(w.log).message.failure.Some?)
          && (w.fatal.None? && n > 0 ==> |w.log| > |v.log|)
          && (w.faults == v.faults && !v.poisoned ==>
                && (GoesOn(n, limit, waiting, spent) ==> SettledSome(v, w))
                && (n == 0 && v.dueDays == 0 ==> !GoesOn(0, limit, waiting, spent))
                && (v.dueDays > 0 ==> n == 0 && SettledSome(v, w))
                && (w.running ==> w.dueDays == 0)
                && (w.running != v.running ==> SettledSome(v, w))))
  }

  /** A single tick that nothing hinders commits one frame. */
  lemma OneTick(v: View, w: View)
    requires BatchRan(v, w, 1, Never, Never)
    requires v.fatal.None? && !v.poisoned && v.dueDays == 0 && w.faults == v.faults
    ensures w.fatal.None? && |w.committed| == |v.committed| + 1 && w.committed == v.committed + [Last(w.committed)]
  {
    assert GoesOn(0, 1, Never, Never) && !GoesOn(1, 1, Never, Never);
    KeptIsPrefix(v.committed, w.committed);
  }

  lemma NothingLeft<T>(all: seq<T>, front: seq<T>, rest: seq<T>)
    requires all == front + rest
    ensures rest == [] ==> all == front
  {
  }

  /** The first half of a turn: commits and publishes, or stops. */
  ghost predicate Committed(v: View, w: View, limit: nat, waiting: nat -> bool, spent: nat -> bool) {
    var n := |w.committed| - |v.committed|;
    && Onward(v, w) && w.faults >= v.faults && Uncut(n, limit, waiting, spent)
    && |PublishedDays(w.log)| == |PublishedDays(v.log)|
    && (w.fatal.Some? ==>
          w.faults > v.faults && !w.running && |w.log| > |v.log| && Last(w.log).message.failure.Some?)
    && (w.fatal.None? ==>
          && w.faults == v.faults && w.running == v.running
          && (if n == 0 then w.log == v.log && w.dueDays == v.dueDays else v.dueDays == 0 && |w.log| > |v.log|)
          && (GoesOn(n, limit, waiting, spent) ==> w.dueDays > 0))
  }

  /** The batch loop committed n frames and published nothing yet. */
  ghost predicate FramesCommitted(v: View, w: View, n: nat, failed: bool, limit: nat, waiting: nat -> bool,
                                  spent: nat -> bool)
  {
    && w.log == v.log && w.fatal == v.fatal == None && w.running == v.running
    && Keeps(v.committed, w.committed) && |w.committed| == |v.committed| + n && Uncut(n, limit, waiting, spent)
    && w.faults == v.faults + (if failed then 1 else 0)
    && (n > 0 ==> v.dueDays == 0)
    && (!failed ==> (n == 0 ==> w.dueDays == v.dueDays) && (GoesOn(n, limit, waiting, spent) ==> w.dueDays > 0))
  }

  /** Then it published them, or stopped and announced why. */
  ghost predicate PublishedOrStopped(v: View, w: View) {
    && w.committed == v.committed && |PublishedDays(w.log)| == |PublishedDays(v.log)|
    && Keeps(v.log, w.log) && |w.log| > |v.log|
    && (w.fatal.Some? ==> w.faults >= v.faults && !w.running && Last(w.log).message.failure.Some?)
    && (w.fatal.None? ==> w.faults == v.faults && w.running == v.running && w.dueDays == v.dueDays)
  }

  lemma FirstHalf(v: View, m: View, w: View, n: nat, failed: bool, limit: nat, waiting: nat -> bool,
                  spent: nat -> bool)
    requires FramesCommitted(v, m, n, failed, limit, waiting, spent)
    requires if failed || n > 0 then PublishedOrStopped(m, w) else w == m
    requires failed ==> w.fatal.Some?
    requires w.fatal.Some? ==> w.faults > v.faults
    ensures Committed(v, w, limit, waiting, spent)
  {
  }

  /** The second half: settles what is due, or stops. */
  ghost predicate Settled(v: View, w: View) {
    && Onward(v, w) && w.committed == v.committed && w.faults >= v.faults
    && |PublishedDays(w.log)| >= |PublishedDays(v.log)|
    && (w.faults == v.faults ==>
          && w.fatal.None? && (w.running ==> w.dueDays == 0) && (v.dueDays > 0 ==> SettledSome(v, w))
          && (!SettledSome(v, w) ==> w.log == v.log && w.running == v.running))
    && (w.faults > v.faults ==> !w.running && |w.log| > |v.log| && Last(w.log).message.failure.Some?)
  }

  lemma BothHalves(v: View, m: View, w: View, limit: nat, waiting: nat -> bool, spent: nat -> bool)
    requires v.fatal.None? && !v.poisoned && Committed(v, m, limit, waiting, spent)
    requires if m.fatal.Some? then w == m else Settled(m, w)
    ensures BatchRan(v, w, limit, waiting, spent)
  {
    if m.fatal.None? {
      KeepsOn(v.log, m.log, w.log);
    }
  }

  /** Nothing about the running game has changed. */
  ghost predicate Kept(v: View, w: View) {
    && w.log == v.log && w.committed == v.committed && w.fatal == v.fatal && w.running == v.running
    && w.revision == v.revision && w.generation == v.generation && w.preferences == v.preferences && w.game == v.game
  }

  ghost predicate SameCell(v: View, w: View) {
    w.cellGeneration == v.cellGeneration && w.mailbox == v.mailbox && w.members == v.members
  }

  /** The replacement runs the next timeline, paused, and that is announced. */
  ghost predicate Installed(v: View, w: View, replacement: ProtocolSession) {
    && w.game == replacement && w.generation == v.generation + 1 && !w.running
    && w.revision == NextRevision(v.revision)
    && |w.log| == |v.log| + 1 && Keeps(v.log, w.log)
    && Last(w.log).message == EngineUpdate(w.generation, None, w.date, w.revision, None)
  }

  /** Submitters reach the replacement's mailbox, with its roster, under the next generation. */
  ghost predicate Opened(v: View, w: View, replacement: ProtocolSession) {
    && w.cellGeneration == v.generation + 1
    && w.mailbox == replacement.ingress && w.members == replacement.roster
  }

  ghost predicate CanRestore(v: View, slot: Result<ProtocolSession, SessionError>) {
    !v.Rejects() && slot.Ok? && v.generation < U64_MAX
  }

  /** Game, generation, mailbox and roster move to the next timeline together, or nothing changes. */
  ghost predicate Restored(v: View, w: View, slot: Result<ProtocolSession, SessionError>) {
    if CanRestore(v, slot) then Installed(v, w, slot.value) && Opened(v, w, slot.value)
    else Kept(v, w) && SameCell(v, w)
  }

  ghost predicate CanReset(v: View, requested: U64, mayControl: bool,
                           replacement: Result<ProtocolSession, SessionError>)
  {
    !v.Rejects() && requested == v.generation && mayControl && replacement.Ok? && v.generation < U64_MAX
  }

  /** A reset that may not happen changes nothing. One that may replaces the mailbox before it renews the
      archive: it succeeds as a restore does, or a failed renewal leaves the mailbox one generation ahead of
      the game. */
  ghost predicate ResetDone(v: View, w: View, requested: U64, mayControl: bool,
                            replacement: Result<ProtocolSession, SessionError>, renewed: bool)
  {
    if CanReset(v, requested, mayControl, replacement) then
      Opened(v, w, replacement.value) && if renewed then Installed(v, w, replacement.value) else Kept(v, w)
    else Kept(v, w) && SameCell(v, w)
  }

  /** What one event does; without an archive a reset has none to renew. */
  ghost predicate Reacted(v: View, w: View, e: Event, archived: bool) {
    match e
    case Clock(fastest, waiting, spent) =>
      if !v.running then Kept(v, w)
      else if fastest then BatchRan(v, w, FASTEST_BATCH_MAX_STEPS, waiting, spent)
      else BatchRan(v, w, 1, Never, Never)
    case AskBaseline(fault) =>
      && (w.fatal.Some? <==> v.fatal.Some? || fault.Some? || v.poisoned) && (w.fatal == v.fatal ==> w.log == v.log)
    case CompanyWrite(hitFatal) =>
      && (w.fatal.Some? <==> v.fatal.Some? || v.poisoned || hitFatal) && (w.fatal == v.fatal ==> w.log == v.log)
    case RestoreTo(slot) => Restored(v, w, slot)
    case ResetTo(requested, mayControl, replacement, renewed) =>
      ResetDone(v, w, requested, mayControl, replacement, renewed || !archived)
    case AdvanceCivilDay(requested) =>
      if v.fatal.Some? || requested != v.generation then w.log == v.log && w.fatal == v.fatal && w.running == v.running
      else |PublishedDays(w.log)| == |PublishedDays(v.log)| + 1 || w.faults > v.faults
    case SetRunning(on) => w.running == if v.Rejects() then v.running else on
    case SetPausePreferences(requested, preferences) =>
      w.preferences == if v.Rejects() || requested != v.generation then v.preferences else preferences
    case Shutdown(closes) => if closes then w.log == v.log else w.fatal.Some?
    case Query => Kept(v, w)
  }

  ghost predicate ReactedAt(views: seq<View>, events: seq<Event>, k: nat, archived: bool)
    requires k < |events| < |views|
  {
    Reacted(views[k], views[k + 1], events[k], archived)
  }

  /** The actor reacted to these events one after the other, from the first view to the last. */
  ghost predicate Lived(v: View, w: View, views: seq<View>, events: seq<Event>, archived: bool) {
    && |views| == |events| + 1 && views[0] == v && Last(views) == w
    && forall k {:trigger ReactedAt(views, events, k, archived)} | 0 <= k < |events| ::
         ReactedAt(views, events, k, archived)
  }

  lemma LivesOn(v: View, views: seq<View>, events: seq<Event>, e: Event, w: View, archived: bool)
    requires views != [] && Lived(v, Last(views), views, events, archived) && Reacted(Last(views), w, e, archived)
    ensures Lived(v, w, views + [w], events + [e], archived)
  {
    var more, all := views + [w], events + [e];
    forall k | 0 <= k < |all| ensures ReactedAt(more, all, k, archived) {
      if k < |events| {
        assert ReactedAt(views, events, k, archived);
      } else {
        assert more[k] == Last(views) && more[k + 1] == w && all[k] == e;
      }
    }
  }

  /** The events from the start up to the i-th have been lived through; after a shutdown, all there will be. */
  ghost predicate LivedTo(v: View, w: View, views: seq<View>, done: seq<Event>, events: seq<Event>, i: nat,
                          archived: bool)
  {
    i <= |events| && Lived(v, w, views, done, archived) && UpToShutdown(events, 0) == done + UpToShutdown(events, i)
  }

  lemma FirstTurn(v: View, events: seq<Event>, archived: bool)
    ensures LivedTo(v, v, [v], [], events, 0, archived)
  {
    assert [] + UpToShutdown(events, 0) == UpToShutdown(events, 0);
  }

  lemma LastTurn(v: View, w: View, views: seq<View>, done: seq<Event>, events: seq<Event>, archived: bool)
    requires LivedTo(v, w, views, done, events, |events|, archived)
    ensures Lived(v, w, views, UpToShutdown(events, 0), archived)
  {
    assert done + [] == done;
  }

  lemma OneMoreTurn(v: View, m: View, w: View, views: seq<View>, done: seq<Event>, events: seq<Event>, i: nat,
                    archived: bool)
    requires i < |events| && LivedTo(v, m, views, done, events, i, archived)
    requires Reacted(m, w, events[i], archived) && Onward(v, m) && Onward(m, w)
    ensures Onward(v, w)
    ensures LivedTo(v, w, views + [w], done + [events[i]], events, if events[i].Shutdown? then |events| else i + 1,
                archived)
  {
    KeepsOn(v.log, m.log, w.log);
    KeepsOn(v.committed, m.committed, w.committed);
    LivesOn(v, views, done, events[i], w, archived);
    Joined(done, events[i], if events[i].Shutdown? then [] else UpToShutdown(events, i + 1));
  }

  class SessionActor {
    const ingress: IngressCell
    const archive: ArchiveWriter?
    var game: ProtocolSession
    var running: bool
    var pausePreferences: CivilUpdate -> bool
    var publicRevision: U64
    var generation: U64
    var fatalFailure: Option<HostFailure>

    ghost const origin: Head
    ghost var log: seq<Entry>             // everything sent to the broadcast channel
    ghost var committed: seq<TickFrame>   // every frame this actor's engines committed
    ghost var unpublished: seq<TickFrame> // the committed frames a fatal failure kept from publication

    ghost function HeadNow(): Head
      reads this`log
    {
      HeadAt(origin, log, |log|)
    }

    ghost function Now(): View
      reads this, game, ingress
    {
      View(log, committed, fatalFailure, running, publicRevision, generation, pausePreferences,
           game, game.poisoned, game.dueDays, game.date, |game.faults|,
           ingress.generation, ingress.service, ingress.members)
    }

    ghost function Writer(): set<ArchiveWriter> { if archive != null then {archive} else {} }

    /** The log is well formed and its head agrees with the actor's generation and fatal latch. */
    ghost predicate LogAgrees()
      reads this`log, this`generation, this`fatalFailure
    {
      && WellFormedLog(origin, log)
      && HeadNow().generation == generation
      && HeadNow().fatal == fatalFailure
    }

    /** No published position lags behind a healthy engine. */
    ghost predicate CaughtUp()
      reads this`log, this`generation, this`fatalFailure, this`game, game`tick, game`seqNo
    {
      fatalFailure.None? ==> HeadNow().At() == Cursor(game.tick, game.seqNo, generation)
    }

    /** Conservation: the committed frames are the published ones, in order, followed by a batch that the
        engine refused to wrap and whose range the latched fatal failure names. */
    ghost predicate Conserved()
      reads this`log, this`committed, this`unpublished, this`fatalFailure, this`game, game`refused
    {
      && committed == PublishedFrames(log) + unpublished
      && (unpublished != [] ==>
            && fatalFailure.Some? && fatalFailure.value.unpublished == RangeOf(unpublished)
            && unpublished in game.refused)
    }

    /** Every broadcast civil day was given to the archive, in order, and each one it lost was announced. */
    ghost predicate Archived()
      reads this`log, archive
    {
      archive != null ==> archive.offered == PublishedDays(log) && |archive.lost| == ArchiveLosses(log)
    }

    /** A latched fatal failure has stopped the clock. */
    predicate Halted()
      reads this`fatalFailure, this`running
    {
      fatalFailure.Some? ==> !running
    }

    ghost predicate AtRest()
      reads this, game, archive
    {
      LogAgrees() && CaughtUp() && Conserved() && Archived() && Halted()
    }

    constructor (game: ProtocolSession, archive: ArchiveWriter?)
      requires archive != null ==> archive.offered == archive.lost == []
      ensures AtRest() && this.game == game && this.archive == archive && fresh(ingress)
      ensures log == [] && committed == []
      ensures fatalFailure.None? && generation == 1 && !running
      ensures ingress.generation == 1 && ingress.service == game.ingress && ingress.members == game.roster
    {
      this.game, this.archive := game, archive;
      running, publicRevision, generation, fatalFailure := false, 0, 1, None;
      pausePreferences := _ => false;
      ingress := new IngressCell(1, game);
      origin := Head(1, game.tick, game.seqNo, None);
      log, committed, unpublished := [], [], [];
    }

    /** Whether commands must be refused: a poisoned engine or a latched fatal failure. */
    predicate FatalRejection()
      reads this, game
    {
      game.poisoned || fatalFailure.Some?
    }

    method Broadcast(message: EngineUpdate, ghost after: Head)
      requires LogAgrees() && EntryStep(HeadNow(), Entry(message, after))
      requires after.generation == generation
      modifies this`log
      ensures WellFormedLog(origin, log) && HeadNow() == after
      ensures |log| == |old(log)| + 1 && Keeps(old(log), log) && Last(log) == Entry(message, after)
      ensures PublishedFrames(log) == old(PublishedFrames(log)) + FramesOf(message)
      ensures PublishedDays(log) == old(PublishedDays(log)) + DayOf(message)
      ensures ArchiveLosses(log) == old(ArchiveLosses(log)) + if IsArchiveLoss(message) then 1 else 0
    {
      AppendKeepsWellFormed(origin, log, Entry(message, after));
      LogGrows(log, Entry(message, after));
      log := log + [Entry(message, after)];
    }

    method BroadcastFailure(failure: HostFailure)
      requires LogAgrees() && fatalFailure.None?
      modifies this`log
      ensures WellFormedLog(origin, log) && |log| == |old(log)| + 1 && Keeps(old(log), log)
      ensures Last(log).message == EngineUpdate(generation, None, game.date, publicRevision, Some(failure))
      ensures HeadNow() == if failure.recoverable then old(HeadNow()) else old(HeadNow()).(fatal := Some(failure))
      ensures PublishedFrames(log) == old(PublishedFrames(log)) && PublishedDays(log) == old(PublishedDays(log))
      ensures ArchiveLosses(log) == old(ArchiveLosses(log)) + if failure.code == DayEndArchiveFailed then 1 else 0
    {
      var message := EngineUpdate(generation, None, game.date, publicRevision, Some(failure));
      Broadcast(message, if failure.recoverable then HeadNow() else HeadNow().(fatal := Some(failure)));
    }

    /** The failure with the engine's position filled in. */
    function InContext(failure: HostFailure): HostFailure
      reads this, game
    {
      FailureContext(failure, game.tick, game.seqNo, game.day, generation)
    }

    /** Records and announces a failure: a recoverable one only pauses, a non-recoverable one closes the
        mailbox and latches, and once latched no later failure is announced or recorded. */
    method StopWithFailure(failure: HostFailure)
      requires LogAgrees()
      requires failure.recoverable ==> fatalFailure.None?
      modifies this`log, this`fatalFailure, this`running, game.ingress
      ensures LogAgrees() && !running
      ensures fatalFailure == if failure.recoverable || old(fatalFailure).Some? then old(fatalFailure)
              else Some(InContext(failure))
      ensures old(fatalFailure).Some? ==> log == old(log)
      ensures old(fatalFailure).None? ==>
                && |log| == |old(log)| + 1 && Keeps(old(log), log)
                && Last(log).message == EngineUpdate(generation, None, game.date, publicRevision,
                    Some(InContext(failure)))
      ensures failure.recoverable ==> HeadNow() == old(HeadNow())
      ensures game.ingress.closed == (old(game.ingress.closed) || !failure.recoverable)
      ensures PublishedFrames(log) == old(PublishedFrames(log)) && PublishedDays(log) == old(PublishedDays(log))
      ensures ArchiveLosses(log) == old(ArchiveLosses(log))
                + if failure.code == DayEndArchiveFailed && old(fatalFailure).None? then 1 else 0
    {
      if !failure.recoverable {
        game.ingress.Close();
      }
      var complete := FailureContext(failure, game.tick, game.seqNo, game.day, generation);
      running := false;
      if failure.recoverable {
        BroadcastFailure(complete);
        return;
      }
      if fatalFailure.None? {
        BroadcastFailure(complete);
        fatalFailure := Some(complete);
      }
    }

    // -------------------------------------------------------------- batches

    /** A run of committed frames that leads from the published head to the engine. */
    ghost predicate Prefix(frames: seq<TickFrame>)
      reads this, game, archive
    {
      && LogAgrees() && fatalFailure.None? && unpublished == [] && Archived()
      && committed == PublishedFrames(log) + frames
      && (frames == [] ==> CaughtUp())
      && Leads(HeadNow(), frames, game.tick, game.seqNo)
    }

    /** Publishes a batch of exactly these frames, or nothing if the engine refuses to wrap them. */
    method PublishFrames(frames: seq<TickFrame>) returns (published: bool)
      requires Prefix(frames) && frames != []
      modifies this`log, game`faults, game`refused
      ensures Prefix(if published then [] else frames) && PublishedDays(log) == old(PublishedDays(log))
      ensures |game.faults| == |old(game.faults)| + if published then 0 else 1
      ensures published ==>
                && |log| == |old(log)| + 1 && Keeps(old(log), log)
                && FramesOf(Last(log).message) == frames && Last(log).message.publicRevision == publicRevision
      ensures !published ==> log == old(log) && frames in game.refused
    {
      var batch := game.TickBatch(frames);
      match batch {
        case Ok(b) =>
          var message := EngineUpdate(generation, Some(TickBatchUpdate(b)), game.date, publicRevision, None);
          Broadcast(message, Head(generation, game.tick, game.seqNo, None));
            published := true;
        case Err(_) =>
          published := false;
      }
    }

    /** Stops for a failure that names the frames which could not be published, if any. */
    method StopNaming(failure: HostFailure, frames: seq<TickFrame>)
      requires Prefix(frames) && (frames != [] ==> frames in game.refused)
      requires !failure.recoverable && failure.unpublished.None? && failure.code != DayEndArchiveFailed
      modifies this`log, this`fatalFailure, this`running, this`unpublished, game.ingress
      ensures AtRest() && !running && unpublished == frames
      ensures fatalFailure == Some(InContext(failure.(unpublished := RangeOf(frames))))
      ensures |log| == |old(log)| + 1 && Keeps(old(log), log) && Last(log).message.failure == fatalFailure
      ensures PublishedDays(log) == old(PublishedDays(log))
    {
      unpublished := frames;
      StopWithFailure(failure.(unpublished := RangeOf(frames)));
    }

    /** Publishes what it can and then stops for the error, naming what it could not publish. */
    method StopCycleWithUnpublishedFrames(frames: seq<TickFrame>, error: SessionError)
      requires Prefix(frames)
      modifies this`log, this`fatalFailure, this`running, this`unpublished, game`faults, game`refused, game.ingress
      ensures AtRest() && !running && Keeps(old(log), log) && |log| > |old(log)|
      ensures unpublished == [] || unpublished == frames
      ensures fatalFailure == Some(InContext(CivilFailure(error).(unpublished := RangeOf(unpublished))))
      ensures Last(log).message.failure == fatalFailure
      ensures |game.faults| >= |old(game.faults)| && PublishedDays(log) == old(PublishedDays(log))
    {
      var failure := CivilFailure(error);
      if frames != [] {
        PublishAndStop(frames, failure);
      } else {
        StopNaming(failure, []);
      }
    }

    method PublishAndStop(frames: seq<TickFrame>, failure: HostFailure)
      requires Prefix(frames) && frames != []
      requires !failure.recoverable && failure.unpublished.None? && failure.code != DayEndArchiveFailed
      modifies this`log, this`fatalFailure, this`running, this`unpublished, game`faults, game`refused, game.ingress
      ensures AtRest() && !running && Keeps(old(log), log) && |log| > |old(log)|
      ensures unpublished == [] || unpublished == frames
      ensures fatalFailure == Some(InContext(failure.(unpublished := RangeOf(unpublished))))
      ensures Last(log).message.failure == fatalFailure
      ensures |game.faults| >= |old(game.faults)| && PublishedDays(log) == old(PublishedDays(log))
    {
      var published := PublishFrames(frames);
      ghost var between := log;
      StopNaming(failure, if published then [] else frames);
      KeepsOn(old(log), between, log);
    }

    /** Publishes a committed batch, or stops if the engine refuses it. */
    method PublishOrStop(frames: seq<TickFrame>) returns (published: bool)
      requires Prefix(frames) && frames != []
      modifies this`log, this`fatalFailure, this`running, this`unpublished, game`faults, game`refused, game.ingress
      ensures AtRest() && |log| == |old(log)| + 1 && Keeps(old(log), log)
      ensures published <==> fatalFailure.None?
      ensures published ==> running == old(running)
      ensures !published ==>
                && !running && unpublished == frames && Last(log).message.failure == fatalFailure
                && fatalFailure == Some(InContext(StepFailure.(unpublished := RangeOf(frames))))
      ensures |game.faults| == |old(game.faults)| + if published then 0 else 1
      ensures PublishedDays(log) == old(PublishedDays(log))
    {
      published := PublishFrames(frames);
      if !published {
        StopNaming(StepFailure, frames);
      }
    }

    /** The engine reported no error meanwhile. */
    twostate predicate Faultless()
      reads this, game
    {
      |game.faults| == |old(game.faults)|
    }

    /** Meanwhile the engine reported this error, and no other. */
    twostate predicate OneFault(error: SessionError)
      reads this, game
    {
      |game.faults| == |old(game.faults)| + 1 && Last(game.faults) == error
    }

    /** One engine step: the committed prefix grows by the new frame, or stays. */
    method StepGame(ghost frames: seq<TickFrame>) returns (r: Result<TickFrame, SessionError>)
      requires Prefix(frames)
      modifies this`committed, game
      ensures Prefix(if r.Ok? then frames + [r.value] else frames)
      ensures if r.Ok? then Faultless() else OneFault(r.error)
    {
      ghost var tick, seqNo := game.tick, game.seqNo;
      r := game.StepFrame();
      if r.Ok? {
        LeadsOn(HeadNow(), frames, tick, seqNo, r.value);
        committed := committed + [r.value];
      }
    }

    /** One more frame, unless a civil day is due first. */
    method CommitNext(ghost frames: seq<TickFrame>) returns (r: Result<Option<TickFrame>, SessionError>)
      requires Prefix(frames)
      modifies this`committed, game
      ensures Prefix(if r.Ok? && r.value.Some? then frames + [r.value.value] else frames)
      ensures r.Ok? ==> (r.value.Some? <==> old(game.dueDays) == 0)
      ensures r.Ok? && r.value.None? ==> game.dueDays == old(game.dueDays)
      ensures if r.Ok? then Faultless() else OneFault(r.error)
    {
      var ready := game.CivilDayReady();
      if ready.Err? {
        return Err(ready.error);
      }
      if ready.value {
        return Ok(None);
      }
      var step := StepGame(frames);
      match step {
        case Ok(frame) => return Ok(Some(frame));
        case Err(error) => return Err(error);
      }
    }

    /** Steps the engine up to `limit` times; a waiting command, a due civil day, a spent time slice or
        an error ends the prefix, and nothing else does. */
    method CommitFrames(limit: nat, waiting: nat -> bool, spent: nat -> bool)
      returns (frames: seq<TickFrame>, error: Option<SessionError>)
      requires AtRest() && fatalFailure.None?
      modifies this`committed, game
      ensures Prefix(frames)
      ensures Uncut(|frames|, limit, waiting, spent)
      ensures error.None? ==> !GoesOn(|frames|, limit, waiting, spent) || game.dueDays > 0
      ensures old(game.dueDays) > 0 ==> frames == []
      ensures frames == [] && error.None? ==> game.dueDays == old(game.dueDays)
      ensures if error.None? then Faultless() else OneFault(error.value)
    {
      frames, error := [], None;
      while |frames| < limit
        invariant Prefix(frames)
        invariant |frames| <= limit && Uncut(|frames|, limit, waiting, spent)
        invariant if frames == [] then game.dueDays == old(game.dueDays)
                  else old(game.dueDays) == 0 && !spent(|frames|)
        invariant Faultless()
      {
        if limit > 1 && waiting(|frames|) {
          break;
        }
        var next := CommitNext(frames);
        if next.Err? {
          return frames, Some(next.error);
        }
        if next.value.None? {
          break;
        }
        frames := frames + [next.value.value];
        if spent(|frames|) {
          break;
        }
      }
    }

    /** The first half of a turn: commits up to `limit` frames and publishes them as one batch, or stops. */
    method CommitAndPublish(limit: nat, waiting: nat -> bool, spent: nat -> bool) returns (stopped: bool)
      requires AtRest() && fatalFailure.None?
      modifies this`log, this`committed, this`fatalFailure, this`running, this`unpublished, game, game.ingress
      ensures AtRest()
      ensures stopped == fatalFailure.Some? && Committed(old(Now()), Now(), limit, waiting, spent)
    {
      ghost var start := Now();
      var frames, error := CommitFrames(limit, waiting, spent);
      GrowsBehind(PublishedFrames(log), start.committed, committed, frames);
      ghost var between := Now();
      if error.Some? {
        StopCycleWithUnpublishedFrames(frames, error.value);
        stopped := true;
      } else if frames != [] {
        var published := PublishOrStop(frames);
        stopped := !published;
      } else {
        stopped := false;
      }
      FirstHalf(start, between, Now(), |frames|, error.Some?, limit, waiting, spent);
    }

    /** One turn of the clock: commits up to `limit` frames, publishes them as one batch, settles the
        civil days that are due, and stops the actor on the first failure. */
    method RunProtocolBatch(limit: nat, waiting: nat -> bool, spent: nat -> bool)
      requires AtRest()
      modifies this, game, game.ingress, Writer()
      ensures AtRest() && game == old(game) && generation == old(generation)
      ensures BatchRan(old(Now()), Now(), limit, waiting, spent)
    {
      if fatalFailure.Some? {
        return;
      }
      if game.poisoned {
        StopWithFailure(StepFailure);
        return;
      }
      RunHealthyBatch(limit, waiting, spent);
    }

    method RunHealthyBatch(limit: nat, waiting: nat -> bool, spent: nat -> bool)
      requires AtRest() && fatalFailure.None? && !game.poisoned
      modifies this, game, game.ingress, Writer()
      ensures AtRest() && game == old(game) && generation == old(generation)
      ensures BatchRan(old(Now()), Now(), limit, waiting, spent)
    {
      ghost var before := Now();
      var stopped := CommitAndPublish(limit, waiting, spent);
      ghost var between := Now();
      if !stopped {
        SettleDueDays();
      }
      BothHalves(before, between, Now(), limit, waiting, spent);
    }

    /** The second half of a turn: settles what is due, or stops. */
    method SettleDueDays()
      requires AtRest() && fatalFailure.None?
      modifies this`log, this`fatalFailure, this`running, this`publicRevision, game, game.ingress, Writer()
      ensures AtRest() && Settled(old(Now()), Now())
    {
      var outcome := PrepareCivilUpdates();
      ghost var between := log;
      if outcome.Some? {
        StopWithFailure(outcome.value);
      }
      KeepsOn(old(log), between, log);
    }

    /** One clock tick commits and publishes exactly one frame unless a civil day is due or something fails. */
    method TickAndBroadcast()
      requires AtRest()
      modifies this, game, game.ingress, Writer()
      ensures AtRest() && game == old(game) && generation == old(generation)
      ensures BatchRan(old(Now()), Now(), 1, Never, Never)
      ensures old(fatalFailure).None? && !old(game.poisoned) && old(game.dueDays) == 0
              && Faultless() ==>
                && |committed| == |old(committed)| + 1
                && PublishedFrames(log) == old(PublishedFrames(log)) + [Last(committed)]
    {
      ghost var start := Now();
      RunProtocolBatch(1, Never, Never);
      if start.fatal.None? && !start.poisoned && start.dueDays == 0 && Faultless() {
        OneTick(start, Now());
        NothingLeft(old(committed), old(PublishedFrames(log)), old(unpublished));
        NothingLeft(committed, PublishedFrames(log), unpublished);
      }
    }

    method RunFastestBatch(waiting: nat -> bool, spent: nat -> bool)
      requires AtRest()
      modifies this, game, game.ingress, Writer()
      ensures AtRest() && game == old(game) && generation == old(generation)
      ensures BatchRan(old(Now()), Now(), FASTEST_BATCH_MAX_STEPS, waiting, spent)
    {
      RunProtocolBatch(FASTEST_BATCH_MAX_STEPS, waiting, spent);
    }

    // -------------------------------------------------------------- civil days

    /** Offers a settled day to the archive; losing it is announced and pauses the clock. */
    method PersistDayEnd(update: CivilUpdate)
      requires LogAgrees() && fatalFailure.None? && Archived() && Conserved()
      modifies this`log, this`fatalFailure, this`running, game.ingress, Writer()
      ensures LogAgrees() && fatalFailure.None? && HeadNow() == old(HeadNow()) && Conserved()
      ensures archive != null ==>
                archive.offered == old(archive.offered) + [update] && |archive.lost| == ArchiveLosses(log)
      ensures Keeps(old(log), log) && PublishedFrames(log) == old(PublishedFrames(log))
      ensures PublishedDays(log) == old(PublishedDays(log))
      ensures ArchiveLosses(log) == old(ArchiveLosses(log)) ==> log == old(log) && running == old(running)
      ensures ArchiveLosses(log) != old(ArchiveLosses(log)) ==>
                !running && |log| == |old(log)| + 1 && Last(log).message.failure == Some(InContext(ArchiveFailure))
      ensures game.ingress.closed == old(game.ingress.closed)
    {
      if archive != null {
        var kept := archive.SaveDayEnd(update);
        if !kept {
          StopWithFailure(ArchiveFailure);
        }
      }
    }

    method PublishCivilUpdate(update: CivilUpdate)
      requires LogAgrees() && fatalFailure.None? && Conserved() && Archived()
      requires ValidCivil(update) && update.tick == game.tick && update.seqTo == game.seqNo
      requires HeadNow().tick == update.tick && HeadNow().seqNo == update.seqFrom
      modifies this`log, this`fatalFailure, this`running, this`publicRevision, game.ingress, Writer()
      ensures AtRest() && fatalFailure.None? && Keeps(old(log), log)
      ensures PublishedFrames(log) == old(PublishedFrames(log))
      ensures PublishedDays(log) == old(PublishedDays(log)) + [update]
      ensures publicRevision == NextRevision(old(publicRevision))
      ensures |log| > |old(log)|
              && Last(log).message
                 == EngineUpdate(generation, Some(CivilDayUpdate(update)), update.date, publicRevision, None)
      ensures running ==
              (old(running) && !pausePreferences(update) && ArchiveLosses(log) == old(ArchiveLosses(log)))
      ensures game.ingress.closed == old(game.ingress.closed)
    {
      PersistDayEnd(update);
      var pause := pausePreferences(update);
      publicRevision := NextRevision(publicRevision);
      ghost var between := log;
      BroadcastDay(update);
      KeepsOn(old(log), between, log);
      if pause {
        running := false;
      }
    }

    method BroadcastDay(update: CivilUpdate)
      requires LogAgrees() && fatalFailure.None? && Conserved()
      requires ValidCivil(update) && HeadNow().tick == update.tick && HeadNow().seqNo == update.seqFrom
      modifies this`log
      ensures LogAgrees() && Conserved() && HeadNow().At() == Cursor(update.tick, update.seqTo, generation)
      ensures |log| == |old(log)| + 1 && Keeps(old(log), log)
      ensures Last(log).message
              == EngineUpdate(generation, Some(CivilDayUpdate(update)), update.date, publicRevision, None)
      ensures PublishedFrames(log) == old(PublishedFrames(log)) && ArchiveLosses(log) == old(ArchiveLosses(log))
      ensures PublishedDays(log) == old(PublishedDays(log)) + [update]
    {
      var message := EngineUpdate(generation, Some(CivilDayUpdate(update)), update.date, publicRevision, None);
      Broadcast(message, Head(generation, update.tick, update.seqTo, None));
    }

    /** The failure for the first new fault: a correction rejection only if the engine rejected the correction
        before doing anything, is healthy, stands on the same date, and still has the day to settle. */
    twostate predicate ClassifiedFailure(failure: HostFailure)
      reads game, this
    {
      && old(game.faults) < game.faults
      && var error := game.faults[|old(game.faults)|];
         failure == if |game.rejections| > |old(game.rejections)| && Last(game.rejections).correctionPrepareRejected
                       && !game.poisoned && game.date == old(game.date) && game.dueDays > 0
                       && |game.faults| == |old(game.faults)| + 1
                    then CorrectionFailure(error) else CivilFailure(error)
    }

    /** Settles the next due day, if one is due. */
    method SettleNext() returns (r: Result<Option<CivilUpdate>, HostFailure>)
      requires AtRest() && fatalFailure.None?
      modifies game
      ensures LogAgrees() && Conserved() && Archived() && Halted()
      ensures r.Ok? ==> game.faults == old(game.faults) && (r.value.Some? <==> old(game.dueDays) > 0)
      ensures r.Ok? && r.value.None? ==> AtRest() && game.dueDays == 0
      ensures r.Ok? && r.value.Some? ==>
                && game.dueDays == old(game.dueDays) - 1
                && ValidCivil(r.value.value) && r.value.value.tick == game.tick == HeadNow().tick
                && r.value.value.seqTo == game.seqNo && HeadNow().seqNo == r.value.value.seqFrom
      ensures r.Err? ==> AtRest() && ClassifiedFailure(r.error)
    {
      var ready := game.CivilDayReady();
      if ready.Err? {
        return Err(CivilFailure(ready.error));
      }
      if !ready.value {
        return Ok(None);
      }
      var date := game.date;
      var settled := game.EndCivilDay();
      match settled {
        case Err(rejection) =>
          if !rejection.correctionPrepareRejected || fatalFailure.Some? || game.poisoned || game.date != date {
            return Err(CivilFailure(rejection.error));
          }
          var stillReady := game.CivilDayReady();
          if stillReady == Ok(true) {
            return Err(CorrectionFailure(rejection.error));
          }
          return Err(CivilFailure(rejection.error));
        case Ok(update) =>
          return Ok(Some(update));
      }
    }

    /** Settles and publishes every civil day that is due, one at a time, until a pause or a failure. What was
        settled before a failure has been published. */
    method PrepareCivilUpdates() returns (failure: Option<HostFailure>)
      requires AtRest() && fatalFailure.None?
      modifies this`log, this`fatalFailure, this`running, this`publicRevision, game, game.ingress, Writer()
      ensures AtRest() && fatalFailure.None? && Keeps(old(log), log)
      ensures PublishedFrames(log) == old(PublishedFrames(log))
      ensures |PublishedDays(log)| >= |old(PublishedDays(log))|
      ensures failure.None? ==> Faultless() && (game.dueDays == 0 || !running)
      ensures failure.None? && old(game.dueDays) > 0 ==> |PublishedDays(log)| > |old(PublishedDays(log))|
      ensures |PublishedDays(log)| == |old(PublishedDays(log))| ==> log == old(log) && running == old(running)
      ensures failure.Some? ==>
                && old(game.faults) < game.faults && failure.value.unpublished.None?
                && (failure.value == CivilFailure(game.faults[|old(game.faults)|])
                    || (failure.value == CorrectionFailure(game.faults[|old(game.faults)|])
                        && !game.poisoned && game.dueDays > 0 && |game.faults| == |old(game.faults)| + 1))
    {
      while true
        invariant AtRest() && fatalFailure.None? && Keeps(old(log), log)
        invariant PublishedFrames(log) == old(PublishedFrames(log))
        invariant game.faults == old(game.faults)
        invariant |PublishedDays(log)| >= |old(PublishedDays(log))|
        invariant |PublishedDays(log)| == |old(PublishedDays(log))| ==>
                    game.dueDays == old(game.dueDays) && log == old(log) && running == old(running)
        decreases game.dueDays
      {
        var settled := SettleNext();
        match settled {
          case Err(f) =>
            return Some(f);
          case Ok(None) =>
            return None;
          case Ok(Some(update)) =>
            ghost var between := log;
            PublishCivilUpdate(update);
            KeepsOn(old(log), between, log);
            if pausePreferences(update) {
              return None;
            }
        }
      }
    }

    /** Settles one civil day on request; only a step fault stops the actor. */
    method SettleCivilDay(requested: U64) returns (r: Result<CivilUpdate, AdvanceError>)
      requires AtRest()
      modifies this, game, game.ingress, Writer()
      ensures AtRest() && game == old(game) && generation == old(generation)
      ensures Keeps(old(log), log) && committed == old(committed)
      ensures r == Err(HostFailed) <==> old(fatalFailure).Some?
      ensures old(fatalFailure).None? ==>
                (r == Err(StaleTimeline(requested, generation)) <==> requested != generation)
      ensures old(fatalFailure).Some? || requested != generation ==>
                log == old(log) && fatalFailure == old(fatalFailure) && running == old(running)
      ensures old(fatalFailure).None? && requested == generation ==>
                match r
                case Ok(update) =>
                  && PublishedDays(log) == old(PublishedDays(log)) + [update]
                  && game.faults == old(game.faults) && fatalFailure.None?
                case Err(e) =>
                  && e.EngineRefused? && game.faults == old(game.faults) + [e.error]
                  && (if e.error.StepFault? then fatalFailure == Some(InContext(StepFailure))
                      else log == old(log) && fatalFailure.None? && running == old(running))
    {
      if fatalFailure.Some? {
        return Err(HostFailed);
      }
      if requested != generation {
        return Err(StaleTimeline(requested, generation));
      }
      var settled := game.EndCivilDay();
      match settled {
        case Ok(update) =>
          PublishCivilUpdate(update);
          return Ok(update);
        case Err(rejection) =>
          if rejection.error.StepFault? {
            StopWithFailure(StepFailure);
          }
          return Err(EngineRefused(rejection.error));
      }
    }

    // -------------------------------------------------------------- commands

    /** The baseline a client resynchronises from. A healthy one stands exactly at the head of the log. */
    method PublicBaseline(catalogFault: Option<nat>) returns (r: Result<Baseline, HostFailure>)
      requires AtRest()
      modifies this`log, this`fatalFailure, this`running, game.ingress
      ensures AtRest() && Keeps(old(log), log)
      ensures r.Err? <==> catalogFault.Some?
      ensures r.Err? ==> r.error == CatalogFailure(catalogFault.value)
      ensures r.Ok? ==> r.value == Baseline(Cursor(game.tick, game.seqNo, generation), HeadNow().fatal)
      ensures r.Ok? && r.value.failure.None? ==> r.value.cursor == HeadNow().At()
      ensures fatalFailure == if old(fatalFailure).Some? then old(fatalFailure)
              else if catalogFault.Some? then Some(InContext(CatalogFailure(catalogFault.value)))
              else if game.poisoned then Some(InContext(StepFailure))
              else None
      ensures fatalFailure == old(fatalFailure) ==> log == old(log)
      ensures catalogFault.None? && !game.poisoned ==> log == old(log) && running == old(running)
    {
      if catalogFault.Some? {
        StopWithFailure(CatalogFailure(catalogFault.value));
        return Err(CatalogFailure(catalogFault.value));
      }
      if game.poisoned {
        StopWithFailure(StepFailure);
      }
      return Ok(Baseline(Cursor(game.tick, game.seqNo, generation), fatalFailure));
    }

    /** A company command that hits a step fatal, or finds the engine poisoned, stops the actor. */
    method CompanyWriteFatal(hitFatal: bool) returns (failure: Option<HostFailure>)
      requires AtRest()
      modifies this`log, this`fatalFailure, this`running, game.ingress
      ensures AtRest() && Keeps(old(log), log)
      ensures failure == if game.poisoned || hitFatal then Some(StepFailure) else None
      ensures failure.Some? ==>
                fatalFailure == if old(fatalFailure).Some? then old(fatalFailure) else Some(InContext(StepFailure))
      ensures failure.None? ==> fatalFailure == old(fatalFailure) && running == old(running)
      ensures fatalFailure == old(fatalFailure) ==> log == old(log)
    {
      if !game.poisoned && !hitFatal {
        return None;
      }
      StopWithFailure(StepFailure);
      return Some(StepFailure);
    }

    method BroadcastTimelineReset(next: U64)
      requires LogAgrees() && fatalFailure.None? && next == generation + 1
      modifies this`log, this`generation
      ensures LogAgrees() && generation == next && |log| == |old(log)| + 1 && Keeps(old(log), log)
      ensures Last(log).message == EngineUpdate(next, None, game.date, publicRevision, None)
      ensures HeadNow().At() == Cursor(game.tick, game.seqNo, next)
      ensures PublishedFrames(log) == old(PublishedFrames(log)) && PublishedDays(log) == old(PublishedDays(log))
      ensures ArchiveLosses(log) == old(ArchiveLosses(log))
    {
      generation := next;
      var message := EngineUpdate(next, None, game.date, publicRevision, None);
      var entry := Entry(message, Head(next, game.tick, game.seqNo, None));
      AppendKeepsWellFormed(origin, log, entry);
      LogGrows(log, entry);
      log := log + [entry];
    }

    method Install(replacement: ProtocolSession, next: U64)
      requires LogAgrees() && Conserved() && Archived() && fatalFailure.None? && next == generation + 1
      modifies this`game, this`generation, this`publicRevision, this`running, this`log
      ensures AtRest() && fatalFailure.None? && Installed(old(Now()), Now(), replacement)
    {
      game := replacement;
      publicRevision := NextRevision(publicRevision);
      running := false;
      BroadcastTimelineReset(next);
    }

    /** Swaps mailbox and roster under the write lock: the old mailbox closes and the next generation opens. */
    method ReplaceIngress(replacement: ProtocolSession, next: U64)
      modifies ingress, ingress.service
      ensures ingress.generation == next
      ensures ingress.service == replacement.ingress && ingress.members == replacement.roster
      ensures old(ingress.service).closed
    {
      ingress.service.Close();
      ingress.generation, ingress.service, ingress.members := next, replacement.ingress, replacement.roster;
    }

    method Restore(slot: Result<ProtocolSession, SessionError>) returns (ok: bool)
      requires AtRest()
      modifies this, ingress, ingress.service
      ensures AtRest() && Keeps(old(log), log) && committed == old(committed)
      ensures ok == old(CanRestore(Now(), slot)) && Restored(old(Now()), Now(), slot)
      ensures old(ingress.service).closed == (ok || old(ingress.service.closed))
    {
      if FatalRejection() || slot.Err? {
        return false;
      }
      if generation == U64_MAX {
        return false;
      }
      var next := generation + 1;
      ReplaceIngress(slot.value, next);
      Install(slot.value, next);
      return true;
    }

    method Reset(requested: U64, mayControl: bool, replacement: Result<ProtocolSession, SessionError>,
                 archiveRenewed: bool)
      returns (ok: bool)
      requires AtRest()
      modifies this, ingress, ingress.service
      ensures AtRest() && Keeps(old(log), log) && committed == old(committed)
      ensures ok <==> old(CanReset(Now(), requested, mayControl, replacement)) && (archive != null ==> archiveRenewed)
      ensures ResetDone(old(Now()), Now(), requested, mayControl, replacement, archiveRenewed || archive == null)
      ensures old(ingress.service).closed
              == (old(CanReset(Now(), requested, mayControl, replacement)) || old(ingress.service.closed))
    {
      if FatalRejection() || requested != generation || !mayControl || replacement.Err? || generation == U64_MAX {
        return false;
      }
      var next := generation + 1;
      ReplaceIngress(replacement.value, next);
      if archive != null && !archiveRenewed {
        return false;
      }
      Install(replacement.value, next);
      return true;
    }

    // -------------------------------------------------------------- the loop

    /** One turn of the loop. */
    method Handle(e: Event)
      requires AtRest()
      modifies this, ingress, ingress.service, game, game.ingress, Writer()
      ensures AtRest() && Keeps(old(log), log) && Keeps(old(committed), committed)
      ensures Reacted(old(Now()), Now(), e, archive != null)
      ensures game in {old(game)} + Brought(e)
      ensures ingress.service in {old(ingress.service)} + IngressesOf(Brought(e))
    {
      match e {
        case Clock(fastest, waiting, spent) => HandleClock(fastest, waiting, spent);
        case _ => HandleCommand(e);
      }
    }

    method HandleClock(fastest: bool, waiting: nat -> bool, spent: nat -> bool)
      requires AtRest()
      modifies this, game, game.ingress, Writer()
      ensures AtRest() && Keeps(old(log), log) && Keeps(old(committed), committed)
      ensures game == old(game) && Reacted(old(Now()), Now(), Clock(fastest, waiting, spent), archive != null)
    {
      if running {
        if fastest {
          RunFastestBatch(waiting, spent);
        } else {
          TickAndBroadcast();
        }
      }
    }

    method HandleCommand(e: Event)
      requires AtRest() && !e.Clock?
      modifies this, ingress, ingress.service, game, game.ingress, Writer()
      ensures AtRest() && Keeps(old(log), log) && Keeps(old(committed), committed)
      ensures Reacted(old(Now()), Now(), e, archive != null)
      ensures game in {old(game)} + Brought(e)
      ensures ingress.service in {old(ingress.service)} + IngressesOf(Brought(e))
    {
      match e {
        case AskBaseline(fault) => var answer := PublicBaseline(fault);
        case RestoreTo(slot) => var ok := Restore(slot);
        case AdvanceCivilDay(requested) => var settled := SettleCivilDay(requested);
        case CompanyWrite(_) => HandleMemberRequest(e);
        case ResetTo(_, _, _, _) => HandleMemberRequest(e);
        case SetRunning(_) => HandleControl(e);
        case SetPausePreferences(_, _) => HandleControl(e);
        case Shutdown(_) => HandleControl(e);
        case Query => HandleControl(e);
      }
    }

    method HandleControl(e: Event)
      requires AtRest() && (e.SetRunning? || e.SetPausePreferences? || e.Shutdown? || e.Query?)
      modifies this`log, this`fatalFailure, this`running, this`pausePreferences, game.ingress
      ensures AtRest() && Keeps(old(log), log) && committed == old(committed)
      ensures Reacted(old(Now()), Now(), e, archive != null)
      ensures e.Shutdown? ==> game.ingress.closed
    {
      match e {
        case SetRunning(on) =>
          if !FatalRejection() {
            running := on;
          }
        case SetPausePreferences(requested, preferences) =>
          if !FatalRejection() && requested == generation {
            pausePreferences := preferences;
          }
        case Shutdown(closes) => CloseIngress(closes);
        case Query =>
      }
    }

    method CloseIngress(closes: bool)
      requires AtRest()
      modifies this`log, this`fatalFailure, this`running, game.ingress
      ensures AtRest() && Keeps(old(log), log) && game.ingress.closed
      ensures if closes then log == old(log) else fatalFailure.Some?
    {
      if closes {
        game.ingress.Close();
      } else {
        StopWithFailure(CivilFailure(OtherError(None)));
      }
    }

    method HandleMemberRequest(e: Event)
      requires AtRest() && (e.CompanyWrite? || e.ResetTo?)
      modifies this, ingress, ingress.service, game, game.ingress, Writer()
      ensures AtRest() && Keeps(old(log), log) && Keeps(old(committed), committed)
      ensures Reacted(old(Now()), Now(), e, archive != null)
      ensures game in {old(game)} + Brought(e)
      ensures ingress.service in {old(ingress.service)} + IngressesOf(Brought(e))
    {
      match e {
        case CompanyWrite(hitFatal) => var failure := CompanyWriteFatal(hitFatal);
        case ResetTo(requested, mayControl, replacement, renewed) =>
          var ok := Reset(requested, mayControl, replacement, renewed);
      }
    }

    /** One of many events. */
    method HandleNext(events: seq<Event>, i: nat)
      requires AtRest() && i < |events|
      modifies this, ingress, ingress.service, game, game.ingress, Writer()
      ensures AtRest() && Onward(old(Now()), Now()) && Reacted(old(Now()), Now(), events[i], archive != null)
      ensures game in {old(game)} + AllBrought(events)
      ensures ingress.service in {old(ingress.service)} + IngressesOf(AllBrought(events))
    {
      BroughtAmong(events, i);
      Handle(events[i]);
    }

    /** A whole life of the actor, over any sequence of events up to a shutdown: it only ever appends to its
        log, at most one non-recoverable failure is broadcast, it is the last entry and the latched one, nothing
        follows it, every committed frame is published or named by it, and every settled day was archived or
        its loss announced. */
    method Run(events: seq<Event>) returns (ghost views: seq<View>)
      requires AtRest()
      modifies this, ingress, ingress.service, game, game.ingress, Writer(),
               AllBrought(events), IngressesOf(AllBrought(events))
      ensures AtRest() && old(log) <= log && old(committed) <= committed
      ensures Lived(old(Now()), Now(), views, UpToShutdown(events, 0), archive != null)
      ensures old(fatalFailure).Some? ==> log == old(log) && fatalFailure == old(fatalFailure)
      ensures forall i | 0 <= i < |log| && IsFatal(log[i]) :: i == |log| - 1 && fatalFailure == log[i].message.failure
    {
      ghost var start, done := Now(), [];
      views := [start];
      FirstTurn(start, events, archive != null);
      var i := 0;
      while i < |events|
        invariant i <= |events| && LivedTo(start, Now(), views, done, events, i, archive != null)
        invariant AtRest() && Onward(start, Now())
        invariant game in {old(game)} + AllBrought(events)
        invariant ingress.service in {old(ingress.service)} + IngressesOf(AllBrought(events))
      {
        ghost var before := Now();
        HandleNext(events, i);
        OneMoreTurn(start, before, Now(), views, done, events, i, archive != null);
        views, done := views + [Now()], done + [events[i]];
        if events[i].Shutdown? {
          i := |events|;
          break;
        }
        i := i + 1;
      }
      LastTurn(start, Now(), views, done, events, archive != null);
      LifeOfLog(origin, old(log), log);
      KeptIsPrefix(old(committed), committed);
    }
  }
}
