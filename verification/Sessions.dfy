/** The session registry: an atomic counter beside a shared map, a gate for the shared market, and every
    interleaving of creations, failed creations, resumptions and removals. */
module Sessions {
  import opened Protocol

  const MAX_SESSIONS: nat := 2

  // ---------------------------------------------------------------- one caller at a time

  datatype CreateError = Capacity(limit: nat) | InvalidSetup | NotEmpty | Storage

  /** What can go wrong on the way to a registered session. */
  datatype Outcome = Outcome(gameBuilt: bool, creatorBound: bool, archiveActivated: bool, controllersRead: bool,
      controlGranted: bool)

  class SessionManager {
    var sessions: set<nat>
    var activeCount: nat
    var nextId: nat

    /** The count covers the registered sessions and `others` operations of concurrent callers. */
    ghost predicate Counts(others: nat)
      reads this
    {
      && activeCount == |sessions| + others
      && (forall id | id in sessions :: id < nextId)
    }

    constructor ()
      ensures sessions == {} && Counts(0)
    {
      sessions, activeCount, nextId := {}, 0, 0;
    }

    method NewSessionBound(creator: bool, o: Outcome, ghost others: nat) returns (r: Result<nat, CreateError>)
      requires Counts(others)
      modifies this
      ensures Counts(others) && activeCount <= if old(activeCount) < MAX_SESSIONS then MAX_SESSIONS
              else old(activeCount)
      ensures r.Ok? <==> old(activeCount) < MAX_SESSIONS && o.gameBuilt && o.archiveActivated && o.controllersRead
                         && (creator ==> o.creatorBound && o.controlGranted)
      ensures sessions == if r.Ok? then old(sessions) + {r.value} else old(sessions)
      ensures r.Ok? ==> r.value !in old(sessions)
      ensures r.Err? ==>
                r.error == if old(activeCount) >= MAX_SESSIONS then Capacity(2)
                           else if !o.gameBuilt || (creator && !o.creatorBound) then InvalidSetup
                           else Storage
    {
      if activeCount >= MAX_SESSIONS {
        return Err(Capacity(MAX_SESSIONS));
      }
      activeCount := activeCount + 1;
      if !o.gameBuilt {
        activeCount := activeCount - 1;
        return Err(InvalidSetup);
      }
      if creator && !o.creatorBound {
        activeCount := activeCount - 1;
        return Err(InvalidSetup);
      }
      r := RegisterGame(creator, o, others);
    }

    /** Consumes a reservation: either the session is registered or the reservation is returned. */
    method RegisterGame(creator: bool, o: Outcome, ghost others: nat) returns (r: Result<nat, CreateError>)
      requires Counts(others + 1)
      modifies this
      ensures Counts(others) && activeCount <= old(activeCount)
      ensures r.Ok? <==> o.archiveActivated && o.controllersRead && (creator ==> o.controlGranted)
      ensures r.Err? ==> r.error == Storage
      ensures sessions == if r.Ok? then old(sessions) + {r.value} else old(sessions)
      ensures r.Ok? ==> r.value !in old(sessions)
    {
      if !o.archiveActivated {
        activeCount := activeCount - 1;
        return Err(Storage);
      }
      if !o.controllersRead {
        activeCount := activeCount - 1;
        return Err(Storage);
      }
      if creator && !o.controlGranted {
        activeCount := activeCount - 1;
        return Err(Storage);
      }
      var id := nextId;
      nextId := nextId + 1;
      sessions := sessions + {id};
      return Ok(id);
    }

    /** One shared market: an existing one is returned instead of opening another. */
    method NewSharedSession(o: Outcome, ghost others: nat) returns (r: Result<(nat, bool), CreateError>)
      requires Counts(others)
      modifies this
      ensures Counts(others)
      ensures old(sessions) != {} ==> r.Ok? && r.value.0 in sessions && !r.value.1 && sessions == old(sessions)
      ensures old(sessions) == {} ==> |sessions| <= 1 && (r.Ok? ==> sessions == {r.value.0} && r.value.1)
      ensures old(sessions) == {} ==>
                (r.Ok? <==> old(activeCount) < MAX_SESSIONS && o.gameBuilt && o.creatorBound && o.archiveActivated
                            && o.controllersRead && o.controlGranted)
      ensures r.Err? ==> sessions == old(sessions)
    {
      if sessions != {} {
        var id :| id in sessions;
        return Ok((id, false));
      }
      var created := NewSessionBound(true, o, others);
      match created {
        case Ok(id) => return Ok((id, true));
        case Err(error) => return Err(error);
      }
    }

    /** Resuming is allowed only while nothing is counted at all. */
    method ResumeSession(slotLoaded: Result<bool, CreateError>, restored: bool, o: Outcome)
      returns (r: Result<Option<nat>, CreateError>)
      requires exists others :: Counts(others)
      modifies this
      ensures old(activeCount) != 0 ==>
                r == Err(NotEmpty) && sessions == old(sessions) && activeCount == old(activeCount)
      ensures old(activeCount) == 0 ==> Counts(0) && activeCount <= 1
      ensures r.Ok? && r.value.Some? ==> old(activeCount) == 0 && sessions == {r.value.value}
      ensures old(activeCount) == 0 ==>
                if slotLoaded.Err? then r == Err(slotLoaded.error)
                else if !slotLoaded.value then r == Ok(None)
                else if !restored then r == Err(InvalidSetup)
                else if !o.archiveActivated || !o.controllersRead then r == Err(Storage)
                else r.Ok? && r.value.Some?
      ensures r.Err? || r.value.None? ==> sessions == old(sessions)
    {
      if activeCount != 0 {
        return Err(NotEmpty);
      }
      if slotLoaded.Err? {
        return Err(slotLoaded.error);
      }
      if !slotLoaded.value {
        return Ok(None);
      }
      if !restored {
        return Err(InvalidSetup);
      }
      activeCount := activeCount + 1;
      var registered := RegisterGame(false, o, 0);
      match registered {
        case Ok(id) => return Ok(Some(id));
        case Err(error) => return Err(error);
      }
    }

    method Remove(id: nat, ghost others: nat) returns (removed: bool)
      requires Counts(others)
      modifies this
      ensures Counts(others) && removed == (id in old(sessions)) && sessions == old(sessions) - {id}
    {
      removed := id in sessions;
      sessions := sessions - {id};
      if removed {
        activeCount := activeCount - 1;
      }
    }
  }

  // ---------------------------------------------------------------- all interleavings

  /** Who holds the shared-market gate, and how far it got. */
  datatype Gate = Free | SawNoSession(thread: nat) | SawNoCount(thread: nat) | Registering(thread: nat)

  /** `reserved` are the threads holding a reservation, `removing` those that took a session out of the
      map and have not lowered the count yet. */
  datatype Registry = Registry(sessions: set<nat>, active: nat, reserved: set<nat>, removing: set<nat>, gate: Gate)

  const Empty := Registry({}, 0, {}, {}, Free)

  datatype Step =
    | ReserveUngated(thread: nat)
    | EnterShared(thread: nat)
    | ReserveShared(thread: nat)
    | EnterResume(thread: nat)
    | ReserveResumed(thread: nat)
    | GiveUp(thread: nat)
    | CreationFails(thread: nat)
    | Register(thread: nat, id: nat)
    | TakeOut(thread: nat, id: nat)
    | LowerCount(thread: nat)

  predicate Idle(r: Registry, t: nat) {
    t !in r.reserved && t !in r.removing && (r.gate.Free? || r.gate.thread != t)
  }

  predicate Enabled(r: Registry, step: Step) {
    match step
    case ReserveUngated(t) => Idle(r, t)
    case EnterShared(t) => Idle(r, t) && r.gate.Free?
    case ReserveShared(t) => r.gate == SawNoSession(t)
    case EnterResume(t) => Idle(r, t) && r.gate.Free?
    case ReserveResumed(t) => r.gate == SawNoCount(t)
    case GiveUp(t) => r.gate == SawNoCount(t)
    case CreationFails(t) => t in r.reserved
    case Register(t, id) => t in r.reserved && id !in r.sessions
    case TakeOut(t, id) => Idle(r, t)
    case LowerCount(t) => t in r.removing
  }

  /** The gate falls open when the thread holding it is done. */
  function Released(r: Registry, t: nat): Gate {
    if r.gate.Registering? && r.gate.thread == t then Free else r.gate
  }

  /** A decrement of zero would wrap around in the program; here it is left at zero and excluded below. */
  function Lowered(n: nat): nat { if n == 0 then 0 else n - 1 }

  function Apply(r: Registry, step: Step): Registry {
    match step
    case ReserveUngated(t) =>
      if r.active < MAX_SESSIONS then r.(active := r.active + 1, reserved := r.reserved + {t}) else r
    case EnterShared(t) => if r.sessions != {} then r else r.(gate := SawNoSession(t))
    case ReserveShared(t) =>
      if r.active < MAX_SESSIONS then r.(active := r.active + 1, reserved := r.reserved + {t}, gate := Registering(t))
      else r.(gate := Free)
    case EnterResume(t) => if r.active != 0 then r else r.(gate := SawNoCount(t))
    case ReserveResumed(t) => r.(active := r.active + 1, reserved := r.reserved + {t}, gate := Registering(t))
    case GiveUp(_) => r.(gate := Free)
    case CreationFails(t) => r.(active := Lowered(r.active), reserved := r.reserved - {t}, gate := Released(r, t))
    case Register(t, id) => r.(sessions := r.sessions + {id}, reserved := r.reserved - {t}, gate := Released(r, t))
    case TakeOut(t, id) =>
      if id in r.sessions then r.(sessions := r.sessions - {id}, removing := r.removing + {t}) else r
    case LowerCount(t) => r.(active := Lowered(r.active), removing := r.removing - {t})
  }

  /** The count is exact, and a thread is in at most one place. */
  predicate Accounted(r: Registry) {
    && r.active == |r.sessions| + |r.reserved| + |r.removing|
    && r.reserved !! r.removing
    && (r.gate.SawNoSession? || r.gate.SawNoCount? ==> r.gate.thread !in r.reserved && r.gate.thread !in r.removing)
    && (r.gate.Registering? ==> r.gate.thread in r.reserved)
  }

  predicate LowersCount(step: Step) { step.CreationFails? || step.LowerCount? }

  lemma Without(s: set<nat>, x: nat)
    requires x in s
    ensures |s - {x}| == |s| - 1 && |s| > 0
  {
  }

  lemma WithMore(s: set<nat>, x: nat)
    requires x !in s
    ensures |s + {x}| == |s| + 1
  {
  }

  /** A thread that is nowhere yet, or only holds the gate, takes a reservation. */
  lemma ReservingKeepsAccounted(r: Registry, t: nat, gate: Gate)
    requires Accounted(r) && t !in r.reserved && t !in r.removing
    requires gate == Registering(t) || (gate == r.gate && (gate.Free? || gate.thread != t))
    ensures Accounted(r.(active := r.active + 1, reserved := r.reserved + {t}, gate := gate))
  {
    WithMore(r.reserved, t);
  }

  /** A reservation ends, in a session or without one. */
  lemma FailingKeepsAccounted(r: Registry, t: nat)
    requires Accounted(r) && t in r.reserved
    ensures r.active > 0
    ensures Accounted(r.(active := r.active - 1, reserved := r.reserved - {t}, gate := Released(r, t)))
  {
    Without(r.reserved, t);
  }

  lemma RegisteringKeepsAccounted(r: Registry, t: nat, id: nat)
    requires Accounted(r) && t in r.reserved && id !in r.sessions
    ensures Accounted(r.(sessions := r.sessions + {id}, reserved := r.reserved - {t}, gate := Released(r, t)))
  {
    Without(r.reserved, t);
    WithMore(r.sessions, id);
  }

  lemma LoweringKeepsAccounted(r: Registry, t: nat)
    requires Accounted(r) && t in r.removing
    ensures r.active > 0
    ensures Accounted(r.(active := r.active - 1, removing := r.removing - {t}))
  {
    Without(r.removing, t);
  }

  lemma RemovingKeepsAccounted(r: Registry, t: nat, id: nat)
    requires Accounted(r) && Idle(r, t) && id in r.sessions
    ensures Accounted(r.(sessions := r.sessions - {id}, removing := r.removing + {t}))
  {
    Without(r.sessions, id);
    WithMore(r.removing, t);
  }

  /** Every step keeps the count exact, and no step lowers a count of zero. */
  lemma StepKeepsAccounted(r: Registry, step: Step)
    requires Accounted(r) && Enabled(r, step)
    ensures Accounted(Apply(r, step))
    ensures LowersCount(step) ==> r.active > 0
  {
    match step
    case ReserveUngated(t) => ReservingKeepsAccounted(r, t, r.gate);
    case ReserveShared(t) => ReservingKeepsAccounted(r, t, Registering(t));
    case ReserveResumed(t) => ReservingKeepsAccounted(r, t, Registering(t));
    case CreationFails(t) => FailingKeepsAccounted(r, t);
    case Register(t, id) => RegisteringKeepsAccounted(r, t, id);
    case TakeOut(t, id) => if id in r.sessions { RemovingKeepsAccounted(r, t, id); }
    case LowerCount(t) => LoweringKeepsAccounted(r, t);
    case _ =>
  }

  predicate Run(r: Registry, steps: seq<Step>)
    decreases |steps|
  {
    steps == [] || (Enabled(r, steps[0]) && Run(Apply(r, steps[0]), steps[1..]))
  }

  function After(r: Registry, steps: seq<Step>): Registry
    decreases |steps|
  {
    if steps == [] then r else After(Apply(r, steps[0]), steps[1..])
  }

  lemma {:induction false} RunKeepsAccounted(r: Registry, steps: seq<Step>)
    requires Accounted(r) && Run(r, steps)
    ensures Accounted(After(r, steps))
    decreases |steps|
  {
    if steps != [] {
      StepKeepsAccounted(r, steps[0]);
      RunKeepsAccounted(Apply(r, steps[0]), steps[1..]);
    }
  }

  /** No step of the run lowers a count of zero. */
  predicate NeverUnderflows(r: Registry, steps: seq<Step>)
    decreases |steps|
  {
    steps == [] || ((LowersCount(steps[0]) ==> r.active > 0) && NeverUnderflows(Apply(r, steps[0]), steps[1..]))
  }

  lemma {:induction false} RunNeverUnderflows(r: Registry, steps: seq<Step>)
    requires Accounted(r) && Run(r, steps)
    ensures NeverUnderflows(r, steps)
    decreases |steps|
  {
    if steps != [] {
      StepKeepsAccounted(r, steps[0]);
      RunNeverUnderflows(Apply(r, steps[0]), steps[1..]);
    }
  }

  /** Session accounting: after any interleaving of creations, failed creations, resumptions and
      removals, the counter is the registered sessions plus the operations still in flight, and no
      decrement on the way met a zero. */
  lemma CountIsExact(steps: seq<Step>)
    requires Run(Empty, steps)
    ensures var r := After(Empty, steps); r.active == |r.sessions| + |r.reserved| + |r.removing|
    ensures NeverUnderflows(Empty, steps)
  {
    RunKeepsAccounted(Empty, steps);
    RunNeverUnderflows(Empty, steps);
  }

  // ---------------------------------------------------------------- what a run amounts to

  /** The last step about the session registered it. */
  predicate StillRegistered(past: seq<Step>, id: nat) {
    past != [] && ((Last(past).Register? && Last(past).id == id)
        || (!(Last(past).TakeOut? && Last(past).id == id) && StillRegistered(past[..|past| - 1], id)))
  }

  ghost predicate Told(r: Registry, past: seq<Step>) {
    forall id :: id in r.sessions <==> StillRegistered(past, id)
  }

  lemma StepTold(r: Registry, past: seq<Step>, step: Step)
    requires Told(r, past)
    ensures Told(Apply(r, step), past + [step])
  {
    assert (past + [step])[..|past|] == past && Last(past + [step]) == step;
  }

  lemma {:induction false} RunTold(r: Registry, past: seq<Step>, steps: seq<Step>)
    requires Told(r, past)
    ensures Told(After(r, steps), past + steps)
    decreases |steps|
  {
    if steps == [] {
      assert past + steps == past;
    } else {
      StepTold(r, past, steps[0]);
      RunTold(Apply(r, steps[0]), past + [steps[0]], steps[1..]);
      assert past + steps == past + [steps[0]] + steps[1..];
    }
  }

  /** In every interleaving a session is in the map exactly from its registration to its removal. */
  lemma RegisteredUntilRemoved(steps: seq<Step>, id: nat)
    ensures id in After(Empty, steps).sessions <==> StillRegistered(steps, id)
  {
    RunTold(Empty, [], steps);
    assert [] + steps == steps;
  }

  // ---------------------------------------------------------------- the gate is never stuck

  /** The steps of the thread that holds the gate. */
  predicate ByHolder(r: Registry, step: Step) {
    !r.gate.Free? && (step == ReserveShared(r.gate.thread) || step == GiveUp(r.gate.thread)
        || step == CreationFails(r.gate.thread))
  }

  lemma HolderGoesOn(r: Registry) returns (step: Step)
    requires Accounted(r) && !r.gate.Free?
    ensures ByHolder(r, step) && Enabled(r, step)
    ensures Apply(r, step).gate.Free? || (Apply(r, step).gate == Registering(r.gate.thread) && !r.gate.Registering?)
  {
    match r.gate
    case SawNoSession(t) => step := ReserveShared(t);
    case SawNoCount(t) => step := GiveUp(t);
    case Registering(t) => step := CreationFails(t);
  }

  /** Whoever holds the gate can give it back by at most two steps of its own, after every interleaving. */
  lemma GateIsGivenBack(steps: seq<Step>) returns (more: seq<Step>)
    requires Run(Empty, steps)
    ensures |more| <= 2 && Run(After(Empty, steps), more) && After(After(Empty, steps), more).gate.Free?
  {
    RunKeepsAccounted(Empty, steps);
    var r := After(Empty, steps);
    more := GivesBack(r);
  }

  lemma GivesBack(r: Registry) returns (more: seq<Step>)
    requires Accounted(r)
    ensures |more| <= 2 && Run(r, more) && After(r, more).gate.Free?
  {
    if r.gate.Free? {
      more := [];
    } else {
      var first := HolderGoesOn(r);
      StepKeepsAccounted(r, first);
      var s := Apply(r, first);
      if s.gate.Free? {
        more := [first];
        assert more[1..] == [] && Run(s, []) && After(s, []) == s;
      } else {
        var second := HolderGoesOn(s);
        more := [first, second];
        assert more[1..] == [second] && [second][1..] == [];
        assert Run(Apply(s, second), []) && After(Apply(s, second), []) == Apply(s, second);
        assert Run(s, [second]) && After(s, [second]) == Apply(s, second);
      }
    }
  }

  // ---------------------------------------------------------------- gated creators only

  /** Under the gate at most one thread holds a reservation, a session exists only when none does, and
      the resuming thread's check that nothing is counted stays true. */
  predicate Gated(r: Registry) {
    && Accounted(r)
    && r.active <= MAX_SESSIONS
    && (if r.gate.Registering? then r.reserved == {r.gate.thread} && r.sessions == {}
        else r.reserved == {} && |r.sessions| <= 1)
    && (r.gate.SawNoSession? ==> r.sessions == {})
    && (r.gate.SawNoCount? ==> r.active == 0)
  }

  lemma StepKeepsGated(r: Registry, step: Step)
    requires Gated(r) && Enabled(r, step) && !step.ReserveUngated?
    ensures Gated(Apply(r, step))
  {
    StepKeepsAccounted(r, step);
    match step
    case Register(t, id) => assert r.reserved - {t} == {};
    case CreationFails(t) => assert r.reserved - {t} == {};
    case ReserveResumed(t) => assert |r.sessions| == 0;
    case TakeOut(t, id) => if id in r.sessions { Without(r.sessions, id); }
    case _ =>
  }

  /** If only the gated creators run, at most one session ever exists and the count stays within its limit. */
  lemma {:induction false} GatedRunsHoldOneSession(r: Registry, steps: seq<Step>)
    requires Gated(r) && Run(r, steps) && forall i | 0 <= i < |steps| :: !steps[i].ReserveUngated?
    ensures Gated(After(r, steps))
    decreases |steps|
  {
    if steps != [] {
      assert !steps[0].ReserveUngated?;
      StepKeepsGated(r, steps[0]);
      GatedRunsHoldOneSession(Apply(r, steps[0]), steps[1..]);
    }
  }

  lemma OneSharedMarket(steps: seq<Step>)
    requires Run(Empty, steps) && forall i | 0 <= i < |steps| :: !steps[i].ReserveUngated?
    ensures |After(Empty, steps).sessions| <= 1 && After(Empty, steps).active <= MAX_SESSIONS
  {
    GatedRunsHoldOneSession(Empty, steps);
  }

  // ---------------------------------------------------------------- the limit with ungated creators

  /** Past the limit by one at most, and then nobody is between the resuming check and its reservation. */
  predicate Bounded(r: Registry) {
    r.active <= MAX_SESSIONS + 1 && (r.active == MAX_SESSIONS + 1 ==> !r.gate.SawNoCount?)
  }

  /** The reservation that passes the limit: a resuming one on a full count. */
  predicate PassesLimit(r: Registry, step: Step) { step.ReserveResumed? && r.active == MAX_SESSIONS }

  lemma StepKeepsBounded(r: Registry, step: Step)
    requires Bounded(r) && Enabled(r, step)
    ensures Bounded(Apply(r, step))
    ensures r.active <= MAX_SESSIONS ==> (Apply(r, step).active > MAX_SESSIONS <==> PassesLimit(r, step))
  {
  }

  predicate WithinLimit(r: Registry, steps: seq<Step>)
    decreases |steps|
  {
    r.active <= MAX_SESSIONS && (steps == [] || WithinLimit(Apply(r, steps[0]), steps[1..]))
  }

  predicate NeverPassesLimit(r: Registry, steps: seq<Step>)
    decreases |steps|
  {
    steps == [] || (!PassesLimit(r, steps[0]) && NeverPassesLimit(Apply(r, steps[0]), steps[1..]))
  }

  lemma {:induction false} RunBounded(r: Registry, steps: seq<Step>)
    requires Bounded(r) && Run(r, steps)
    ensures Bounded(After(r, steps))
    ensures r.active <= MAX_SESSIONS ==> (WithinLimit(r, steps) <==> NeverPassesLimit(r, steps))
    decreases |steps|
  {
    if steps != [] {
      StepKeepsBounded(r, steps[0]);
      RunBounded(Apply(r, steps[0]), steps[1..]);
    }
  }

  /** The limit, exactly: in every run, ungated creators included, the count stays within the limit in every
      state if and only if no resumption reserves on a full count; and it is never passed by more than one. */
  lemma LimitHoldsExactly(steps: seq<Step>)
    requires Run(Empty, steps)
    ensures WithinLimit(Empty, steps) <==> NeverPassesLimit(Empty, steps)
    ensures After(Empty, steps).active <= MAX_SESSIONS + 1
  {
    RunBounded(Empty, steps);
  }

  /** The resuming path reserves without looking at the limit: two ungated creations between its check
      and its reservation take the count past the limit. */
  lemma UngatedCreationCanPassTheLimit() returns (steps: seq<Step>)
    ensures Run(Empty, steps) && After(Empty, steps).active == MAX_SESSIONS + 1
  {
    steps := [EnterResume(0), ReserveUngated(1), ReserveUngated(2), ReserveResumed(0)];
    var r1 := Apply(Empty, steps[0]);
    var r2 := Apply(r1, steps[1]);
    var r3 := Apply(r2, steps[2]);
    var r4 := Apply(r3, steps[3]);
    assert Run(r4, []) && After(r4, []) == r4;
    assert Run(r3, [ReserveResumed(0)]) && After(r3, [ReserveResumed(0)]) == r4;
    assert Run(r2, [ReserveUngated(2), ReserveResumed(0)]) && After(r2, [ReserveUngated(2), ReserveResumed(0)]) == r4;
    assert Run(r1, steps[1..]) && After(r1, steps[1..]) == r4 by {
      assert steps[1..] == [ReserveUngated(1), ReserveUngated(2), ReserveResumed(0)];
    }
  }
}
