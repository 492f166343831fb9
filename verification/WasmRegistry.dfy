/** The browser host's session handles: an atomic allocator, the worker-local owner map, and the shared
    table of ingress tokens that must agree with it. */
module WasmRegistry {
  import opened Protocol
  import opened Engine

  const U32_MAX: nat := 0xFFFF_FFFF

  type U32 = x: int | 0 <= x <= U32_MAX

  datatype RegistryError = HandlesExhausted | TokenTaken(token: U32) | HandleTaken(handle: U32) | CloseFailed

  datatype ShutdownIssue = UnknownHandle | RevokeFailed | StopFailed(detail: nat)

  datatype ShutdownReport = ShutdownReport(completion: Option<nat>)

  datatype ShutdownFailure = ShutdownFailure(primary: ShutdownIssue, secondary: seq<ShutdownIssue>,
      completion: Option<nat>)

  // ---------------------------------------------------------------- one worker at a time

  class HandleCounter {
    var next: U32

    constructor ()
      ensures next == 1
    {
      next := 1;
    }

    /** Hands out the current number and moves on; after the last 32-bit number it stays exhausted. */
    method Reserve() returns (handle: Option<U32>)
      modifies this
      ensures handle == if old(next) == 0 then None else Some(old(next))
      ensures next == if old(next) == 0 || old(next) == U32_MAX then 0 else old(next) + 1
    {
      if next == 0 {
        return None;
      }
      handle := Some(next);
      next := if next == U32_MAX then 0 else next + 1;
    }
  }

  class IngressTable {
    var entries: map<U32, Ingress>

    constructor ()
      ensures entries == map[]
    {
      entries := map[];
    }
  }

  class SessionRegistry {
    var sessions: map<U32, ProtocolSession>
    const table: IngressTable
    const counter: HandleCounter

    /** Tokens only of owned sessions, each leading to its own session's mailbox. */
    ghost predicate Agrees()
      reads this, table
    {
      && (forall h | h in table.entries :: h in sessions && table.entries[h] == sessions[h].ingress)
      && 0 !in sessions
    }

    constructor (table: IngressTable, counter: HandleCounter)
      requires table.entries == map[]
      ensures this.table == table && this.counter == counter && sessions == map[] && Agrees()
    {
      sessions := map[];
      this.table, this.counter := table, counter;
    }

    method Register(session: ProtocolSession) returns (r: Result<U32, RegistryError>)
      requires Agrees()
      modifies this, table, counter
      ensures Agrees()
      ensures r.Ok? <==> old(counter.next) != 0 && old(counter.next) !in old(sessions)
      ensures r.Ok? ==> r.value == old(counter.next)
                        && sessions == old(sessions)[r.value := session]
                           && table.entries == old(table.entries)[r.value := session.ingress]
      ensures r.Err? ==> sessions == old(sessions) && table.entries == old(table.entries)
      ensures r.Err? ==> r.error == if old(counter.next) == 0 then HandlesExhausted else HandleTaken(old(counter.next))
      ensures counter.next == if old(counter.next) == 0 || old(counter.next) == U32_MAX then 0
              else old(counter.next) + 1
    {
      var reserved := counter.Reserve();
      if reserved.None? {
        return Err(HandlesExhausted);
      }
      var id := reserved.value;
      if id in sessions {
        return Err(HandleTaken(id));
      }
      if id in table.entries {
        return Err(TokenTaken(id));
      }
      table.entries := table.entries[id := session.ingress];
      sessions := sessions[id := session];
      return Ok(id);
    }

    /** Dropping an unknown handle is not an error; a mailbox that cannot be closed keeps its session, but
        its token is gone all the same. */
    method Remove(handle: U32, closes: bool) returns (error: Option<RegistryError>)
      requires Agrees()
      modifies this, table, if handle in table.entries then {table.entries[handle]} else {}
      ensures Agrees() && handle !in table.entries
      ensures table.entries == old(table.entries) - {handle}
      ensures sessions == if error.None? then old(sessions) - {handle} else old(sessions)
      ensures error == if handle in old(table.entries) && !closes then Some(CloseFailed) else None
      ensures handle in old(table.entries) ==>
                old(table.entries)[handle].closed == (closes || old(table.entries[handle].closed))
    {
      if handle !in sessions {
        return None;
      }
      if handle in table.entries {
        var service := table.entries[handle];
        table.entries := table.entries - {handle};
        if !closes {
          return Some(CloseFailed);
        }
        service.Close();
      }
      sessions := sessions - {handle};
      return None;
    }

    /** Takes the owner out first, then revokes the token, then stops the session, and merges what failed:
        a failed revocation always comes first and keeps whatever the stop reported behind it. */
    method ShutdownWithIngressRevoke(handle: U32, closes: bool, stopped: Result<ShutdownReport, ShutdownFailure>)
      returns (r: Result<ShutdownReport, ShutdownFailure>)
      requires Agrees()
      modifies this, table, if handle in table.entries then {table.entries[handle]} else {}
      ensures Agrees() && table.entries == old(table.entries) - {handle} && sessions == old(sessions) - {handle}
      ensures handle in old(table.entries) ==>
                old(table.entries)[handle].closed == (closes || old(table.entries[handle].closed))
      ensures handle !in old(sessions) ==> r == Err(ShutdownFailure(UnknownHandle, [], None))
      ensures handle in old(sessions) ==>
                var revokeFailed := handle in old(table.entries) && !closes;
                && (r.Ok? <==> !revokeFailed && stopped.Ok?)
                && (!revokeFailed ==> r == stopped)
                && (revokeFailed ==>
                      && r.error.primary == RevokeFailed
                      && r.error.secondary == (if stopped.Ok? then []
                         else [stopped.error.primary] + stopped.error.secondary)
                      && r.error.completion == if stopped.Ok? then stopped.value.completion
                         else stopped.error.completion)
    {
      if handle !in sessions {
        return Err(ShutdownFailure(UnknownHandle, [], None));
      }
      sessions := sessions - {handle};
      var revokeFailed := false;
      if handle in table.entries {
        var service := table.entries[handle];
        table.entries := table.entries - {handle};
        if closes {
          service.Close();
        } else {
          revokeFailed := true;
        }
      }
      if !revokeFailed {
        return stopped;
      }
      match stopped {
        case Ok(report) => return Err(ShutdownFailure(RevokeFailed, [], report.completion));
        case Err(failure) => return Err(ShutdownFailure(RevokeFailed, [failure.primary] + failure.secondary,
            failure.completion));
      }
    }
  }

  // ---------------------------------------------------------------- all workers at once

  /** `registering`, `stopping`: handles whose session a worker holds outside the owner map. `retired`:
      handles whose removal or shutdown is complete. */
  datatype Host = Host(next: U32, issued: seq<U32>, sessions: set<U32>, tokens: set<U32>,
                       registering: set<U32>, stopping: set<U32>, retired: set<U32>)

  const Fresh := Host(1, [], {}, {}, {}, {}, {})

  datatype Step =
    | ReserveHandle
    | PublishToken(h: U32)
    | InsertSession(h: U32)
    | RevokeToken(h: U32)
    | DropSession(h: U32)
    | TakeOwner(h: U32)
    | FinishShutdown(h: U32)

  predicate Enabled(s: Host, step: Step) {
    match step
    case ReserveHandle => true
    case PublishToken(h) => h in s.registering
    case InsertSession(h) => h in s.registering && h in s.tokens
    case RevokeToken(h) => h in s.sessions || h in s.stopping
    case DropSession(h) => h in s.sessions && h !in s.tokens
    case TakeOwner(h) => h in s.sessions
    case FinishShutdown(h) => h in s.stopping && h !in s.tokens
  }

  function Apply(s: Host, step: Step): Host {
    match step
    case ReserveHandle =>
      if s.next == 0 then s
      else
        s.(next := if s.next == U32_MAX then 0 else s.next + 1, issued := s.issued + [s.next],
           registering := s.registering + {s.next})
    case PublishToken(h) => s.(tokens := s.tokens + {h})
    case InsertSession(h) => s.(sessions := s.sessions + {h}, registering := s.registering - {h})
    case RevokeToken(h) => s.(tokens := s.tokens - {h})
    case DropSession(h) => s.(sessions := s.sessions - {h}, retired := s.retired + {h})
    case TakeOwner(h) => s.(sessions := s.sessions - {h}, stopping := s.stopping + {h})
    case FinishShutdown(h) => s.(stopping := s.stopping - {h}, retired := s.retired + {h})
  }

  /** Issued handles are non-zero and strictly increasing, and below the counter until it is exhausted;
      each is in one stage of its life; and a token belongs to a handle that is still alive. */
  predicate Sound(s: Host) {
    && (forall i | 0 <= i < |s.issued| :: 0 < s.issued[i] && (s.next != 0 ==> s.issued[i] < s.next))
    && (forall i, j | 0 <= i < j < |s.issued| :: s.issued[i] < s.issued[j])
    && (forall h | h in s.sessions + s.registering + s.stopping + s.retired :: h in s.issued)
    && s.sessions !! s.registering !! s.stopping !! s.retired
    && s.tokens <= s.sessions + s.registering + s.stopping
  }

  lemma StepKeepsSound(s: Host, step: Step)
    requires Sound(s) && Enabled(s, step)
    ensures Sound(Apply(s, step))
    ensures s.retired <= Apply(s, step).retired && s.issued <= Apply(s, step).issued
    ensures s.next == 0 ==> Apply(s, step).next == 0 && Apply(s, step).issued == s.issued
  {
    if step.ReserveHandle? && s.next != 0 {
      assert s.next !in s.issued;
      assert s.next in Apply(s, step).issued;
    }
  }

  predicate Run(s: Host, steps: seq<Step>)
    decreases |steps|
  {
    steps == [] || (Enabled(s, steps[0]) && Run(Apply(s, steps[0]), steps[1..]))
  }

  function After(s: Host, steps: seq<Step>): Host
    decreases |steps|
  {
    if steps == [] then s else After(Apply(s, steps[0]), steps[1..])
  }

  lemma {:induction false} RunKeepsSound(s: Host, steps: seq<Step>)
    requires Sound(s) && Run(s, steps)
    ensures var e := After(s, steps);
            && Sound(e) && s.retired <= e.retired && s.issued <= e.issued
            && (s.next == 0 ==> e.next == 0 && e.issued == s.issued)
    decreases |steps|
  {
    if steps != [] {
      StepKeepsSound(s, steps[0]);
      RunKeepsSound(Apply(s, steps[0]), steps[1..]);
    }
  }

  /** Over every concurrent run: handles are distinct, non-zero and handed out in increasing order, and
      while no worker is in the middle of a registration or shutdown every token has a live session. */
  lemma HandlesAreSound(steps: seq<Step>)
    requires Run(Fresh, steps)
    ensures var s := After(Fresh, steps);
            && (forall i, j | 0 <= i < j < |s.issued| :: 0 < s.issued[i] < s.issued[j])
            && (s.registering == s.stopping == {} ==> s.tokens <= s.sessions)
  {
    RunKeepsSound(Fresh, steps);
  }

  /** A handle whose token is gone for good: handed out, past its registration, and without a token. */
  predicate Revoked(s: Host, h: U32) { h in s.issued && h !in s.registering && h !in s.tokens }

  lemma {:induction false} RevokedStays(s: Host, steps: seq<Step>, h: U32)
    requires Sound(s) && Run(s, steps) && Revoked(s, h)
    ensures Revoked(After(s, steps), h)
    decreases |steps|
  {
    if steps != [] {
      StepKeepsSound(s, steps[0]);
      RevokedStays(Apply(s, steps[0]), steps[1..], h);
    }
  }

  /** Taking a live handle's token away revokes it at once, also if its session then fails to close. */
  lemma RevokingRevokes(s: Host, h: U32)
    requires Sound(s) && Enabled(s, RevokeToken(h))
    ensures Revoked(Apply(s, RevokeToken(h)), h)
  {
  }

  ghost predicate NeverResolvesAgain(s: Host, h: U32) { forall later | Run(s, later) :: h !in After(s, later).tokens }

  lemma OneStep(s: Host, step: Step)
    requires Enabled(s, step)
    ensures Run(s, [step]) && After(s, [step]) == Apply(s, step)
  {
    assert [step][1..] == [];
    assert Run(Apply(s, step), []) && After(Apply(s, step), []) == Apply(s, step);
  }

  lemma ResolvesAtOnce(s: Host, h: U32)
    requires h in s.tokens || h in s.registering
    ensures !NeverResolvesAgain(s, h)
  {
    if h in s.tokens {
      assert Run(s, []) && After(s, []) == s;
    } else {
      OneStep(s, PublishToken(h));
    }
  }

  /** Revocation is final, exactly: after any run the token of an issued handle can never resolve again if
      and only if it is revoked, whether or not its session was ever closed, dropped or retired. */
  lemma RevocationIsFinal(steps: seq<Step>, h: U32)
    requires Run(Fresh, steps) && h in After(Fresh, steps).issued
    ensures var s := After(Fresh, steps); Revoked(s, h) <==> NeverResolvesAgain(s, h)
  {
    RunKeepsSound(Fresh, steps);
    var s := After(Fresh, steps);
    if Revoked(s, h) {
      forall later | Run(s, later) ensures h !in After(s, later).tokens {
        RevokedStays(s, later, h);
      }
    } else {
      ResolvesAtOnce(s, h);
    }
  }

  /** A retired token never resolves again, and exhaustion is permanent, whatever happens later. */
  lemma RetirementAndExhaustionAreFinal(steps: seq<Step>, later: seq<Step>, h: U32)
    requires Run(Fresh, steps) && Run(After(Fresh, steps), later)
    ensures h in After(Fresh, steps).retired ==> h !in After(After(Fresh, steps), later).tokens
    ensures After(Fresh, steps).next == 0 ==> After(After(Fresh, steps), later).issued == After(Fresh, steps).issued
  {
    RunKeepsSound(Fresh, steps);
    RunKeepsSound(After(Fresh, steps), later);
  }

  // ---------------------------------------------------------------- what a run amounts to

  /** The last step about the token of h published it. */
  predicate TokenPublished(past: seq<Step>, h: U32) {
    past != [] && (Last(past) == PublishToken(h)
        || (Last(past) != RevokeToken(h) && TokenPublished(past[..|past| - 1], h)))
  }

  function Reservations(past: seq<Step>): nat {
    if past == [] then 0 else Reservations(past[..|past| - 1]) + if Last(past).ReserveHandle? then 1 else 0
  }

  /** Handles count up from one and stop with the last 32-bit number, after which the counter stays at zero. */
  predicate CountsUp(s: Host, past: seq<Step>) {
    && |s.issued| == (if Reservations(past) < U32_MAX then Reservations(past) else U32_MAX)
    && (forall i | 0 <= i < |s.issued| :: s.issued[i] == i + 1)
    && s.next == if |s.issued| == U32_MAX then 0 else |s.issued| + 1
  }

  /** Where a handle is in its life, told by what has happened to it. */
  predicate StageTold(s: Host, past: seq<Step>, h: U32) {
    && (h in s.registering <==> h in s.issued && InsertSession(h) !in past)
    && (h in s.sessions <==> InsertSession(h) in past && DropSession(h) !in past && TakeOwner(h) !in past)
    && (h in s.stopping <==> TakeOwner(h) in past && FinishShutdown(h) !in past)
    && (h in s.retired <==> DropSession(h) in past || FinishShutdown(h) in past)
    && (DropSession(h) in past || TakeOwner(h) in past ==> InsertSession(h) in past)
    && (InsertSession(h) in past ==> h in s.issued)
    && (FinishShutdown(h) in past ==> TakeOwner(h) in past)
  }

  ghost predicate Told(s: Host, past: seq<Step>) {
    && CountsUp(s, past)
    && (forall h: U32 :: h in s.tokens <==> TokenPublished(past, h))
    && (forall h: U32 :: StageTold(s, past, h))
  }

  lemma OneMoreStep(past: seq<Step>, step: Step)
    ensures (past + [step])[..|past|] == past && Last(past + [step]) == step
    ensures forall x :: x in past + [step] <==> x in past || x == step
  {
  }

  lemma StepCountsUp(s: Host, past: seq<Step>, step: Step)
    requires CountsUp(s, past)
    ensures CountsUp(Apply(s, step), past + [step])
  {
    OneMoreStep(past, step);
  }

  lemma StepToldTokens(s: Host, past: seq<Step>, step: Step, h: U32)
    requires h in s.tokens <==> TokenPublished(past, h)
    ensures h in Apply(s, step).tokens <==> TokenPublished(past + [step], h)
  {
    OneMoreStep(past, step);
  }

  /** The handle that is handed out next has no history. */
  lemma NextIsNew(s: Host, past: seq<Step>)
    requires CountsUp(s, past)
    ensures s.next != 0 ==> s.next !in s.issued
  {
  }

  lemma StepStage(s: Host, past: seq<Step>, step: Step, h: U32)
    requires StageTold(s, past, h) && Enabled(s, step) && (s.next != 0 ==> s.next !in s.issued)
    ensures StageTold(Apply(s, step), past + [step], h)
  {
    OneMoreStep(past, step);
  }

  lemma StepTold(s: Host, past: seq<Step>, step: Step)
    requires Told(s, past) && Enabled(s, step)
    ensures Told(Apply(s, step), past + [step])
  {
    StepCountsUp(s, past, step);
    forall h: U32 ensures h in Apply(s, step).tokens <==> TokenPublished(past + [step], h) {
      StepToldTokens(s, past, step, h);
    }
    NextIsNew(s, past);
    forall h: U32 ensures StageTold(Apply(s, step), past + [step], h) {
      StepStage(s, past, step, h);
    }
  }

  lemma {:induction false} RunTold(s: Host, past: seq<Step>, steps: seq<Step>)
    requires Told(s, past) && Run(s, steps)
    ensures Told(After(s, steps), past + steps)
    decreases |steps|
  {
    if steps == [] {
      assert past + steps == past;
    } else {
      StepTold(s, past, steps[0]);
      RunTold(Apply(s, steps[0]), past + [steps[0]], steps[1..]);
      assert past + steps == past + [steps[0]] + steps[1..];
    }
  }

  /** Every concurrent run from the start: the handles issued so far count up from one, a token resolves
      exactly if it was published and not revoked since, and each handle is registered, live, stopping or
      retired as its own steps say. */
  lemma RunsTellStages(steps: seq<Step>)
    requires Run(Fresh, steps)
    ensures Told(After(Fresh, steps), steps)
  {
    RunTold(Fresh, [], steps);
    assert [] + steps == steps;
  }
}
