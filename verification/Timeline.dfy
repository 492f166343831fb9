/** Timeline replacement against concurrent intent submission: a mailbox cell guarded by a lock, the
    actor's own game and generation, and every interleaving of submitters with Restore and Reset. */
module Timeline {
  import opened Protocol
  import opened Engine
  import Actor

  // ---------------------------------------------------------------- submitting an intent

  datatype SubmitError = ActorGone | StaleGeneration(current: U64) | NotAMember | Refused(error: EnqueueError)

  /** The submitters' side of a session: the mailbox cell it shares with the actor. */
  class SessionHandles {
    const ingress: Actor.IngressCell

    constructor (ingress: Actor.IngressCell)
      ensures this.ingress == ingress
    {
      this.ingress := ingress;
    }

    /** Why an intent for this account is refused, in the order of the checks. */
    function Refusal(commandsClosed: bool, generation: U64, account: nat): Option<SubmitError>
      reads ingress, ingress.service
    {
      if commandsClosed then Some(ActorGone)
      else if generation != ingress.generation then Some(StaleGeneration(ingress.generation))
      else if ingress.service.closed then Some(Refused(MailboxClosed))
      else if account !in ingress.service.players then Some(Refused(UnknownPlayer))
      else None
    }

    function RefusalFor(commandsClosed: bool, generation: U64, subject: nat): Option<SubmitError>
      reads ingress, ingress.service
    {
      if !commandsClosed && generation == ingress.generation && subject !in ingress.members then Some(NotAMember)
      else Refusal(commandsClosed, generation, if subject in ingress.members then ingress.members[subject] else 0)
    }

    /** An accepted intent enters the mailbox that the requested generation names, at the end, and no other. */
    method EnqueueAs(commandsClosed: bool, generation: U64, account: nat, intent: Intent)
      returns (error: Option<SubmitError>)
      modifies ingress.service`inbox
      ensures error == old(Refusal(commandsClosed, generation, account))
      ensures error.None? <==>
                !commandsClosed && generation == ingress.generation && !ingress.service.closed
                    && account in ingress.service.players
      ensures ingress.service.inbox == if error.None? then old(ingress.service.inbox) + [(account, intent)]
              else old(ingress.service.inbox)
    {
      if commandsClosed {
        return Some(ActorGone);
      }
      if generation != ingress.generation {
        return Some(StaleGeneration(ingress.generation));
      }
      var refused := ingress.service.EnqueuePlayerIntent(account, intent);
      return if refused.Some? then Some(Refused(refused.value)) else None;
    }

    /** As above for an authenticated subject, who must be a member; nobody is sent to account 0 instead. */
    method EnqueueFor(commandsClosed: bool, generation: U64, subject: nat, intent: Intent)
      returns (error: Option<SubmitError>)
      modifies ingress.service`inbox
      ensures error.None? <==>
                && !commandsClosed && generation == ingress.generation && subject in ingress.members
                && !ingress.service.closed && ingress.members[subject] in ingress.service.players
      ensures error == old(RefusalFor(commandsClosed, generation, subject))
      ensures ingress.service.inbox
              == if error.None? then old(ingress.service.inbox) + [(ingress.members[subject], intent)]
                 else old(ingress.service.inbox)
    {
      if commandsClosed {
        return Some(ActorGone);
      }
      if generation != ingress.generation {
        return Some(StaleGeneration(ingress.generation));
      }
      if subject !in ingress.members {
        return Some(NotAMember);
      }
      var refused := ingress.service.EnqueuePlayerIntent(ingress.members[subject], intent);
      return if refused.Some? then Some(Refused(refused.value)) else None;
    }
  }

  // ---------------------------------------------------------------- all interleavings

  /** Game i owns mailbox i; `mailboxes` counts them. Between the mailbox swap and the installation a
      replacement is in flight. */
  datatype Phase = AtRest | Replacing(next: U64, game: nat, isReset: bool)

  /** `owner[g - 1]` is the game installed for generation g; `accepted` records each accepted intent with
      the generation it was submitted for and the mailbox it entered. */
  datatype Session = Session(generation: U64, game: nat, cellGeneration: U64, cellMailbox: nat,
                             mailboxes: nat, closed: set<nat>, phase: Phase, orphaned: bool,
                             owner: seq<nat>, accepted: seq<(U64, nat)>)

  const Opening := Session(1, 0, 1, 0, 1, {}, AtRest, false, [0], [])

  datatype Step =
    | Submit(generation: U64)
    | SwapMailbox(isReset: bool)
    | InstallGame
    | RenewalFails
    | CloseMailbox

  predicate Enabled(s: Session, step: Step) {
    match step
    case Submit(_) => true
    case SwapMailbox(_) => s.phase.AtRest? && s.generation < U64_MAX
    case InstallGame => s.phase.Replacing?
    case RenewalFails => s.phase.Replacing? && s.phase.isReset
    case CloseMailbox => s.phase.AtRest?
  }

  predicate Accepts(s: Session, generation: U64) {
    generation == s.cellGeneration && s.cellMailbox !in s.closed
  }

  function Apply(s: Session, step: Step): Session
    requires Enabled(s, step)
  {
    match step
    case Submit(g) => if Accepts(s, g) then s.(accepted := s.accepted + [(g, s.cellMailbox)]) else s
    case SwapMailbox(isReset) =>
      s.(cellGeneration := s.generation + 1, cellMailbox := s.mailboxes, mailboxes := s.mailboxes + 1,
         closed := s.closed + {s.cellMailbox}, phase := Replacing(s.generation + 1, s.mailboxes, isReset))
    case InstallGame =>
      s.(game := s.phase.game, generation := s.phase.next, phase := AtRest, orphaned := false,
         owner := s.owner + [s.phase.game])
    case RenewalFails => s.(phase := AtRest, orphaned := true)
    case CloseMailbox => s.(closed := s.closed + {s.game})
  }

  predicate Run(s: Session, steps: seq<Step>)
    decreases |steps|
  {
    steps == [] || (Enabled(s, steps[0]) && Run(Apply(s, steps[0]), steps[1..]))
  }

  function After(s: Session, steps: seq<Step>): Session
    requires Run(s, steps)
    decreases |steps|
  {
    if steps == [] then s else After(Apply(s, steps[0]), steps[1..])
  }

  /** Runs go on: a run and a step enabled at its end are a run. */
  lemma {:induction false} RunExtends(s: Session, steps: seq<Step>, step: Step)
    requires Run(s, steps) && Enabled(After(s, steps), step)
    ensures Run(s, steps + [step]) && After(s, steps + [step]) == Apply(After(s, steps), step)
    decreases |steps|
  {
    if steps == [] {
      assert [step][1..] == [];
    } else {
      assert (steps + [step])[1..] == steps[1..] + [step];
      RunExtends(Apply(s, steps[0]), steps[1..], step);
    }
  }

  // ---------------------------------------------------------------- cell and actor in step

  /** The cell is never behind the actor and at most one generation ahead; ahead exactly while a
      replacement is in flight or after one failed. */
  predicate InStep(s: Session) {
    && s.generation <= s.cellGeneration <= s.generation + 1
    && (s.cellGeneration == s.generation <==> s.phase.AtRest? && !s.orphaned)
    && (s.cellGeneration == s.generation ==> s.cellMailbox == s.game)
    && (s.phase.Replacing? ==> s.phase.next == s.cellGeneration && s.phase.game == s.cellMailbox)
  }

  /** Every mailbox but the cell's is closed, and a cell that is ahead holds no installed game's mailbox. */
  predicate Sound(s: Session) {
    && InStep(s)
    && s.game < s.mailboxes && s.cellMailbox < s.mailboxes
    && (forall i | 0 <= i < s.mailboxes && i != s.cellMailbox :: i in s.closed)
    && (forall i | i in s.closed :: i < s.mailboxes)
    && s.owner != [] && |s.owner| == s.generation && Last(s.owner) == s.game
    && (forall i | 0 <= i < |s.owner| :: s.owner[i] < s.mailboxes)
    && (s.cellGeneration != s.generation ==> forall i | 0 <= i < |s.owner| :: s.owner[i] != s.cellMailbox)
  }

  lemma StepKeepsSound(s: Session, step: Step)
    requires Sound(s) && Enabled(s, step)
    ensures Sound(Apply(s, step))
    ensures s.generation <= Apply(s, step).generation && s.owner <= Apply(s, step).owner
    ensures s.accepted <= Apply(s, step).accepted
  {
  }

  /** Generations only grow and no game loses its generation, over every run. */
  lemma {:induction false} RunKeepsSound(s: Session, steps: seq<Step>)
    requires Sound(s) && Run(s, steps)
    ensures var end := After(s, steps);
            Sound(end) && s.generation <= end.generation && s.owner <= end.owner && s.accepted <= end.accepted
    decreases |steps|
  {
    if steps != [] {
      StepKeepsSound(s, steps[0]);
      RunKeepsSound(Apply(s, steps[0]), steps[1..]);
    }
  }

  /** The last replacement that ended was one whose archive renewal failed. */
  predicate LastReplacementFailed(steps: seq<Step>) {
    steps != [] && (Last(steps).RenewalFails?
        || (!Last(steps).InstallGame? && LastReplacementFailed(steps[..|steps| - 1])))
  }

  lemma {:induction false} RunSplits(s: Session, steps: seq<Step>)
    requires Run(s, steps) && steps != []
    ensures var front := steps[..|steps| - 1];
            Run(s, front) && Enabled(After(s, front), Last(steps))
                && After(s, steps) == Apply(After(s, front), Last(steps))
    decreases |steps|
  {
    if |steps| > 1 {
      assert steps[1..][..|steps| - 2] == steps[..|steps| - 1][1..];
      RunSplits(Apply(s, steps[0]), steps[1..]);
    }
  }

  lemma {:induction false} OrphanedAfterFailure(s: Session, steps: seq<Step>)
    requires Run(s, steps) && !s.orphaned
    ensures After(s, steps).orphaned <==> LastReplacementFailed(steps)
    decreases |steps|
  {
    if steps != [] {
      RunSplits(s, steps);
      OrphanedAfterFailure(s, steps[..|steps| - 1]);
    }
  }

  /** In every run the cell's generation is the timeline's or one ahead, and between replacements it is the
      timeline's exactly when the last replacement did not fail to renew its archive. */
  lemma GenerationsInStep(steps: seq<Step>)
    requires Run(Opening, steps)
    ensures var end := After(Opening, steps);
            && end.generation <= end.cellGeneration <= end.generation + 1
            && (end.phase.AtRest? ==> (end.cellGeneration == end.generation <==> !LastReplacementFailed(steps)))
  {
    RunKeepsSound(Opening, steps);
    OrphanedAfterFailure(Opening, steps);
  }

  /** With every archive renewed the two agree whenever no replacement is in flight. */
  lemma {:induction false} RenewedArchivesStayInStep(steps: seq<Step>)
    requires Run(Opening, steps) && forall i | 0 <= i < |steps| :: steps[i] != RenewalFails
    ensures var end := After(Opening, steps); end.phase.AtRest? ==> end.cellGeneration == end.generation
  {
    NoneFailed(steps);
    GenerationsInStep(steps);
  }

  lemma {:induction false} NoneFailed(steps: seq<Step>)
    requires forall i | 0 <= i < |steps| :: steps[i] != RenewalFails
    ensures !LastReplacementFailed(steps)
  {
    if steps != [] {
      assert steps[|steps| - 1] != RenewalFails;
      NoneFailed(steps[..|steps| - 1]);
    }
  }

  /** After a failed renewal the running game is deaf: its mailbox is closed, and whatever is still
      accepted goes to a game that was never installed. */
  lemma FailedRenewalDeafensTheGame(s: Session)
    requires Sound(s) && s.phase.AtRest? && s.orphaned
    ensures s.game in s.closed && s.cellMailbox != s.game && s.cellMailbox !in s.owner
    ensures s.cellGeneration == s.generation + 1
  {
    assert s.owner[|s.owner| - 1] == s.game;
  }

  /** Between replacements, unless one failed, the running game's mailbox is the one that submitters reach:
      an intent is accepted exactly for the running generation and while that mailbox is open, and closing it
      ends that for good, until the next replacement. */
  lemma OpenMailboxAccepts(s: Session, generation: U64)
    requires Sound(s) && s.phase.AtRest? && !s.orphaned
    ensures Apply(s, Submit(generation)).accepted
            == s.accepted + if generation == s.generation && s.game !in s.closed then [(generation, s.game)] else []
    ensures var closed := Apply(s, CloseMailbox); Apply(closed, Submit(generation)) == closed
    ensures Apply(s, CloseMailbox).accepted == s.accepted
  {
  }

  /** From the moment a replacement swaps the mailbox, only intents for the next generation are accepted. */
  lemma SwappedMailboxAccepts(s: Session, isReset: bool, generation: U64)
    requires Sound(s) && Enabled(s, SwapMailbox(isReset))
    ensures var swapped := Apply(s, SwapMailbox(isReset));
            && s.game in swapped.closed
            && Apply(swapped, Submit(generation)).accepted
               == s.accepted + if generation == s.generation + 1 then [(generation, s.mailboxes)] else []
  {
  }

  // ---------------------------------------------------------------- where accepted intents are

  /** Every accepted intent is in the mailbox of the game that owns its generation, or of the game about
      to be installed for it. */
  predicate Homed(s: Session) {
    && Sound(s)
    && forall i | 0 <= i < |s.accepted| ::
         var (g, mailbox) := s.accepted[i];
         if s.phase.Replacing? && g == s.phase.next then mailbox == s.phase.game
         else 1 <= g <= s.generation && s.owner[g - 1] == mailbox
  }

  /** The steps that strand an intent: abandoning a replacement that already has mail, and accepting mail
      for a replacement that was abandoned. */
  predicate Strands(s: Session, step: Step)
    requires Enabled(s, step)
  {
    match step
    case RenewalFails => exists i :: 0 <= i < |s.accepted| && s.accepted[i].0 == s.phase.next
    case Submit(g) => s.phase.AtRest? && s.orphaned && Accepts(s, g)
    case _ => false
  }

  lemma StepHomed(s: Session, step: Step)
    requires Homed(s) && Enabled(s, step)
    ensures Homed(Apply(s, step)) <==> !Strands(s, step)
  {
    StepKeepsSound(s, step);
    var after := Apply(s, step);
    match step
    case Submit(g) =>
      if Accepts(s, g) {
        assert after.accepted[|s.accepted|] == (g, s.cellMailbox);
        assert forall i | 0 <= i < |s.accepted| :: after.accepted[i] == s.accepted[i];
        assert s.owner[|s.owner| - 1] == s.game;
      }
    case _ =>
  }

  predicate AlwaysHomed(s: Session, steps: seq<Step>)
    requires Run(s, steps)
    decreases |steps|
  {
    Homed(s) && (steps == [] || AlwaysHomed(Apply(s, steps[0]), steps[1..]))
  }

  predicate NeverStrands(s: Session, steps: seq<Step>)
    requires Run(s, steps)
    decreases |steps|
  {
    steps == [] || (!Strands(s, steps[0]) && NeverStrands(Apply(s, steps[0]), steps[1..]))
  }

  lemma {:induction false} RunHomed(s: Session, steps: seq<Step>)
    requires Run(s, steps) && Homed(s)
    ensures AlwaysHomed(s, steps) <==> NeverStrands(s, steps)
    decreases |steps|
  {
    if steps != [] {
      StepHomed(s, steps[0]);
      if Homed(Apply(s, steps[0])) {
        RunHomed(Apply(s, steps[0]), steps[1..]);
      }
    }
  }

  /** Timeline safety, exactly: over every interleaving of submissions with Restore and Reset, each
      accepted intent is always in the mailbox of its own generation's game, if and only if no failed
      archive renewal ever meets an accepted intent. */
  lemma IntentsReachTheirOwnGame(steps: seq<Step>)
    requires Run(Opening, steps)
    ensures AlwaysHomed(Opening, steps) <==> NeverStrands(Opening, steps)
  {
    RunHomed(Opening, steps);
  }

  /** In particular nothing is ever stranded when every archive renewal succeeds. */
  lemma {:induction false} RenewedArchivesStrandNothing(s: Session, steps: seq<Step>)
    requires Run(s, steps) && !s.orphaned && forall i | 0 <= i < |steps| :: steps[i] != RenewalFails
    ensures NeverStrands(s, steps)
    decreases |steps|
  {
    if steps != [] {
      assert steps[0] != RenewalFails;
      RenewedArchivesStrandNothing(Apply(s, steps[0]), steps[1..]);
    }
  }

  /** A reset whose archive renewal fails, an intent for the announced generation, and a second reset:
      the intent was accepted for generation 2 and sits in a mailbox that generation 2's game never reads. */
  lemma FailedRenewalCanStrandAnIntent() returns (steps: seq<Step>)
    ensures steps == [SwapMailbox(true), RenewalFails, Submit(2), SwapMailbox(true), InstallGame]
    ensures Run(Opening, steps)
    ensures var end := After(Opening, steps); end.generation == 2 && end.accepted == [(2, 1)] && end.owner == [0, 2]
  {
    var s1 := Apply(Opening, SwapMailbox(true));
    RunExtends(Opening, [], SwapMailbox(true));
    var s2 := Apply(s1, RenewalFails);
    RunExtends(Opening, [SwapMailbox(true)], RenewalFails);
    var s3 := Apply(s2, Submit(2));
    RunExtends(Opening, [SwapMailbox(true), RenewalFails], Submit(2));
    var s4 := Apply(s3, SwapMailbox(true));
    RunExtends(Opening, [SwapMailbox(true), RenewalFails, Submit(2)], SwapMailbox(true));
    RunExtends(Opening, [SwapMailbox(true), RenewalFails, Submit(2), SwapMailbox(true)], InstallGame);
    steps := [SwapMailbox(true), RenewalFails, Submit(2), SwapMailbox(true), InstallGame];
  }
}
