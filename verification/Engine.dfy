/** What the session actor relies on from the game engine, as the most general engine that keeps it:
    every choice the real engine makes is left open, and so is every failure. */
module Engine {
  import opened Protocol

  /** An engine error is either the latched step fatal or some other error with the code of its cause. */
  datatype SessionError = StepFault | OtherError(cause: Option<CauseCode>)

  datatype CivilDayEndFailure = CivilDayEndFailure(error: SessionError, correctionPrepareRejected: bool)

  datatype Intent = Intent(id: nat)

  datatype EnqueueError = MailboxClosed | UnknownPlayer

  /** The shared mailbox of one game. Closing is final. */
  class Ingress {
    const players: set<nat>
    var closed: bool
    var inbox: seq<(nat, Intent)>

    constructor (players: set<nat>)
      ensures !closed && inbox == [] && this.players == players
    {
      this.players := players;
      closed, inbox := false, [];
    }

    method Close()
      modifies this`closed
      ensures closed
    {
      closed := true;
    }

    method EnqueuePlayerIntent(account: nat, intent: Intent) returns (error: Option<EnqueueError>)
      modifies this`inbox
      ensures error == if closed then Some(MailboxClosed) else if account !in players then Some(UnknownPlayer) else None
      ensures inbox == if error.None? then old(inbox) + [(account, intent)] else old(inbox)
    {
      if closed {
        return Some(MailboxClosed);
      }
      if account !in players {
        return Some(UnknownPlayer);
      }
      inbox := inbox + [(account, intent)];
      return None;
    }
  }

  /** `roster` leads from authenticated subjects to their accounts. The ghost fields record what the engine
      answered: every error it reported, every rejected civil day, and every batch it refused to wrap. */
  class ProtocolSession {
    const ingress: Ingress
    const roster: map<nat, nat>
    var tick: U64
    var seqNo: U64
    var day: nat
    var date: nat
    var poisoned: bool
    var dueDays: nat    // civil days to settle before the next trading tick
    ghost var faults: seq<SessionError>
    ghost var rejections: seq<CivilDayEndFailure>
    ghost var refused: set<seq<TickFrame>>

    constructor (tick: U64, seqNo: U64, day: nat, date: nat, dueDays: nat, players: set<nat>, roster: map<nat, nat>)
      ensures this.tick == tick && this.seqNo == seqNo && this.day == day && this.date == date
      ensures this.dueDays == dueDays && this.roster == roster && !poisoned
      ensures fresh(ingress) && !ingress.closed && ingress.players == players
      ensures faults == [] && rejections == [] && refused == {}
    {
      this.tick, this.seqNo, this.day, this.date, this.dueDays := tick, seqNo, day, date, dueDays;
      this.roster := roster;
      poisoned, faults, rejections, refused := false, [], [], {};
      ingress := new Ingress(players);
    }

    /** Asking may fail without changing anything. */
    method CivilDayReady() returns (r: Result<bool, SessionError>)
      modifies this`faults
      ensures r.Ok? ==> r.value == (dueDays > 0) && faults == old(faults)
      ensures r.Err? ==> faults == old(faults) + [r.error]
    {
      var failed: bool, cause: Option<CauseCode> := *, *;
      if failed {
        faults := faults + [OtherError(cause)];
        return Err(OtherError(cause));
      }
      r := Ok(dueDays > 0);
    }

    /** A step commits the next valid frame, or commits nothing. */
    method StepFrame() returns (r: Result<TickFrame, SessionError>)
      modifies this
      ensures r.Ok? ==>
                && !old(poisoned) && !poisoned
                && ValidFrame(r.value)
                && r.value.tick == old(tick) + 1 && r.value.seqFrom == old(seqNo)
                && tick == r.value.tick && seqNo == r.value.seqTo
      ensures r.Err? ==> tick == old(tick) && seqNo == old(seqNo) && day == old(day) && dueDays == old(dueDays)
      ensures old(poisoned) ==> poisoned
      ensures faults == old(faults) + if r.Ok? then [] else [r.error]
      ensures refused == old(refused) && rejections == old(rejections)
    {
      var facts: seq<Fact>, nextDay: nat, due: nat, fails: bool, poisons: bool := *, *, *, *, *;
      if fails || poisoned || tick >= JS_SAFE_MAX || seqNo + |facts| > JS_SAFE_MAX
         || !ValidFrame(TickFrame(tick + 1, facts, seqNo, seqNo + |facts|)) {
        poisoned := poisoned || poisons;
        faults := faults + [StepFault];
        return Err(StepFault);
      }
      var frame := TickFrame(tick + 1, facts, seqNo, seqNo + |facts|);
      tick, seqNo, day, dueDays := frame.tick, frame.seqTo, nextDay, due;
      return Ok(frame);
    }

    /** Wraps committed frames for publication; a poisoned engine refuses, a healthy one may. */
    method TickBatch(frames: seq<TickFrame>) returns (r: Result<Protocol.TickBatch, SessionError>)
      requires ValidFrames(frames)
      modifies this`faults, this`refused
      ensures r.Ok? ==> !poisoned && r.value.frames == frames && ValidBatch(r.value)
      ensures r.Ok? ==> faults == old(faults) && refused == old(refused)
      ensures r.Err? ==> faults == old(faults) + [r.error] && refused == old(refused) + {frames}
    {
      var fails: bool, full: bool := *, *;
      if fails || poisoned {
        faults, refused := faults + [StepFault], refused + {frames};
        return Err(StepFault);
      }
      var last := Last(frames);
      r := Ok(if full then Protocol.TickBatch(frames, Some(RuntimeSnapshot(last.tick, last.seqTo)), None)
              else Protocol.TickBatch(frames, None, Some(RuntimeDelta(last.tick, frames[0].seqFrom, last.seqTo))));
    }

    /** Settling a civil day yields a valid update on the same tick, or changes no position. */
    method EndCivilDay() returns (r: Result<CivilUpdate, CivilDayEndFailure>)
      modifies this
      ensures r.Ok? ==>
                && !old(poisoned) && !poisoned
                && ValidCivil(r.value)
                && r.value.tick == old(tick) == tick && r.value.seqFrom == old(seqNo)
                && seqNo == r.value.seqTo && date == r.value.date
                && old(dueDays) > 0 && dueDays == old(dueDays) - 1
                && faults == old(faults) && rejections == old(rejections)
      ensures r.Err? ==>
                && tick == old(tick) && seqNo == old(seqNo) && day == old(day)
                && faults == old(faults) + [r.error.error] && rejections == old(rejections) + [r.error]
      ensures old(poisoned) ==> poisoned
      ensures refused == old(refused)
    {
      var update: CivilUpdate, failure: CivilDayEndFailure, poisons: bool, due: nat, moved: nat, fails: bool :=
        *, *, *, *, *, *;
      if fails || poisoned || dueDays == 0 || !ValidCivil(update) || update.tick != tick || update.seqFrom != seqNo {
        poisoned := poisoned || poisons;
        dueDays, date := due, moved;
        faults, rejections := faults + [failure.error], rejections + [failure];
        return Err(failure);
      }
      seqNo, date, dueDays := update.seqTo, update.date, dueDays - 1;
      return Ok(update);
    }
  }

  /** The writer of day-end archives; the ghost fields record which days it was given and which of them it
      failed to keep. */
  class ArchiveWriter {
    ghost var offered: seq<CivilUpdate>
    ghost var lost: seq<CivilUpdate>

    constructor ()
      ensures offered == lost == []
    {
      offered, lost := [], [];
    }

    method SaveDayEnd(update: CivilUpdate) returns (kept: bool)
      modifies this
      ensures offered == old(offered) + [update]
      ensures lost == if kept then old(lost) else old(lost) + [update]
    {
      kept := *;
      offered := offered + [update];
      if !kept {
        lost := lost + [update];
      }
    }
  }
}
