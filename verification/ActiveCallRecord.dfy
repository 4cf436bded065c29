/** The call record itself.  Each method is one locked section of a goroutine; whatever the goroutines do, the record
    keeps in step with a run of the protocol and so keeps everything that holds of such runs. */
module ActiveCallRecord {
  import opened HoldProtocol

  class ActiveCall {
    var holdActive: bool
    var holdEntering: bool
    var holdEnterAborted: bool
    var holderPhoneHold: bool
    var holderSawRecvonly: bool
    var bridgeStop: bool
    var bridgeReady: bool
    var pendingHold: bool

    /** The protocol's state: where every goroutine is, and the history of entries. */
    ghost var state: State

    ghost function Fields(): Call
      reads this
    {
      Call(holdActive, holdEntering, holdEnterAborted, holderPhoneHold, holderSawRecvonly,
           bridgeStop, bridgeReady, pendingHold)
    }

    ghost predicate Valid()
      reads this
    {
      Inv(state) && Fields() == state.call
    }

    /** Goroutine `id` is about to run the section at `pc`; a goroutine it starts gets an unused identity. */
    ghost predicate At(id: nat, pc: Pc, env: Env)
      reads this
    {
      Valid() && id in state.threads && state.threads[id] == pc && env.newId !in state.threads
    }

    constructor ()
      ensures Valid() && state == Start
    {
      holdActive, holdEntering, holdEnterAborted := false, false, false;
      holderPhoneHold, holderSawRecvonly := false, false;
      bridgeStop, bridgeReady, pendingHold := false, false, false;
      state := Start;
    }

    /** The goroutine moves on. */
    ghost method Advance(id: nat, env: Env)
      requires Inv(state)
      modifies this`state
      ensures Inv(state) && state == Exec(old(state), Go(id, env))
    {
      InvStep(state, Go(id, env));
      state := Exec(state, Go(id, env));
    }

    /** A media update arrives on one of the legs. */
    ghost method Arrive(newId: nat, inbound: bool)
      requires Valid()
      modifies this`state
      ensures Valid() && state == Exec(old(state), MediaUpdate(newId, inbound))
    {
      InvStep(state, MediaUpdate(newId, inbound));
      state := Exec(state, MediaUpdate(newId, inbound));
    }

    /** The initial handle never meets a hold. */
    method SetBridgeStop(id: nat, env: Env)
      requires At(id, StoreBridge, env)
      modifies this
      ensures Valid() && state == Exec(old(state), Go(id, env))
      ensures bridgeStop && !holdActive && !holdEntering
    {
      bridgeStop := true;
      Advance(id, env);
    }

    /** A hold that was waiting is handed to a new goroutine, once. */
    method MarkBridgeReady(id: nat, env: Env) returns (enterNow: bool)
      requires At(id, MarkReady, env)
      modifies this
      ensures Valid() && state == Exec(old(state), Go(id, env))
      ensures bridgeReady && !pendingHold
      ensures enterNow == old(pendingHold) == (env.newId in state.threads && state.threads[env.newId] == Enter(Guard))
    {
      bridgeReady := true;
      enterNow := pendingHold;
      pendingHold := false;
      Advance(id, env);
    }

    /** The guard of enter(): an entry that goes on is the only one, and has taken the handle. */
    method BeginEntry(id: nat, env: Env) returns (goesOn: bool)
      requires At(id, Enter(Guard), env)
      modifies this
      ensures Valid() && state == Exec(old(state), Go(id, env))
      ensures goesOn <==> !old(holdActive) && !old(holdEntering) && env.onHold
      ensures goesOn ==> holdEntering && holderPhoneHold && !holdEnterAborted
      ensures goesOn ==> !bridgeStop && forall i :: i in state.threads && InEntry(state.threads[i]) ==> i == id
      ensures !goesOn ==> Fields() == old(Fields()) && !InEntry(state.threads[id])
    {
      goesOn := !(holdActive || holdEntering) && env.onHold;
      if goesOn {
        holdEntering := true;
        holderPhoneHold := true;
        holdEnterAborted := false;
        bridgeStop := false;
      }
      Advance(id, env);
    }

    /** Noting the holder's direction, after the guard and while media is set up; no hold is active meanwhile. */
    method NoteHolder(id: nat, pc: EnterPc, env: Env)
      requires (pc.Seed? || pc.Media?) && At(id, Enter(pc), env)
      modifies this
      ensures Valid() && state == Exec(old(state), Go(id, env))
      ensures !holdActive && holdEntering && holderSawRecvonly == (old(holderSawRecvonly) || env.onHold)
      ensures holderPhoneHold == (old(holderPhoneHold) || (pc.Media? && env.onHold))
    {
      if env.onHold {
        holderSawRecvonly := true;
        if pc.Media? { holderPhoneHold := true; }
      }
      Advance(id, env);
    }

    method RecoverBridge(env: Env)
      modifies this`bridgeStop
      ensures bridgeStop == (old(bridgeStop) || env.bridgeStarts)
    {
      if env.bridgeStarts { bridgeStop := true; }
    }

    /** What enter() writes when it decides; its second "already active" check is there, though it never fires. */
    method Decide(hadBridge: bool, dialTone: bool, moh: bool, env: Env) returns (outcome: Outcome)
      modifies this`holdActive, this`holderPhoneHold, this`holderSawRecvonly, this`bridgeStop
      ensures var e := EnterSection(EnterPc.Decide(hadBridge, dialTone, moh), old(Fields()), env);
              Fields() == e.call && e.next == Enter(Exit(outcome))
    {
      if holdEnterAborted {
        holderPhoneHold, holderSawRecvonly := false, false;
        RecoverBridge(env);
        return Aborted;
      }
      if holdActive {
        if hadBridge { RecoverBridge(env); }
        return AlreadyActive;
      }
      if !dialTone && !moh {
        holderPhoneHold, holderSawRecvonly := false, false;
        RecoverBridge(env);
        return NoMedia;
      }
      holdActive := true;
      return Activated;
    }

    /** The decision of enter(): hold with a handle only after an overlap; no hold, and the handle if the bridge
        starts; never hold after an abort. */
    method DecideEntry(id: nat, hadBridge: bool, dialTone: bool, moh: bool, env: Env) returns (outcome: Outcome)
      requires At(id, Enter(EnterPc.Decide(hadBridge, dialTone, moh)), env)
      modifies this
      ensures Valid() && state == Exec(old(state), Go(id, env))
      ensures !outcome.AlreadyActive? && (holdActive <==> outcome.Activated?)
      ensures holdActive && bridgeStop ==> state.hist.overlap && state.hist.installed
      ensures !holdActive && env.bridgeStarts ==> bridgeStop
      ensures holdActive <==> !old(holdEnterAborted) && (dialTone || moh)
      ensures !holdActive ==> !holderPhoneHold && !holderSawRecvonly
    {
      outcome := Decide(hadBridge, dialTone, moh, env);
      DecisionMeans(state, id, hadBridge, dialTone, moh, env);
      Advance(id, env);
    }

    /** The return of enter(): no entry is left under way. */
    method ExitEntry(id: nat, outcome: Outcome, env: Env)
      requires At(id, Enter(Exit(outcome)), env)
      modifies this
      ensures Valid() && state == Exec(old(state), Go(id, env))
      ensures !holdEntering && forall i :: i in state.threads ==> !InEntry(state.threads[i])
    {
      holdEntering := false;
      holdEnterAborted := false;
      Advance(id, env);
    }

    /** An entry that has not decided yet is bound to abort. */
    method AbortHoldEntry(id: nat, env: Env)
      requires At(id, Update(AbortEntry), env)
      modifies this
      ensures Valid() && state == Exec(old(state), Go(id, env))
      ensures EntryUndecided(state) ==> holdEnterAborted
      ensures old(holdActive) || !old(holdEntering) ==> Fields() == old(Fields())
    {
      if holdEntering && !holdActive { holdEnterAborted := true; }
      Advance(id, env);
    }

    /** The first section of leave(): a body only for an active hold, and then as many bodies as activations. */
    method BeginLeave(id: nat, env: Env) returns (body: bool)
      requires At(id, Leave(Check), env)
      modifies this
      ensures Valid() && state == Exec(old(state), Go(id, env))
      ensures body == old(holdActive) == LeaveInBody(state.threads[id])
      ensures !holdActive && (body ==> !bridgeStop) && state.hist.leaveBodies == state.hist.activations
    {
      body := holdActive;
      if holdActive {
        holdActive := false;
        if bridgeStop { bridgeStop := false; } else { holderPhoneHold, holderSawRecvonly := false, false; }
      }
      Advance(id, env);
    }

    method ClearHolder(id: nat, env: Env)
      requires At(id, Leave(Clear), env)
      modifies this
      ensures Valid() && state == Exec(old(state), Go(id, env))
      ensures !holderPhoneHold && !holderSawRecvonly
    {
      holderPhoneHold := false;
      holderSawRecvonly := false;
      Advance(id, env);
    }

    /** The last section of leave() stores the new handle unseen; a hold it meets is one it overlapped. */
    method InstallBridge(id: nat, env: Env)
      requires At(id, Leave(Install), env)
      modifies this
      ensures Valid() && state == Exec(old(state), Go(id, env))
      ensures bridgeStop && (holdActive || EntryUndecided(state) ==> state.hist.overlap)
    {
      bridgeStop := true;
      Advance(id, env);
    }

    /** Both recovery goroutines: with no handle, no hold and no entry the bridge is started again, and a handle appears
        nowhere else. */
    method RestoreBridge(id: nat, pc: RecoveryPc, env: Env)
      requires (pc.RestartInstall? || pc.EnsureInstall?) && At(id, Recovery(pc), env)
      modifies this
      ensures Valid() && state == Exec(old(state), Go(id, env))
      ensures bridgeStop <==> old(bridgeStop) || (!old(holdActive) && !old(holdEntering)
                                                  && (pc.EnsureInstall? || env.legsReady) && env.bridgeStarts)
      ensures holdActive == old(holdActive) && holdEntering == old(holdEntering)
    {
      var mayStart := !(bridgeStop || holdActive || holdEntering);
      if pc.RestartInstall? { mayStart := mayStart && env.legsReady; }
      if mayStart { RecoverBridge(env); }
      Advance(id, env);
    }

    /** A holder heard in both directions loses its hold flags, but never during an entry. */
    method ReleaseStuckHolder(id: nat, env: Env)
      requires At(id, Update(Unstick), env)
      modifies this
      ensures Valid() && state == Exec(old(state), Go(id, env))
      ensures state.hist.entrant.Some? ==> Fields() == old(Fields())
      ensures state.hist.entrant.None? && env.sendrecv && old(holderPhoneHold) ==>
                !holderPhoneHold && !holderSawRecvonly
    {
      if env.sendrecv && holderPhoneHold && !holdEntering { holderPhoneHold, holderSawRecvonly := false, false; }
      Advance(id, env);
    }

    method RecordPendingHold(id: nat, env: Env)
      requires At(id, Update(Defer), env)
      modifies this
      ensures Valid() && state == Exec(old(state), Go(id, env))
      ensures pendingHold
    {
      pendingHold := true;
      Advance(id, env);
    }

    method NoteDirection(id: nat, env: Env)
      requires At(id, Update(Holder), env)
      modifies this
      ensures Valid() && state == Exec(old(state), Go(id, env))
      ensures holdActive == old(holdActive) && bridgeStop == old(bridgeStop)
      ensures env.reaction.NoteDirection? && env.onHold ==> holderSawRecvonly && holderPhoneHold
      ensures !env.reaction.NoteDirection? || !env.onHold ==> Fields() == old(Fields())
    {
      if env.reaction.NoteDirection? && env.onHold { holderSawRecvonly, holderPhoneHold := true, true; }
      Advance(id, env);
    }

    /** Any other section only reads the record. */
    method Look(id: nat, pc: Pc, env: Env)
      requires At(id, pc, env) && Section(pc, Fields(), env).call == Fields()
      modifies this`state
      ensures Valid() && state == Exec(old(state), Go(id, env))
    {
      Advance(id, env);
    }

    /** Whatever section a goroutine runs, the record follows the protocol, and hold and handle exclude each other
        unless a leave() was in its body at the entry's guard. */
    method RunSection(id: nat, pc: Pc, env: Env)
      requires At(id, pc, env)
      modifies this
      ensures Valid() && state == Exec(old(state), Go(id, env))
      ensures holdActive && !state.hist.overlap ==> !bridgeStop
      ensures holdActive ==> (bridgeStop <==> state.hist.installed)
    {
      match pc
      case StoreBridge => SetBridgeStop(id, env);
      case MarkReady => var _ := MarkBridgeReady(id, env);
      case Enter(at) => RunEnter(id, at, env);
      case Leave(at) => RunLeave(id, at, env);
      case Recovery(at) => RunRecovery(id, at, env);
      case Update(at) => RunUpdate(id, at, env);
      case Finished => Look(id, pc, env);
    }

    method RunEnter(id: nat, pc: EnterPc, env: Env)
      requires At(id, Enter(pc), env)
      modifies this
      ensures Valid() && state == Exec(old(state), Go(id, env))
    {
      match pc
      case Guard => var _ := BeginEntry(id, env);
      case Decide(had, dialTone, moh) => var _ := DecideEntry(id, had, dialTone, moh, env);
      case Exit(outcome) => ExitEntry(id, outcome, env);
      case Recheck(_) => Look(id, Enter(pc), env);
      case _ => NoteHolder(id, pc, env);
    }

    method RunLeave(id: nat, pc: LeavePc, env: Env)
      requires At(id, Leave(pc), env)
      modifies this
      ensures Valid() && state == Exec(old(state), Go(id, env))
    {
      match pc
      case Check => var _ := BeginLeave(id, env);
      case Clear => ClearHolder(id, env);
      case Install => InstallBridge(id, env);
      case _ => Look(id, Leave(pc), env);
    }

    method RunRecovery(id: nat, pc: RecoveryPc, env: Env)
      requires At(id, Recovery(pc), env)
      modifies this
      ensures Valid() && state == Exec(old(state), Go(id, env))
    {
      if pc.RestartInstall? || pc.EnsureInstall? { RestoreBridge(id, pc, env); } else { Look(id, Recovery(pc), env); }
    }

    method RunUpdate(id: nat, pc: UpdatePc, env: Env)
      requires At(id, Update(pc), env)
      modifies this
      ensures Valid() && state == Exec(old(state), Go(id, env))
    {
      match pc
      case Holder => NoteDirection(id, env);
      case AbortEntry => AbortHoldEntry(id, env);
      case Unstick => ReleaseStuckHolder(id, env);
      case Defer => RecordPendingHold(id, env);
      case _ => Look(id, Update(pc), env);
    }
  }

  lemma DecisionMeans(s: State, id: nat, hadBridge: bool, dialTone: bool, moh: bool, env: Env)
    requires Inv(s) && id in s.threads && s.threads[id] == Enter(EnterPc.Decide(hadBridge, dialTone, moh))
    requires env.newId !in s.threads
    ensures var e, t := EnterSection(EnterPc.Decide(hadBridge, dialTone, moh), s.call, env), Exec(s, Go(id, env));
            && t.call == e.call && t.threads[id] == e.next
            && e.next != Enter(Exit(AlreadyActive)) && (t.call.holdActive <==> e.next == Enter(Exit(Activated)))
            && (t.call.holdActive && t.call.bridgeStop ==> t.hist.overlap && t.hist.installed)
            && (!t.call.holdActive && env.bridgeStarts ==> t.call.bridgeStop)
            && (t.call.holdActive <==> !s.call.holdEnterAborted && (dialTone || moh))
            && (!t.call.holdActive ==> !t.call.holderPhoneHold && !t.call.holderSawRecvonly)
  {
    InvStep(s, Go(id, env));
    assert Undecided(s.threads[id]);
  }
}
