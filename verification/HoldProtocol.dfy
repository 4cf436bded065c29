/** Phone-initiated hold on one bridged call.

    Every goroutine that touches the call record (`enter`, `leave`, bridge recovery, media-update
    handlers) releases the call's lock between phases.  Each locked section is one atomic step here;
    `Pc` says which section a goroutine runs next and `Env` supplies what the section learns from
    outside: SDP directions, whether media and bridges start, the clock, and fresh goroutine ids. */
module HoldProtocol {
  import opened Wrappers

  /** The fields of the call record that the hold protocol reads and writes. */
  datatype Call = Call(
    holdActive: bool, holdEntering: bool, holdEnterAborted: bool,
    holderPhoneHold: bool, holderSawRecvonly: bool,
    bridgeStop: bool, bridgeReady: bool, pendingHold: bool)

  datatype Outcome = Activated | Aborted | NoMedia | AlreadyActive

  datatype EnterPc =
    | Guard | Seed(hadBridge: bool) | Recheck(hadBridge: bool) | Media(hadBridge: bool)
    | Decide(hadBridge: bool, dialTone: bool, moh: bool) | Exit(outcome: Outcome)

  datatype LeavePc = Check | Clear | Sendonly | AwaitLegs | Install

  datatype RecoveryPc = RestartCheck | RestartInstall | EnsureCheck | EnsureInstall

  datatype UpdatePc =
    | Snapshot(inbound: bool) | Holder | Released(inbound: bool) | AbortEntry
    | MaybeRestart(inbound: bool) | Unstick | HoldSignal | Defer | ReassertGuard | ReassertTry

  datatype Pc =
    | StoreBridge | MarkReady
    | Enter(enter: EnterPc) | Leave(leave: LeavePc) | Recovery(recovery: RecoveryPc) | Update(update: UpdatePc)
    | Finished

  datatype HolderReaction = DriveLeave | DriveReassert | NoteDirection

  datatype Env = Env(
    onHold: bool, sendrecv: bool, legsReady: bool, bridgeStarts: bool,
    dialTone: bool, moh: bool, done: bool, longEntry: bool,
    reaction: HolderReaction, newId: nat)

  /** Whether a section tried to start the bridge again, and how that went. */
  datatype Attempt = NotTried | Started | Failed

  /** What one locked section leaves behind: the record, the goroutine's next section, a spawned goroutine,
      and its attempt to start the bridge. */
  datatype Effect = Effect(call: Call, next: Pc, spawned: Option<Pc>, attempt: Attempt)

  /** A section that does not touch the bridge. */
  function Plain(c: Call, next: Pc, spawned: Option<Pc>): Effect { Effect(c, next, spawned, NotTried) }

  /** recoverBridgeLocked: a failed start leaves the handle as it was. */
  function Recover(c: Call, next: Pc, spawned: Option<Pc>, env: Env): Effect {
    if env.bridgeStarts then Effect(c.(bridgeStop := true), next, spawned, Started)
    else Effect(c, next, spawned, Failed)
  }

  predicate Busy(c: Call) {
    c.bridgeStop || c.holdActive || c.holdEntering
  }

  function EnterSection(pc: EnterPc, c: Call, env: Env): Effect {
    match pc
    case Guard =>
      if c.holdActive || c.holdEntering || !env.onHold then Plain(c, Finished, None)
      else Plain(c.(holdEntering := true, holderPhoneHold := true, holdEnterAborted := false, bridgeStop := false),
                  Enter(Seed(c.bridgeStop)), None)
    case Seed(had) =>
      Plain(c.(holderSawRecvonly := c.holderSawRecvonly || env.onHold), Enter(Recheck(had)), None)
    case Recheck(had) =>
      Plain(c, Enter(if c.holdActive then Exit(AlreadyActive) else Media(had)), None)
    case Media(had) =>
      Plain(if env.onHold then c.(holderPhoneHold := true, holderSawRecvonly := true) else c,
             Enter(if env.done then Decide(had, env.dialTone, env.moh) else pc), None)
    case Decide(had, dialTone, moh) =>
      var released := c.(holderPhoneHold := false, holderSawRecvonly := false);
      if c.holdEnterAborted then Recover(released, Enter(Exit(Aborted)), Some(Recovery(EnsureCheck)), env)
      else if c.holdActive then
        if had then Recover(c, Enter(Exit(AlreadyActive)), None, env) else Plain(c, Enter(Exit(AlreadyActive)), None)
      else if !dialTone && !moh then Recover(released, Enter(Exit(NoMedia)), None, env)
      else Plain(c.(holdActive := true), Enter(Exit(Activated)), None)
    case Exit(_) =>
      Plain(c.(holdEntering := false, holdEnterAborted := false), Finished, None)
  }

  function LeaveSection(pc: LeavePc, c: Call, env: Env): Effect {
    match pc
    case Check =>
      if !c.holdActive then Plain(c, Finished, None)
      else if c.bridgeStop then Plain(c.(holdActive := false, bridgeStop := false), Leave(Clear), None)
      else Plain(c.(holdActive := false, holderPhoneHold := false, holderSawRecvonly := false), Leave(Sendonly), None)
    case Clear =>
      Plain(c.(holderPhoneHold := false, holderSawRecvonly := false), Leave(Sendonly), None)
    case Sendonly => Plain(c, Leave(AwaitLegs), None)
    case AwaitLegs => Plain(c, if env.legsReady && env.bridgeStarts then Leave(Install) else Finished, None)
    case Install => Plain(c.(bridgeStop := true), Finished, None)
  }

  function RecoverySection(pc: RecoveryPc, c: Call, env: Env): Effect {
    match pc
    case RestartCheck =>
      Plain(c, if c.bridgeReady && !Busy(c) && env.legsReady then Recovery(RestartInstall) else Finished, None)
    case RestartInstall =>
      if !Busy(c) && env.legsReady then Recover(c, Finished, None, env) else Plain(c, Finished, None)
    case EnsureCheck =>
      // timeout or cancellation is `done`; legs not ready yet go round the loop again
      Plain(c, if env.done || Busy(c) then Finished
                else Recovery(if env.legsReady then EnsureInstall else EnsureCheck), None)
    case EnsureInstall =>
      if !Busy(c) then Recover(c, Finished, None, env) else Plain(c, Finished, None)
  }

  /** The media-update handlers of both legs and the reassert goroutine they may start. */
  function UpdateSection(pc: UpdatePc, c: Call, env: Env): Effect {
    match pc
    case Snapshot(inbound) =>
      Plain(c, Update(if c.holdActive then Holder else Released(inbound)), None)
    case Holder =>
      (match env.reaction
       case DriveLeave => Plain(c, Finished, Some(Leave(Check)))
       case DriveReassert => Plain(c, Finished, Some(Update(ReassertGuard)))
       case NoteDirection =>
         Plain(if env.onHold then c.(holderSawRecvonly := true, holderPhoneHold := true) else c, Finished, None))
    case Released(inbound) =>
      var released := env.sendrecv && c.holdEntering && !c.holdActive && c.holderPhoneHold
                      && c.holderSawRecvonly && env.longEntry;
      Plain(c, Update(if released then AbortEntry else MaybeRestart(inbound)), None)
    case AbortEntry =>
      Plain(if c.holdEntering && !c.holdActive then c.(holdEnterAborted := true) else c, Finished, None)
    case MaybeRestart(inbound) =>
      Plain(c, Update(if inbound then Unstick else HoldSignal),
             if c.bridgeReady && !Busy(c) && env.legsReady then Some(Recovery(RestartCheck)) else None)
    case Unstick =>
      Plain(if env.sendrecv && c.holderPhoneHold && !c.holdEntering
             then c.(holderPhoneHold := false, holderSawRecvonly := false) else c, Update(HoldSignal), None)
    case HoldSignal =>
      if !env.onHold then Plain(c, Finished, None)
      else if c.bridgeReady then Plain(c, Finished, Some(Enter(Guard)))
      else Plain(c, Update(Defer), None)
    case Defer => Plain(c.(pendingHold := true), Finished, None)
    case ReassertGuard => Plain(c, if c.holdActive then Update(ReassertTry) else Finished, None)
    case ReassertTry => Plain(c, Finished, if env.sendrecv then Some(Leave(Check)) else None)
  }

  /** The locked section a goroutine at `pc` runs. */
  function Section(pc: Pc, c: Call, env: Env): Effect {
    match pc
    case StoreBridge => Plain(c.(bridgeStop := true), MarkReady, None)
    case MarkReady =>
      Plain(c.(bridgeReady := true, pendingHold := false), Finished, if c.pendingHold then Some(Enter(Guard)) else None)
    case Enter(at) => EnterSection(at, c, env)
    case Leave(at) => LeaveSection(at, c, env)
    case Recovery(at) => RecoverySection(at, c, env)
    case Update(at) => UpdateSection(at, c, env)
    case Finished => Plain(c, Finished, None)
  }

  /** enter() has passed its guard and not yet returned. */
  predicate InEntry(pc: Pc) { pc.Enter? && !pc.enter.Guard? }

  predicate Undecided(pc: Pc) { InEntry(pc) && !pc.enter.Exit? }

  predicate Exiting(pc: Pc) { pc.Enter? && pc.enter.Exit? }

  /** leave() has passed its guard and not yet returned. */
  predicate LeaveInBody(pc: Pc) { pc.Leave? && !pc.leave.Check? }

  /** How one entry ended: what its decision left in the record, whether it tried to start the bridge, whether
      it started the goroutine that goes on trying, and whether an abort had reached it before. */
  datatype EntryEnd = EntryEnd(activated: bool, attempt: Attempt, handle: bool, goesOnTrying: bool, aborted: bool)

  /** An entry that activated hold left the bridge alone; any other tried to start it and stored the handle if it
      started; an aborted one never activates and goes on trying, and no other does. */
  predicate CleanEnd(e: EntryEnd) {
    && (e.activated <==> e.attempt.NotTried?)
    && (e.attempt.Started? ==> e.handle)
    && (e.aborted ==> !e.activated)
    && (e.goesOnTrying <==> e.aborted)
  }

  /** Bookkeeping that no section reads.
      `entries` counts guards passed by enter(); `entrant` is the goroutine in its entry; `overlap`,
      `installed` and `abortSeen` speak about the latest entry: was a leave() in its body when it passed
      its guard, has a leave() installed a bridge since, did an abort take effect before its decision. */
  datatype History = History(
    entries: nat, entrant: Option<nat>, overlap: bool, installed: bool, abortSeen: bool,
    activations: nat, leaveBodies: nat, ends: seq<EntryEnd>)

  datatype State = State(call: Call, threads: map<nat, Pc>, hist: History)

  predicate LeaveRunning(threads: map<nat, Pc>) {
    exists i :: i in threads && LeaveInBody(threads[i])
  }

  predicate EntryUndecided(s: State) {
    s.hist.entrant.Some? && s.hist.entrant.value in s.threads && Undecided(s.threads[s.hist.entrant.value])
  }

  function Record(s: State, id: nat, e: Effect): History
    requires id in s.threads
  {
    var h, pc := s.hist, s.threads[id];
    if pc == Enter(Guard) && InEntry(e.next) then
      h.(entries := h.entries + 1, entrant := Some(id), overlap := LeaveRunning(s.threads),
         installed := false, abortSeen := false)
    else if Undecided(pc) && Exiting(e.next) then
      h.(ends := h.ends + [EntryEnd(e.call.holdActive, e.attempt, e.call.bridgeStop,
                                    e.spawned == Some(Recovery(EnsureCheck)), h.abortSeen)],
         activations := h.activations + if e.next.enter.outcome.Activated? then 1 else 0)
    else if Exiting(pc) then h.(entrant := None)
    else if pc == Leave(Check) && LeaveInBody(e.next) then h.(leaveBodies := h.leaveBodies + 1)
    else if pc == Leave(Install) then h.(installed := true)
    else if pc == Update(AbortEntry) && EntryUndecided(s) then h.(abortSeen := true)
    else h
  }

  datatype Action = Go(id: nat, env: Env) | MediaUpdate(newId: nat, inbound: bool)

  /** The state after goroutine `id` ran a section with effect `e`; a spawned goroutine gets the id `newId`. */
  function Move(s: State, id: nat, e: Effect, newId: nat): State
    requires id in s.threads
  {
    var moved := s.threads[id := e.next];
    State(e.call, if e.spawned.Some? then moved[newId := e.spawned.value] else moved, Record(s, id, e))
  }

  /** One step of any goroutine, or the arrival of a media update.  A disabled action changes nothing. */
  function Exec(s: State, a: Action): State {
    match a
    case MediaUpdate(newId, inbound) =>
      if newId in s.threads then s else s.(threads := s.threads[newId := Update(Snapshot(inbound))])
    case Go(id, env) =>
      if id !in s.threads then s else
      var e := Section(s.threads[id], s.call, env);
      if e.spawned.Some? && env.newId in s.threads then s else Move(s, id, e, env.newId)
  }

  function Run(s: State, acts: seq<Action>): State
    decreases acts
  {
    if acts == [] then s else Run(Exec(s, acts[0]), acts[1..])
  }

  /** A call being set up: goroutine 0 is about to store the initial bridge handle. */
  const Start := State(
    Call(false, false, false, false, false, false, false, false), map[0 := StoreBridge],
    History(0, None, false, false, false, 0, 0, []))

  /** Hold is active and a bridge handle is installed: the state the protocol means to exclude. */
  predicate HoldAndBridge(s: State) { s.call.holdActive && s.call.bridgeStop }

  // ---- What every step keeps

  /** At most one entry is in flight, and `holdEntering` says whether there is one. */
  ghost predicate EntryInv(s: State) {
    && (forall i :: i in s.threads ==> (InEntry(s.threads[i]) <==> s.hist.entrant == Some(i)))
    && (s.hist.entrant.Some? ==> s.hist.entrant.value in s.threads)
    && (s.call.holdEntering <==> s.hist.entrant.Some?)
    && (forall i :: i in s.threads && Undecided(s.threads[i]) ==> !s.call.holdActive)
    && (forall i :: i in s.threads && Exiting(s.threads[i]) ==> !s.threads[i].enter.outcome.AlreadyActive?)
  }

  /** No hold starts before the initial bridge is in place. */
  ghost predicate SetupInv(s: State) {
    && (forall i :: i in s.threads && (s.threads[i].StoreBridge? || s.threads[i].MarkReady?) ==>
            i == 0 && !s.call.bridgeReady)
    && (!s.call.bridgeReady ==> !s.call.holdActive && !s.call.holdEntering)
    && (forall i :: i in s.threads && s.threads[i] == Enter(Guard) ==> s.call.bridgeReady)
  }

  /** From a guard to the end of the hold it starts, the handle is present exactly when some leave()
      installed it in between, which takes a leave() that was in its body at the guard. */
  ghost predicate ExclusionInv(s: State) {
    s.call.holdActive || EntryUndecided(s) ==>
      && (s.call.bridgeStop <==> s.hist.installed)
      && (s.hist.installed ==> s.hist.overlap)
      && (forall i :: i in s.threads && LeaveInBody(s.threads[i]) ==> s.hist.overlap)
  }

  ghost predicate LedgerInv(s: State) {
    && |s.hist.ends| + (if EntryUndecided(s) then 1 else 0) == s.hist.entries
    && s.hist.activations == s.hist.leaveBodies + (if s.call.holdActive then 1 else 0)
    && (EntryUndecided(s) ==> (s.hist.abortSeen <==> s.call.holdEnterAborted))
    && (forall e :: e in s.hist.ends ==> CleanEnd(e))
  }

  ghost predicate Inv(s: State) { EntryInv(s) && SetupInv(s) && ExclusionInv(s) && LedgerInv(s) }

  // ---- Each section obeys the rules the invariants rest on

  predicate PassesGuard(pc: Pc, e: Effect) { pc == Enter(Guard) && InEntry(e.next) }

  predicate BeginsLeave(pc: Pc, e: Effect) { pc == Leave(Check) && LeaveInBody(e.next) }

  predicate Activates(pc: Pc, e: Effect) { Undecided(pc) && e.next == Enter(Exit(Activated)) }

  ghost predicate ControlRule(pc: Pc, c: Call, e: Effect) {
    && (Undecided(e.next) ==> PassesGuard(pc, e) || Undecided(pc))
    && (Exiting(e.next) ==> Undecided(pc))
    && (Undecided(pc) ==> InEntry(e.next))
    && (LeaveInBody(e.next) ==> BeginsLeave(pc, e) || LeaveInBody(pc))
    && (e.next.StoreBridge? || e.next.MarkReady? ==> pc.StoreBridge?)
    && e.next != Enter(Guard)
    && (e.spawned.Some? ==> !InEntry(e.spawned.value) && !LeaveInBody(e.spawned.value)
                            && !e.spawned.value.StoreBridge? && !e.spawned.value.MarkReady?)
    && (e.spawned == Some(Enter(Guard)) ==> e.call.bridgeReady)
    && (PassesGuard(pc, e) ==> !c.holdActive && !c.holdEntering)
    && (BeginsLeave(pc, e) ==> c.holdActive)
  }

  ghost predicate FlagRule(pc: Pc, c: Call, e: Effect) {
    && (e.call.holdEntering == if PassesGuard(pc, e) then true else if Exiting(pc) then false else c.holdEntering)
    && (e.call.holdActive == if Activates(pc, e) then true else if BeginsLeave(pc, e) then false else c.holdActive)
    && (e.call.bridgeReady == (c.bridgeReady || pc.MarkReady?))
    && (e.call.holdEnterAborted ==
         if PassesGuard(pc, e) || Exiting(pc) then false
         else c.holdEnterAborted || (pc == Update(AbortEntry) && c.holdEntering && !c.holdActive))
  }

  ghost predicate BridgeRule(pc: Pc, c: Call, e: Effect) {
    && (e.call.bridgeStop && !c.bridgeStop ==>
          pc.StoreBridge? || pc == Leave(Install) || (Undecided(pc) && Exiting(e.next) && !Activates(pc, e))
          || (!c.holdActive && !c.holdEntering))
    && (!e.call.bridgeStop && c.bridgeStop ==> PassesGuard(pc, e) || BeginsLeave(pc, e))
    && (PassesGuard(pc, e) ==> !e.call.bridgeStop)
    && (pc == Leave(Install) ==> e.call.bridgeStop)
  }

  ghost predicate DecisionRule(pc: Pc, c: Call, e: Effect) {
    Undecided(pc) && Exiting(e.next) && !c.holdActive ==>
      && !e.next.enter.outcome.AlreadyActive?
      && (e.call.holdActive <==> e.next.enter.outcome.Activated?)
      && (c.holdEnterAborted <==> e.next.enter.outcome.Aborted?)
      && (e.attempt.NotTried? <==> e.next.enter.outcome.Activated?)
      && (e.attempt.Started? ==> e.call.bridgeStop)
      && (e.spawned == Some(Recovery(EnsureCheck)) <==> e.next.enter.outcome.Aborted?)
  }

  ghost predicate Rules(pc: Pc, c: Call, e: Effect) {
    ControlRule(pc, c, e) && FlagRule(pc, c, e) && BridgeRule(pc, c, e) && DecisionRule(pc, c, e)
  }

  lemma EnterControl(pc: EnterPc, c: Call, env: Env)
    ensures ControlRule(Enter(pc), c, EnterSection(pc, c, env))
  {}

  lemma EnterDecision(pc: EnterPc, c: Call, env: Env)
    ensures DecisionRule(Enter(pc), c, EnterSection(pc, c, env))
  {}

  lemma EnterFlags(pc: EnterPc, c: Call, env: Env)
    ensures FlagRule(Enter(pc), c, EnterSection(pc, c, env))
  {
    match pc
    case Decide(had, dialTone, moh) =>
      if c.holdEnterAborted {} else if c.holdActive {} else {}
    case _ =>
  }

  lemma EnterBridge(pc: EnterPc, c: Call, env: Env)
    ensures BridgeRule(Enter(pc), c, EnterSection(pc, c, env))
  {}

  lemma EnterRules(pc: EnterPc, c: Call, env: Env)
    ensures Rules(Enter(pc), c, EnterSection(pc, c, env))
  {
    EnterControl(pc, c, env);
    EnterDecision(pc, c, env);
    EnterFlags(pc, c, env);
    EnterBridge(pc, c, env);
  }

  lemma LeaveControl(pc: LeavePc, c: Call, env: Env)
    ensures var e := LeaveSection(pc, c, env); ControlRule(Leave(pc), c, e) && DecisionRule(Leave(pc), c, e)
  {}

  lemma LeaveFields(pc: LeavePc, c: Call, env: Env)
    ensures var e := LeaveSection(pc, c, env); FlagRule(Leave(pc), c, e) && BridgeRule(Leave(pc), c, e)
  {}

  lemma RecoveryRules(pc: RecoveryPc, c: Call, env: Env)
    ensures Rules(Recovery(pc), c, RecoverySection(pc, c, env))
  {}

  lemma UpdateControl(pc: UpdatePc, c: Call, env: Env)
    ensures var e := UpdateSection(pc, c, env); ControlRule(Update(pc), c, e) && DecisionRule(Update(pc), c, e)
  {}

  lemma UpdateFlags(pc: UpdatePc, c: Call, env: Env)
    ensures FlagRule(Update(pc), c, UpdateSection(pc, c, env))
  {}

  lemma UpdateBridge(pc: UpdatePc, c: Call, env: Env)
    ensures BridgeRule(Update(pc), c, UpdateSection(pc, c, env))
  {}

  lemma UpdateRules(pc: UpdatePc, c: Call, env: Env)
    ensures Rules(Update(pc), c, UpdateSection(pc, c, env))
  {
    UpdateControl(pc, c, env);
    UpdateFlags(pc, c, env);
    UpdateBridge(pc, c, env);
  }

  lemma SetupRules(pc: Pc, c: Call, env: Env)
    requires pc.StoreBridge? || pc.MarkReady? || pc.Finished?
    ensures Rules(pc, c, Section(pc, c, env))
  {}

  lemma SectionRules(pc: Pc, c: Call, env: Env)
    ensures Rules(pc, c, Section(pc, c, env))
  {
    match pc
    case Enter(at) =>
      assert Section(pc, c, env) == EnterSection(at, c, env);
      EnterRules(at, c, env);
    case Leave(at) =>
      assert Section(pc, c, env) == LeaveSection(at, c, env);
      LeaveControl(at, c, env);
      LeaveFields(at, c, env);
    case Recovery(at) =>
      assert Section(pc, c, env) == RecoverySection(at, c, env);
      RecoveryRules(at, c, env);
    case Update(at) =>
      assert Section(pc, c, env) == UpdateSection(at, c, env);
      UpdateRules(at, c, env);
    case _ => SetupRules(pc, c, env);
  }

  ghost predicate Lawful(s: State, id: nat, e: Effect, newId: nat) {
    && id in s.threads && (e.spawned.Some? ==> newId !in s.threads)
    && Rules(s.threads[id], s.call, e)
  }

  lemma EntryInvMove(s: State, id: nat, e: Effect, newId: nat)
    requires Lawful(s, id, e, newId) && EntryInv(s)
    ensures EntryInv(Move(s, id, e, newId))
  {}

  lemma SetupInvMove(s: State, id: nat, e: Effect, newId: nat)
    requires Lawful(s, id, e, newId) && EntryInv(s) && SetupInv(s)
    ensures SetupInv(Move(s, id, e, newId))
  {}

  lemma ExclusionInvMove(s: State, id: nat, e: Effect, newId: nat)
    requires Lawful(s, id, e, newId) && Inv(s)
    ensures ExclusionInv(Move(s, id, e, newId))
  {}

  lemma LedgerInvMove(s: State, id: nat, e: Effect, newId: nat)
    requires Lawful(s, id, e, newId) && Inv(s)
    ensures LedgerInv(Move(s, id, e, newId))
  {}

  lemma InvStep(s: State, a: Action)
    requires Inv(s)
    ensures Inv(Exec(s, a))
  {
    if a.Go? && a.id in s.threads {
      var pc := s.threads[a.id];
      var e := Section(pc, s.call, a.env);
      SectionRules(pc, s.call, a.env);
      if !(e.spawned.Some? && a.env.newId in s.threads) {
        EntryInvMove(s, a.id, e, a.env.newId);
        SetupInvMove(s, a.id, e, a.env.newId);
        ExclusionInvMove(s, a.id, e, a.env.newId);
        LedgerInvMove(s, a.id, e, a.env.newId);
      }
    }
  }

  lemma {:induction false} InvRun(s: State, acts: seq<Action>)
    requires Inv(s)
    ensures Inv(Run(s, acts))
    decreases acts
  {
    if acts != [] {
      InvStep(s, acts[0]);
      InvRun(Exec(s, acts[0]), acts[1..]);
    }
  }

  // ---- Main results

  lemma {:induction false} RunAppend(s: State, a: seq<Action>, b: seq<Action>)
    ensures Run(s, a + b) == Run(Run(s, a), b)
    decreases a
  {
    if a == [] {
      assert a + b == b;
    } else {
      assert (a + b)[0] == a[0] && (a + b)[1..] == a[1..] + b;
      RunAppend(Exec(s, a[0]), a[1..], b);
    }
  }

  /** Exclusion: under every interleaving, hold with an installed bridge handle occurs only if a leave() was in
      its body when this hold's enter() passed its guard, and then only once that leave() installed its bridge. */
  lemma {:induction false} HoldExcludesBridge(acts: seq<Action>)
    ensures var s := Run(Start, acts);
            && (HoldAndBridge(s) ==> s.hist.overlap && s.hist.installed)
            && (s.call.holdActive && !s.hist.overlap ==> !s.call.bridgeStop && !LeaveRunning(s.threads))
            && (s.call.holdActive ==> (s.call.bridgeStop <==> s.hist.installed))
  {
    InvRun(Start, acts);
  }

  /** Entries: one at a time, the "already active" checks never fire, and each that passed its guard either is
      still undecided or has its one end, a clean one. */
  lemma {:induction false} EntriesEndCleanly(acts: seq<Action>)
    ensures var s := Run(Start, acts);
            && (forall i, j :: i in s.threads && j in s.threads && InEntry(s.threads[i]) && InEntry(s.threads[j]) ==>
                    i == j)
            && (forall i :: i in s.threads && s.threads[i].Enter? && s.threads[i].enter.Recheck? ==> !s.call.holdActive)
            && (forall i :: i in s.threads && s.threads[i].Enter? && s.threads[i].enter.Decide? ==> !s.call.holdActive)
            && |s.hist.ends| + (if EntryUndecided(s) then 1 else 0) == s.hist.entries
            && (forall e :: e in s.hist.ends ==>
                  && (e.activated <==> e.attempt.NotTried?) && (e.attempt.Started? ==> e.handle)
                  && (e.aborted ==> !e.activated) && (e.goesOnTrying <==> e.aborted))
  {
    InvRun(Start, acts);
  }

  /** Concurrent leave() calls run exactly one body per finished hold. */
  lemma {:induction false} OneLeaveBodyPerActivation(acts: seq<Action>)
    ensures var s := Run(Start, acts);
            s.hist.leaveBodies == s.hist.activations - (if s.call.holdActive then 1 else 0)
  {
    InvRun(Start, acts);
  }

  lemma {:induction false} OverlapStable(s: State, acts: seq<Action>)
    ensures s.hist.entries <= Run(s, acts).hist.entries
    ensures Run(s, acts).hist.entries == s.hist.entries ==> Run(s, acts).hist.overlap == s.hist.overlap
    decreases acts
  {
    if acts != [] {
      assert s.hist.entries <= Exec(s, acts[0]).hist.entries <= s.hist.entries + 1;
      OverlapStable(Exec(s, acts[0]), acts[1..]);
    }
  }

  /** An environment in which every leg is ready and every bridge and tone starts. */
  const Smooth := Env(true, false, true, true, true, true, true, false, NoteDirection, 0)

  lemma {:induction false} LeaveCanInstall(s: State, id: nat) returns (acts: seq<Action>)
    requires Inv(s) && EntryUndecided(s) && id in s.threads && LeaveInBody(s.threads[id]) && !s.call.holdEnterAborted
    ensures var t := Run(s, acts);
            && Inv(t) && t.hist.entries == s.hist.entries && t.hist.entrant == s.hist.entrant && EntryUndecided(t)
            && t.threads[t.hist.entrant.value] == s.threads[s.hist.entrant.value]
            && t.call.bridgeStop && !t.call.holdEnterAborted
    decreases match s.threads[id].leave
              case Check => 0 case Clear => 4 case Sendonly => 3 case AwaitLegs => 2 case Install => 1
  {
    var a := Go(id, Smooth);
    var t := Exec(s, a);
    InvStep(s, a);
    assert t.threads == s.threads[id := Section(s.threads[id], s.call, Smooth).next];
    assert t.threads[s.hist.entrant.value] == s.threads[s.hist.entrant.value];
    if s.threads[id].leave.Install? {
      acts := [a];
      assert Run(s, [a]) == Run(t, []);
    } else {
      var rest := LeaveCanInstall(t, id);
      acts := [a] + rest;
      assert acts[0] == a && acts[1..] == rest;
    }
  }

  lemma {:induction false} EntryCanActivate(s: State) returns (acts: seq<Action>)
    requires Inv(s) && EntryUndecided(s) && s.call.bridgeStop && !s.call.holdEnterAborted
    requires var pc := s.threads[s.hist.entrant.value].enter; pc.Decide? ==> pc.dialTone || pc.moh
    ensures HoldAndBridge(Run(s, acts)) && Run(s, acts).hist.entries == s.hist.entries
    decreases match s.threads[s.hist.entrant.value].enter
              case Seed(_) => 4 case Recheck(_) => 3 case Media(_) => 2 case Decide(_, _, _) => 1 case _ => 0
  {
    var id := s.hist.entrant.value;
    var a := Go(id, Smooth);
    var t := Exec(s, a);
    InvStep(s, a);
    if s.threads[id].enter.Decide? {
      acts := [a];
      assert Run(s, [a]) == Run(t, []);
    } else {
      var rest := EntryCanActivate(t);
      acts := [a] + rest;
      assert acts[0] == a && acts[1..] == rest;
    }
  }

  lemma {:induction false} OverlapNecessary(t: State, acts: seq<Action>)
    requires Inv(t) && HoldAndBridge(Run(t, acts)) && Run(t, acts).hist.entries == t.hist.entries
    ensures t.hist.overlap
  {
    InvRun(t, acts);
    OverlapStable(t, acts);
  }

  lemma OverlapSuffices(t: State, id: nat) returns (acts: seq<Action>)
    requires Inv(t) && EntryUndecided(t) && t.threads[t.hist.entrant.value].enter.Seed? && !t.call.holdEnterAborted
    requires id in t.threads && LeaveInBody(t.threads[id])
    ensures HoldAndBridge(Run(t, acts)) && Run(t, acts).hist.entries == t.hist.entries
  {
    var first := LeaveCanInstall(t, id);
    var second := EntryCanActivate(Run(t, first));
    RunAppend(t, first, second);
    acts := first + second;
  }

  /** The condition is exact: an entry can end up holding with an installed bridge handle
      if and only if some leave() is in its body at the moment enter() passes its guard. */
  lemma {:induction false} OverlapIsExact(prefix: seq<Action>, id: nat, env: Env)
    requires var s := Run(Start, prefix); id in s.threads && s.threads[id] == Enter(Guard)
    requires InEntry(Section(Enter(Guard), Run(Start, prefix).call, env).next)
    ensures var s := Run(Start, prefix); var t := Exec(s, Go(id, env));
            LeaveRunning(s.threads) <==>
            exists acts :: HoldAndBridge(Run(t, acts)) && Run(t, acts).hist.entries == t.hist.entries
  {
    var s := Run(Start, prefix);
    var t := Exec(s, Go(id, env));
    InvRun(Start, prefix);
    InvStep(s, Go(id, env));
    assert t.hist.overlap == LeaveRunning(s.threads);
    forall acts | HoldAndBridge(Run(t, acts)) && Run(t, acts).hist.entries == t.hist.entries
      ensures LeaveRunning(s.threads)
    {
      OverlapNecessary(t, acts);
    }
    if LeaveRunning(s.threads) {
      var i :| i in s.threads && LeaveInBody(s.threads[i]);
      assert i in t.threads && t.threads[i] == s.threads[i];
      var acts := OverlapSuffices(t, i);
    }
  }

  // ---- The overlap occurs

  lemma Extend(acts: seq<Action>, a: Action) returns (more: seq<Action>)
    ensures Run(Start, more) == Exec(Run(Start, acts), a)
  {
    more := acts + [a];
    RunAppend(Start, acts, [a]);
    assert Run(Exec(Run(Start, acts), a), [a][1..]) == Exec(Run(Start, acts), a);
  }

  /** A goroutine runs a section that starts no other. */
  lemma GoOn(acts: seq<Action>, id: nat, pc: Pc, env: Env) returns (more: seq<Action>)
    requires var s := Run(Start, acts); id in s.threads && s.threads[id] == pc && Section(pc, s.call, env).spawned.None?
    ensures var s, t := Run(Start, acts), Run(Start, more);
            var e := Section(pc, s.call, env);
            t.call == e.call && t.threads == s.threads[id := e.next]
  {
    more := Extend(acts, Go(id, env));
  }

  /** On a call with no hold a media update comes to the point where it looks for a hold signal. */
  lemma UpdateArrives(acts: seq<Action>, id: nat) returns (more: seq<Action>)
    requires var s := Run(Start, acts); !s.call.holdActive && !s.call.holdEntering && id !in s.threads
    ensures var s, t := Run(Start, acts), Run(Start, more);
            t.call == s.call && t.threads == s.threads[id := Update(HoldSignal)]
  {
    var quiet := Smooth.(legsReady := false);
    more := Extend(acts, MediaUpdate(id, true));
    more := GoOn(more, id, Update(Snapshot(true)), quiet);
    more := GoOn(more, id, Update(Released(true)), quiet);
    more := GoOn(more, id, Update(MaybeRestart(true)), quiet);
    more := GoOn(more, id, Update(Unstick), quiet);
  }

  /** An inbound media update that signals hold on a call with no hold starts an entry. */
  lemma HoldSignalled(acts: seq<Action>, id: nat, entry: nat) returns (more: seq<Action>)
    requires var s := Run(Start, acts);
             s.call.bridgeReady && !s.call.holdActive && !s.call.holdEntering
             && id !in s.threads && entry !in s.threads && id != entry
    ensures var s, t := Run(Start, acts), Run(Start, more);
            t.call == s.call && t.threads == s.threads[id := Finished][entry := Enter(Guard)]
  {
    more := UpdateArrives(acts, id);
    more := Extend(more, Go(id, Smooth.(newId := entry)));
  }

  lemma EntryPassesGuard(acts: seq<Action>, id: nat) returns (more: seq<Action>, had: bool)
    requires var s := Run(Start, acts);
             id in s.threads && s.threads[id] == Enter(Guard) && !s.call.holdActive && !s.call.holdEntering
    ensures var s, t := Run(Start, acts), Run(Start, more);
            && t.threads == s.threads[id := Enter(Recheck(had))]
            && t.call == s.call.(holdEntering := true, holderPhoneHold := true, holderSawRecvonly := true,
                                 holdEnterAborted := false, bridgeStop := false)
  {
    had := Run(Start, acts).call.bridgeStop;
    more := GoOn(acts, id, Enter(Guard), Smooth);
    more := GoOn(more, id, Enter(Seed(had)), Smooth);
  }

  lemma EntryDecides(acts: seq<Action>, id: nat) returns (more: seq<Action>, had: bool)
    requires var s := Run(Start, acts);
             id in s.threads && s.threads[id] == Enter(Guard) && !s.call.holdActive && !s.call.holdEntering
    ensures var s, t := Run(Start, acts), Run(Start, more);
            && t.threads == s.threads[id := Enter(Decide(had, true, true))]
            && t.call == s.call.(holdEntering := true, holderPhoneHold := true, holderSawRecvonly := true,
                                 holdEnterAborted := false, bridgeStop := false)
  {
    more, had := EntryPassesGuard(acts, id);
    more := GoOn(more, id, Enter(Recheck(had)), Smooth);
    more := GoOn(more, id, Enter(Media(had)), Smooth);
  }

  /** An entry that nobody disturbs activates hold. */
  lemma EntryActivates(acts: seq<Action>, id: nat) returns (more: seq<Action>)
    requires var s := Run(Start, acts);
             id in s.threads && s.threads[id] == Enter(Guard) && !s.call.holdActive && !s.call.holdEntering
    ensures var s, t := Run(Start, acts), Run(Start, more);
            && t.threads == s.threads[id := Finished]
            && t.call == s.call.(holdActive := true, holderPhoneHold := true, holderSawRecvonly := true,
                                 holdEnterAborted := false, bridgeStop := false)
  {
    var had;
    more, had := EntryDecides(acts, id);
    more := GoOn(more, id, Enter(Decide(had, true, true)), Smooth);
    more := GoOn(more, id, Enter(Exit(Activated)), Smooth);
  }

  /** A media update may drive leave(), which then is in its body. */
  lemma LeaveBegins(acts: seq<Action>, id: nat, leaver: nat) returns (more: seq<Action>)
    requires var s := Run(Start, acts);
             s.call.holdActive && id !in s.threads && leaver !in s.threads && id != leaver
    ensures var s, t := Run(Start, acts), Run(Start, more);
            && !t.call.holdActive && t.call.bridgeReady == s.call.bridgeReady
            && t.call.holdEntering == s.call.holdEntering
            && t.threads.Keys == s.threads.Keys + {id, leaver} && LeaveInBody(t.threads[leaver])
  {
    more := Extend(acts, MediaUpdate(id, true));
    more := GoOn(more, id, Update(Snapshot(true)), Smooth);
    more := Extend(more, Go(id, Smooth.(reaction := DriveLeave, newId := leaver)));
    more := GoOn(more, leaver, Leave(Check), Smooth);
  }

  lemma SetUp() returns (acts: seq<Action>)
    ensures var s := Run(Start, acts);
            s.call == Start.call.(bridgeStop := true, bridgeReady := true) && s.threads == map[0 := Finished]
  {
    acts := Extend([], Go(0, Smooth));
    acts := Extend(acts, Go(0, Smooth));
  }

  /** From call set-up, a second hold can begin while the leave() of the first is still in its body. */
  lemma OverlapOccurs() returns (prefix: seq<Action>)
    ensures var s := Run(Start, prefix);
            && 6 in s.threads && s.threads[6] == Enter(Guard) && LeaveRunning(s.threads)
            && InEntry(Section(Enter(Guard), s.call, Smooth).next)
  {
    prefix := SetUp();
    prefix := HoldSignalled(prefix, 1, 2);
    prefix := EntryActivates(prefix, 2);
    prefix := LeaveBegins(prefix, 3, 4);
    var leaving := Run(Start, prefix);
    prefix := HoldSignalled(prefix, 5, 6);
    assert Run(Start, prefix).threads[4] == leaving.threads[4];
  }

  /** So the state the protocol means to exclude is reached in some run. */
  lemma HoldAndBridgeOccurs() returns (acts: seq<Action>)
    ensures HoldAndBridge(Run(Start, acts))
  {
    var prefix := OverlapOccurs();
    OverlapIsExact(prefix, 6, Smooth);
    var t := Exec(Run(Start, prefix), Go(6, Smooth));
    var rest :| HoldAndBridge(Run(t, rest)) && Run(t, rest).hist.entries == t.hist.entries;
    acts := Extend(prefix, Go(6, Smooth));
    RunAppend(Start, acts, rest);
    acts := acts + rest;
  }
}
