/** One conference room: callers reserve a seat, clear the PIN gate, are admitted and leave, while every
    change of the admitted set is followed by a reconcile that switches between hold music and the mixer.

    Each section under the room lock is one action; any number of callers and of hold re-INVITE
    handlers interleave.  `Env` carries what reconcile learns from outside. */
module ConferenceRoom {
  import opened Wrappers
  import opened Lists

  datatype MediaEvent = MohStopped | MixerCleared | LegAdded(leg: nat) | MohStarted(listener: nat)

  /** The room record; `log` lists what reconcile did to the media, in order. */
  datatype Room = Room(count: int, reserved: int, max: int, sessions: seq<nat>,
                       moh: Option<nat>, mixer: set<nat>, log: seq<MediaEvent>)

  /** What reconcile meets: which legs the mixer accepts and whether hold music can start. */
  datatype Env = Env(mohAvailable: bool, mohStarts: bool, addable: set<nat>)

  // ---- The locked sections of the room

  function Alive(sessions: seq<nat>, ended: set<nat>): seq<nat> { Filter(sessions, c => c !in ended) }

  function RemoveFirst(s: seq<nat>, c: nat): seq<nat> {
    if s == [] then [] else if s[0] == c then s[1..] else [s[0]] + RemoveFirst(s[1..], c)
  }

  function AddLegs(r: Room, legs: seq<nat>, addable: set<nat>): Room
    decreases legs
  {
    if legs == [] then r
    else if legs[0] !in addable then AddLegs(r, legs[1..], addable)
    else AddLegs(r.(mixer := r.mixer + {legs[0]}, log := r.log + [LegAdded(legs[0])]), legs[1..], addable)
  }

  function Silence(r: Room): Room {
    r.(moh := None, mixer := {}, log := r.log + (if r.moh.Some? then [MohStopped] else []) + [MixerCleared])
  }

  function ApplyMedia(r: Room, alive: seq<nat>, env: Env): Room {
    var quiet := Silence(r);
    var admitted := if r.count == 0 then |alive| else r.count;
    if alive == [] then quiet
    else if admitted >= 2 then AddLegs(quiet, alive, env.addable)
    else if admitted == 1 && |alive| == 1 && env.mohAvailable && env.mohStarts then
      quiet.(moh := Some(alive[0]), log := quiet.log + [MohStarted(alive[0])])
    else quiet
  }

  // ---- The protocol

  datatype Phase = Authenticating(wrong: nat) | Passed | Joining | InRoom | Leaving | Gone

  const MAX_PIN_ATTEMPTS := 3

  /** `pin` is None for an open room.  `refreshes` counts re-INVITE handlers that found their caller admitted
      and have not reconciled yet.  The rest is bookkeeping: `proofs` are the PIN entries that let callers pass, and
      `settled`, `endedThen` and `envThen` what the last reconcile met: sessions, ended calls, environment. */
  datatype State = State(room: Room, callers: map<nat, Phase>, ended: set<nat>, refreshes: nat,
                         pin: Option<string -> bool>, proofs: map<nat, string>,
                         settled: seq<nat>, endedThen: set<nat>, envThen: Env)

  datatype Action =
    | Arrive(caller: nat) | Answered(caller: nat) | PinEntry(caller: nat, entered: string) | Reject(caller: nat)
    | Admit(caller: nat) | Reconcile(caller: nat, env: Env) | HangUp(caller: nat) | Leave(caller: nat)
    | UpdateCheck(caller: nat) | UpdateReconcile(env: Env)

  predicate At(s: State, c: nat, p: Phase) { c in s.callers && s.callers[c] == p }

  predicate Trying(s: State, c: nat) { c in s.callers && s.callers[c].Authenticating? }

  function Settle(s: State, env: Env): State {
    s.(room := ApplyMedia(s.room, Alive(s.room.sessions, s.ended), env),
       settled := s.room.sessions, endedThen := s.ended, envThen := env)
  }

  /** One action; a disabled one changes nothing. */
  function Exec(s: State, a: Action): State {
    var r := s.room;
    match a
    case Arrive(c) =>
      if c in s.callers then s
      else if r.count + r.reserved >= r.max then s.(callers := s.callers[c := Gone])
      else s.(room := r.(reserved := r.reserved + 1), callers := s.callers[c := Authenticating(0)])
    case Answered(c) =>
      if Trying(s, c) && s.pin.None? then s.(callers := s.callers[c := Passed]) else s
    case PinEntry(c, entered) =>
      if !Trying(s, c) || s.pin.None? || s.callers[c].wrong >= MAX_PIN_ATTEMPTS then s
      else if s.pin.value(entered) then s.(callers := s.callers[c := Passed], proofs := s.proofs[c := entered])
      else s.(callers := s.callers[c := Authenticating(s.callers[c].wrong + 1)])
    case Reject(c) =>
      if Trying(s, c) then s.(room := r.(reserved := r.reserved - 1), callers := s.callers[c := Gone]) else s
    case Admit(c) =>
      if At(s, c, Passed)
      then s.(room := r.(reserved := r.reserved - 1, count := r.count + 1, sessions := r.sessions + [c]),
              callers := s.callers[c := Joining])
      else s
    case Reconcile(c, env) =>
      if At(s, c, Joining) then Settle(s, env).(callers := s.callers[c := InRoom])
      else if At(s, c, Leaving) then Settle(s, env).(callers := s.callers[c := Gone])
      else s
    case HangUp(c) => s.(ended := s.ended + {c})
    case Leave(c) =>
      if At(s, c, InRoom) && c in s.ended
      then s.(room := r.(count := r.count - 1, sessions := RemoveFirst(r.sessions, c)),
              callers := s.callers[c := Leaving])
      else s
    case UpdateCheck(c) => if c in r.sessions then s.(refreshes := s.refreshes + 1) else s
    case UpdateReconcile(env) => if s.refreshes > 0 then Settle(s, env).(refreshes := s.refreshes - 1) else s
  }

  function Run(s: State, acts: seq<Action>): State
    decreases acts
  {
    if acts == [] then s else Run(Exec(s, acts[0]), acts[1..])
  }

  /** A new room; configured capacities below two fall back to sixteen. */
  function Start(max: int, pin: Option<string -> bool>): State {
    State(Room(0, 0, if max < 2 then 16 else max, [], None, {}, []), map[], {}, 0, pin, map[],
          [], {}, Env(false, false, {}))
  }

  // ---- Seats

  function Holding(callers: map<nat, Phase>): set<nat> {
    set c | c in callers && (callers[c].Authenticating? || callers[c].Passed?)
  }

  function Admitted(callers: map<nat, Phase>): set<nat> {
    set c | c in callers && (callers[c].Joining? || callers[c].InRoom?)
  }

  predicate Distinct(s: seq<nat>) { forall i, j :: 0 <= i < j < |s| ==> s[i] != s[j] }

  /** Seat accounting: the counters are the sizes of the caller sets they stand for. */
  ghost predicate SeatInv(r: Room, callers: map<nat, Phase>) {
    && r.reserved == |Holding(callers)|
    && r.count == |Admitted(callers)| == |r.sessions|
    && Distinct(r.sessions)
    && (forall c :: c in r.sessions <==> c in Admitted(callers))
    && r.count + r.reserved <= r.max
  }

  ghost predicate PinInv(s: State) {
    && (s.pin.Some? ==>
          (forall c :: c in s.callers && (s.callers[c].Passed? || s.callers[c].Joining? || s.callers[c].InRoom?)
             ==> c in s.proofs && s.pin.value(s.proofs[c])))
    && (forall c :: c in s.callers && s.callers[c].Authenticating? ==> s.callers[c].wrong <= MAX_PIN_ATTEMPTS)
  }

  lemma {:induction false} RemoveFirstFacts(s: seq<nat>, c: nat)
    requires Distinct(s) && c in s
    ensures var r := RemoveFirst(s, c); |r| == |s| - 1 && Distinct(r) && (forall d :: d in r <==> d in s && d != c)
  {
    if s[0] == c {
      assert forall d :: d in s <==> d == s[0] || d in s[1..];
    } else {
      assert c in s[1..];
      RemoveFirstFacts(s[1..], c);
      assert forall d :: d in s <==> d == s[0] || d in s[1..];
      var r := RemoveFirst(s[1..], c);
      assert forall j :: 0 <= j < |s[1..]| ==> s[1..][j] == s[j + 1] != s[0];
      assert forall j :: 0 <= j < |r| ==> r[j] in r && r[j] in s[1..];
    }
  }

  lemma PhaseChange(callers: map<nat, Phase>, c: nat, p: Phase)
    ensures Holding(callers[c := p]) ==
            if p.Authenticating? || p.Passed? then Holding(callers) + {c} else Holding(callers) - {c}
    ensures Admitted(callers[c := p]) ==
            if p.Joining? || p.InRoom? then Admitted(callers) + {c} else Admitted(callers) - {c}
  {}

  lemma {:induction false} AddLegsKeepsSeats(r: Room, legs: seq<nat>, addable: set<nat>)
    ensures var t := AddLegs(r, legs, addable); t == r.(mixer := t.mixer, log := t.log)
    decreases legs
  {
    if legs != [] {
      var added := r.(mixer := r.mixer + {legs[0]}, log := r.log + [LegAdded(legs[0])]);
      AddLegsKeepsSeats(if legs[0] in addable then added else r, legs[1..], addable);
    }
  }

  lemma ApplyMediaKeepsSeats(r: Room, alive: seq<nat>, env: Env)
    ensures var t := ApplyMedia(r, alive, env); t == r.(moh := t.moh, mixer := t.mixer, log := t.log)
  {
    AddLegsKeepsSeats(Silence(r), alive, env.addable);
  }

  /** A caller changing phase without changing which set it is in. */
  lemma SeatsSamePhaseClass(r: Room, callers: map<nat, Phase>, c: nat, p: Phase)
    requires SeatInv(r, callers)
    requires (p.Authenticating? || p.Passed?) <==> c in Holding(callers)
    requires (p.Joining? || p.InRoom?) <==> c in Admitted(callers)
    ensures SeatInv(r, callers[c := p])
  {
    PhaseChange(callers, c, p);
    assert Holding(callers[c := p]) == Holding(callers) && Admitted(callers[c := p]) == Admitted(callers);
  }

  lemma NewCaller(callers: map<nat, Phase>, c: nat)
    requires c !in callers
    ensures |Holding(callers[c := Authenticating(0)])| == |Holding(callers)| + 1
    ensures Admitted(callers[c := Authenticating(0)]) == Admitted(callers)
  {
    PhaseChange(callers, c, Authenticating(0));
    assert c !in Holding(callers) && c !in Admitted(callers);
  }

  lemma SeatsReserve(r: Room, callers: map<nat, Phase>, c: nat)
    requires SeatInv(r, callers) && c !in callers && r.count + r.reserved < r.max
    ensures SeatInv(r.(reserved := r.reserved + 1), callers[c := Authenticating(0)])
  {
    NewCaller(callers, c);
  }

  lemma SeatsCancel(r: Room, callers: map<nat, Phase>, c: nat)
    requires SeatInv(r, callers) && c in callers && callers[c].Authenticating?
    ensures SeatInv(r.(reserved := r.reserved - 1), callers[c := Gone])
  {
    PhaseChange(callers, c, Gone);
    assert c in Holding(callers);
  }

  lemma SeatsAdmit(r: Room, callers: map<nat, Phase>, c: nat)
    requires SeatInv(r, callers) && c in callers && callers[c].Passed?
    ensures SeatInv(r.(reserved := r.reserved - 1, count := r.count + 1, sessions := r.sessions + [c]),
                    callers[c := Joining])
  {
    PhaseChange(callers, c, Joining);
    assert c in Holding(callers) && c !in r.sessions;
  }

  lemma {:induction false} SeatsLeave(r: Room, callers: map<nat, Phase>, c: nat)
    requires SeatInv(r, callers) && c in callers && callers[c].InRoom?
    ensures SeatInv(r.(count := r.count - 1, sessions := RemoveFirst(r.sessions, c)), callers[c := Leaving])
  {
    DepartingCaller(callers, c);
    RemoveFirstFacts(r.sessions, c);
  }

  lemma DepartingCaller(callers: map<nat, Phase>, c: nat)
    requires c in callers && callers[c].InRoom?
    ensures var after := callers[c := Leaving];
            c in Admitted(callers) && Admitted(after) == Admitted(callers) - {c} && Holding(after) == Holding(callers)
  {
    PhaseChange(callers, c, Leaving);
  }

  lemma SeatsReconcile(r: Room, alive: seq<nat>, env: Env, callers: map<nat, Phase>)
    requires SeatInv(r, callers)
    ensures SeatInv(ApplyMedia(r, alive, env), callers)
  {
    ApplyMediaKeepsSeats(r, alive, env);
  }

  lemma SeatsCallerReconcile(s: State, c: nat, env: Env)
    requires SeatInv(s.room, s.callers)
    ensures var t := Exec(s, Reconcile(c, env)); SeatInv(t.room, t.callers)
  {
    var room := ApplyMedia(s.room, Alive(s.room.sessions, s.ended), env);
    SeatsReconcile(s.room, Alive(s.room.sessions, s.ended), env, s.callers);
    if At(s, c, Joining) { SeatsSamePhaseClass(room, s.callers, c, InRoom); }
    if At(s, c, Leaving) { SeatsSamePhaseClass(room, s.callers, c, Gone); }
  }

  lemma SeatInvStep(s: State, a: Action)
    requires SeatInv(s.room, s.callers)
    ensures var t := Exec(s, a); SeatInv(t.room, t.callers)
  {
    match a
    case Arrive(c) =>
      if c !in s.callers {
        if s.room.count + s.room.reserved >= s.room.max { SeatsSamePhaseClass(s.room, s.callers, c, Gone); }
        else { SeatsReserve(s.room, s.callers, c); }
      }
    case Answered(c) => if Trying(s, c) { SeatsSamePhaseClass(s.room, s.callers, c, Passed); }
    case PinEntry(c, _) =>
      if Trying(s, c) {
        SeatsSamePhaseClass(s.room, s.callers, c, Passed);
        SeatsSamePhaseClass(s.room, s.callers, c, Authenticating(s.callers[c].wrong + 1));
      }
    case Reject(c) => if Trying(s, c) { SeatsCancel(s.room, s.callers, c); }
    case Admit(c) => if At(s, c, Passed) { SeatsAdmit(s.room, s.callers, c); }
    case Reconcile(c, env) => SeatsCallerReconcile(s, c, env);
    case Leave(c) => if At(s, c, InRoom) { SeatsLeave(s.room, s.callers, c); }
    case UpdateReconcile(env) =>
      SeatsReconcile(s.room, Alive(s.room.sessions, s.ended), env, s.callers);
    case _ =>
  }

  lemma PinInvStep(s: State, a: Action)
    requires PinInv(s)
    ensures PinInv(Exec(s, a))
  {}

  // ---- Media

  /** What is playing after a history of media events.  `sound` turns false at the first overlap: a mixer leg
      added while hold music plays, or hold music started over a filled mixer or over other hold music. */
  datatype Playing = Playing(moh: Option<nat>, mixer: set<nat>, sound: bool)

  function Play(p: Playing, e: MediaEvent): Playing {
    match e
    case MohStopped => p.(moh := None)
    case MixerCleared => p.(mixer := {})
    case LegAdded(leg) => Playing(p.moh, p.mixer + {leg}, p.sound && p.moh.None?)
    case MohStarted(c) => Playing(Some(c), p.mixer, p.sound && p.moh.None? && p.mixer == {})
  }

  function Replay(log: seq<MediaEvent>): Playing {
    if log == [] then Playing(None, {}, true) else Play(Replay(log[..|log| - 1]), log[|log| - 1])
  }

  lemma {:induction false} ReplayAppend(log: seq<MediaEvent>, e: MediaEvent)
    ensures Replay(log + [e]) == Play(Replay(log), e)
  {}

  ghost predicate LogTrue(r: Room) { Replay(r.log) == Playing(r.moh, r.mixer, true) }

  lemma SilenceLog(r: Room)
    requires LogTrue(r)
    ensures LogTrue(Silence(r))
  {
    if r.moh.Some? {
      ReplayAppend(r.log, MohStopped);
      ReplayAppend(r.log + [MohStopped], MixerCleared);
      assert r.log + [MohStopped] + [MixerCleared] == Silence(r).log;
    } else {
      ReplayAppend(r.log, MixerCleared);
      assert r.log + [] + [MixerCleared] == r.log + [MixerCleared];
    }
  }

  lemma {:induction false} AddLegsMedia(r: Room, legs: seq<nat>, addable: set<nat>)
    requires LogTrue(r) && r.moh.None?
    ensures var t := AddLegs(r, legs, addable);
            && LogTrue(t) && t.moh.None?
            && t.mixer == r.mixer + (set c | c in legs && c in addable)
    decreases legs
  {
    if legs != [] {
      var c := legs[0];
      assert forall d :: d in legs <==> d == c || d in legs[1..];
      if c in addable {
        ReplayAppend(r.log, LegAdded(c));
        AddLegsMedia(r.(mixer := r.mixer + {c}, log := r.log + [LegAdded(c)]), legs[1..], addable);
      } else {
        AddLegsMedia(r, legs[1..], addable);
      }
    }
  }

  lemma {:induction false} AliveFacts(sessions: seq<nat>, ended: set<nat>)
    ensures forall c :: c in Alive(sessions, ended) <==> c in sessions && c !in ended
    ensures |Alive(sessions, ended)| <= |sessions|
    ensures |Alive(sessions, ended)| == |sessions| ==> Alive(sessions, ended) == sessions
  {
    if sessions != [] {
      assert forall c :: c in sessions <==> c == sessions[0] || c in sessions[1..];
      AliveFacts(sessions[1..], ended);
    }
  }

  /** What the room plays for the sessions, ended calls and environment it was last reconciled for: with two or more
      sessions exactly the legs of those not ended that the mixer accepts, and music exactly to a lone one. */
  ghost predicate MediaFits(r: Room, settled: seq<nat>, ended: set<nat>, env: Env) {
    && LogTrue(r)
    && r.mixer == (if |settled| >= 2 then set c | c in settled && c !in ended && c in env.addable else {})
    && r.moh == (if |settled| == 1 && settled[0] !in ended && env.mohAvailable && env.mohStarts
                 then Some(settled[0]) else None)
  }

  lemma ReconcileFits(r: Room, ended: set<nat>, env: Env)
    requires LogTrue(r) && r.count == |r.sessions|
    ensures MediaFits(ApplyMedia(r, Alive(r.sessions, ended), env), r.sessions, ended, env)
  {
    PlaysExactly(r, ended, env);
    ReconcileLog(r, Alive(r.sessions, ended), env);
  }

  lemma ReconcileLog(r: Room, alive: seq<nat>, env: Env)
    requires LogTrue(r)
    ensures LogTrue(ApplyMedia(r, alive, env))
  {
    SilenceLog(r);
    if alive != [] {
      AddLegsMedia(Silence(r), alive, env.addable);
      ReplayAppend(Silence(r).log, MohStarted(alive[0]));
    }
  }

  lemma {:induction false} AddLegsMixer(r: Room, legs: seq<nat>, addable: set<nat>)
    ensures var t := AddLegs(r, legs, addable);
            t.mixer == r.mixer + (set c | c in legs && c in addable) && t.moh == r.moh
    decreases legs
  {
    if legs != [] {
      var c := legs[0];
      assert forall d :: d in legs <==> d == c || d in legs[1..];
      var added := r.(mixer := r.mixer + {c}, log := r.log + [LegAdded(c)]);
      AddLegsMixer(if c in addable then added else r, legs[1..], addable);
    }
  }

  /** What one reconciliation plays: with two or more sessions exactly the legs of those not ended that the mixer
      accepts; to a lone one, not ended, the music there is; nothing else. */
  lemma PlaysExactly(r: Room, ended: set<nat>, env: Env)
    requires r.count == |r.sessions|
    ensures var t := ApplyMedia(r, Alive(r.sessions, ended), env);
            && t.mixer == (if r.count >= 2 then set c | c in r.sessions && c !in ended && c in env.addable else {})
            && t.moh == (if r.count == 1 && r.sessions[0] !in ended && env.mohAvailable && env.mohStarts
                         then Some(r.sessions[0]) else None)
  {
    var alive := Alive(r.sessions, ended);
    AliveFacts(r.sessions, ended);
    AddLegsMixer(Silence(r), alive, env.addable);
    if alive == [] { NobodyAlive(r.sessions, ended); }
  }

  lemma NobodyAlive(sessions: seq<nat>, ended: set<nat>)
    requires forall c :: !(c in sessions && c !in ended)
    ensures forall i :: 0 <= i < |sessions| ==> sessions[i] in ended
  {}

  /** Some caller is between the change of the session list and its reconcile. */
  ghost predicate Unsettled(callers: map<nat, Phase>) {
    exists c :: c in callers && (callers[c].Joining? || callers[c].Leaving?)
  }

  ghost predicate MediaInv(s: State) {
    MediaFits(s.room, s.settled, s.endedThen, s.envThen) && (s.settled != s.room.sessions ==> Unsettled(s.callers))
  }

  /** What actions other than a reconcile leave alone. */
  lemma SeatActionFrame(s: State, a: Action)
    requires !a.Reconcile? && !a.UpdateReconcile?
    ensures var t := Exec(s, a);
            && t.room.moh == s.room.moh && t.room.mixer == s.room.mixer && t.room.log == s.room.log
            && t.settled == s.settled && t.endedThen == s.endedThen && t.envThen == s.envThen
            && t.pin == s.pin && t.room.max == s.room.max
            && (t.room.sessions != s.room.sessions ==>
                  a.caller in t.callers && (t.callers[a.caller].Joining? || t.callers[a.caller].Leaving?))
            && (forall c :: c in s.callers && (s.callers[c].Joining? || s.callers[c].Leaving?)
                  ==> c in t.callers && t.callers[c] == s.callers[c])
  {}

  lemma ReconcileFrame(s: State, a: Action)
    requires a.Reconcile? || a.UpdateReconcile?
    requires Exec(s, a) != s
    ensures var t := Exec(s, a);
            && t.room == ApplyMedia(s.room, Alive(s.room.sessions, s.ended), a.env)
            && t.settled == s.room.sessions == t.room.sessions && t.endedThen == s.ended && t.envThen == a.env
            && t.pin == s.pin && t.room.max == s.room.max
  {
    ApplyMediaKeepsSeats(s.room, Alive(s.room.sessions, s.ended), a.env);
  }

  lemma MediaInvStep(s: State, a: Action)
    requires SeatInv(s.room, s.callers) && MediaInv(s)
    ensures var t := Exec(s, a); MediaInv(t) && t.pin == s.pin && t.room.max == s.room.max
  {
    var t := Exec(s, a);
    if a.Reconcile? || a.UpdateReconcile? {
      if t != s {
        ReconcileFrame(s, a);
        ReconcileFits(s.room, s.ended, a.env);
      }
    } else {
      SeatActionFrame(s, a);
      UnsettledStays(s, t, a.caller);
    }
  }

  lemma UnsettledStays(s: State, t: State, c: nat)
    requires forall d :: d in s.callers && (s.callers[d].Joining? || s.callers[d].Leaving?) ==>
               d in t.callers && t.callers[d] == s.callers[d]
    requires t.room.sessions != s.room.sessions ==> c in t.callers && (t.callers[c].Joining? || t.callers[c].Leaving?)
    ensures Unsettled(s.callers) || t.room.sessions != s.room.sessions ==> Unsettled(t.callers)
  {}

  ghost predicate Inv(s: State) { SeatInv(s.room, s.callers) && PinInv(s) && MediaInv(s) }

  lemma InvStep(s: State, a: Action)
    requires Inv(s)
    ensures var t := Exec(s, a); Inv(t) && t.pin == s.pin && t.room.max == s.room.max
  {
    SeatInvStep(s, a);
    PinInvStep(s, a);
    MediaInvStep(s, a);
  }

  lemma {:induction false} InvRun(s: State, acts: seq<Action>)
    requires Inv(s)
    ensures Inv(Run(s, acts)) && Run(s, acts).pin == s.pin && Run(s, acts).room.max == s.room.max
    decreases acts
  {
    if acts != [] {
      InvStep(s, acts[0]);
      InvRun(Exec(s, acts[0]), acts[1..]);
    }
  }

  // ---- Main results

  /** Seats: in every reachable state the capacity holds, `reserved` is the number of callers still
      authenticating, and `count` is the number of admitted callers, which are exactly the sessions. */
  lemma {:induction false} SeatsAreExact(max: int, pin: Option<string -> bool>, acts: seq<Action>)
    ensures var s := Run(Start(max, pin), acts);
            && s.room.count + s.room.reserved <= (if max < 2 then 16 else max)
            && s.room.reserved == |Holding(s.callers)|
            && s.room.count == |Admitted(s.callers)| == |s.room.sessions|
            && Distinct(s.room.sessions) && (forall c :: c in s.room.sessions <==> c in Admitted(s.callers))
  {
    InvRun(Start(max, pin), acts);
  }

  /** Nobody sits in a PIN room without an accepted PIN entry. */
  lemma {:induction false} AdmissionNeedsPin(max: int, accepts: string -> bool, acts: seq<Action>, c: nat)
    ensures var s := Run(Start(max, Some(accepts)), acts);
            c in s.room.sessions ==> c in s.proofs && accepts(s.proofs[c])
  {
    InvRun(Start(max, Some(accepts)), acts);
  }

  lemma {:induction false} SoundPrefix(log: seq<MediaEvent>, i: nat)
    requires Replay(log).sound && i <= |log|
    ensures Replay(log[..i]).sound
    decreases |log|
  {
    if i < |log| {
      SoundPrefix(log[..|log| - 1], i);
      assert log[..|log| - 1][..i] == log[..i];
    } else {
      assert log[..i] == log;
    }
  }

  /** Hold music and the mixer never overlap, in any state or at any point of the media history:
      whenever a leg joins the mixer, hold music has been stopped since it was last started. */
  lemma {:induction false} MohAndMixerExclude(max: int, pin: Option<string -> bool>, acts: seq<Action>, i: nat)
    ensures var s := Run(Start(max, pin), acts);
            && (s.room.moh.Some? ==> s.room.mixer == {})
            && (i < |s.room.log| && s.room.log[i].LegAdded? ==> Replay(s.room.log[..i]).moh.None?)
            && (i < |s.room.log| && s.room.log[i].MohStarted? ==> Replay(s.room.log[..i]).mixer == {})
  {
    InvRun(Start(max, pin), acts);
    var log := Run(Start(max, pin), acts).room.log;
    if i < |log| {
      SoundPrefix(log, i + 1);
      assert log[..i + 1][..i] == log[..i];
    }
  }

  /** Once every change of the session list has been reconciled, the room plays exactly what it should: with two or more
      admitted callers the legs of those whose calls had not ended and that the mixer accepts, and music to a lone
      admitted caller whose call had not ended, if there is music. */
  lemma {:induction false} SettledMediaFitsRoom(max: int, pin: Option<string -> bool>, acts: seq<Action>)
    ensures var s := Run(Start(max, pin), acts);
            !Unsettled(s.callers) ==>
              && s.room.count == |s.room.sessions|
              && s.room.mixer == (if s.room.count >= 2
                                  then set c | c in s.room.sessions && c !in s.endedThen && c in s.envThen.addable
                                  else {})
              && s.room.moh == (if s.room.count == 1 && s.room.sessions[0] !in s.endedThen
                                   && s.envThen.mohAvailable && s.envThen.mohStarts
                                then Some(s.room.sessions[0]) else None)
  {
    InvRun(Start(max, pin), acts);
  }

  /** A caller who has not passed may make three wrong entries; entries after that, like any in an open room, change
      nothing, and one the room accepts before them lets the caller pass. */
  lemma {:induction false} ThreeAttempts(
      max: int, pin: Option<string -> bool>, acts: seq<Action>, c: nat, entered: string)
    requires Trying(Run(Start(max, pin), acts), c)
    ensures var s := Run(Start(max, pin), acts); var t := Exec(s, PinEntry(c, entered));
            && s.callers[c].wrong <= 3
            && (s.pin.None? || s.callers[c].wrong == 3 ==> t == s)
            && (s.pin.Some? && s.callers[c].wrong < 3 ==>
                  t.callers[c] == if s.pin.value(entered) then Passed else Authenticating(s.callers[c].wrong + 1))
  {
    InvRun(Start(max, pin), acts);
  }

  // ---- What callers bring about on their own

  lemma {:induction false} RunTwo(s: State, a: Action, b: Action)
    ensures Run(s, [a, b]) == Exec(Exec(s, a), b)
  {
    assert [a, b][1..] == [b] && [b][1..] == [];
    assert Run(s, [a, b]) == Run(Exec(s, a), [b]) == Run(Exec(Exec(s, a), b), []);
  }

  lemma {:induction false} RunFour(s: State, a: Action, b: Action, c: Action, d: Action)
    ensures Run(s, [a, b, c, d]) == Exec(Exec(Exec(Exec(s, a), b), c), d)
  {
    assert [a, b, c, d][1..] == [b, c, d] && [b, c, d][1..] == [c, d];
    RunTwo(Exec(Exec(s, a), b), c, d);
    assert Run(s, [a, b, c, d]) == Run(Exec(s, a), [b, c, d]) == Run(Exec(Exec(s, a), b), [c, d]);
  }

  /** A new caller who finds a seat, and makes the right entry where the room has a PIN, ends up last in the room and
      in no other way changes who is in it or who tries to be; the media are then those of the new list. */
  lemma CallerGetsIn(s: State, c: nat, entered: string, env: Env)
    requires c !in s.callers && s.room.count + s.room.reserved < s.room.max
    requires s.pin.Some? ==> s.pin.value(entered)
    ensures var way := if s.pin.None? then Answered(c) else PinEntry(c, entered);
            var t := Run(s, [Arrive(c), way, Admit(c), Reconcile(c, env)]);
            && t.callers == s.callers[c := InRoom] && t.room.sessions == s.room.sessions + [c]
            && t.room.count == s.room.count + 1 && t.room.reserved == s.room.reserved
            && t.settled == t.room.sessions && t.endedThen == s.ended && t.envThen == env
  {
    var way := if s.pin.None? then Answered(c) else PinEntry(c, entered);
    RunFour(s, Arrive(c), way, Admit(c), Reconcile(c, env));
    var u := Exec(s, Arrive(c));
    var v := Exec(u, way);
    var w := Exec(v, Admit(c));
    assert u.callers[c] == Authenticating(0) && v.callers[c] == Passed && w.callers[c] == Joining;
    MediaFrame(w.room, Alive(w.room.sessions, w.ended), env);
  }

  lemma {:induction false} LegsFrame(r: Room, legs: seq<nat>, addable: set<nat>)
    ensures var t := AddLegs(r, legs, addable);
            t.sessions == r.sessions && t.count == r.count && t.reserved == r.reserved && t.max == r.max
    decreases legs
  {
    if legs != [] {
      LegsFrame(if legs[0] !in addable then r
                else r.(mixer := r.mixer + {legs[0]}, log := r.log + [LegAdded(legs[0])]), legs[1..], addable);
    }
  }

  /** A reconciliation changes nothing but the media. */
  lemma MediaFrame(r: Room, alive: seq<nat>, env: Env)
    ensures var t := ApplyMedia(r, alive, env);
            t.sessions == r.sessions && t.count == r.count && t.reserved == r.reserved && t.max == r.max
  {
    LegsFrame(Silence(r), alive, env.addable);
  }

  /** A caller who finds no seat is gone, and the room is as it was. */
  lemma FullRoomRefuses(s: State, c: nat)
    requires c !in s.callers && s.room.count + s.room.reserved >= s.room.max
    ensures Exec(s, Arrive(c)) == s.(callers := s.callers[c := Gone])
  {}

  /** A caller who is rejected gives back the seat. */
  lemma RejectedGivesSeatBack(s: State, c: nat)
    requires c in s.callers && s.callers[c].Authenticating?
    ensures Exec(s, Reject(c))
            == s.(callers := s.callers[c := Gone], room := s.room.(reserved := s.room.reserved - 1))
  {}

  /** An admitted caller who hangs up leaves the room, whose media are then those of the callers left. */
  lemma CallerGetsOut(s: State, c: nat, env: Env)
    requires SeatInv(s.room, s.callers) && c in s.callers && s.callers[c] == InRoom
    ensures var t := Run(Exec(s, HangUp(c)), [Action.Leave(c), Reconcile(c, env)]);
            && t.callers == s.callers[c := Gone] && c !in t.room.sessions
            && (forall d :: d != c ==> (d in t.room.sessions <==> d in s.room.sessions))
            && t.room.count == s.room.count - 1
            && t.settled == t.room.sessions && t.endedThen == s.ended + {c} && t.envThen == env
  {
    var u := Exec(s, HangUp(c));
    RunTwo(u, Action.Leave(c), Reconcile(c, env));
    var v := Exec(u, Action.Leave(c));
    assert c in Admitted(s.callers);
    RemoveFirstFacts(s.room.sessions, c);
    MediaFrame(v.room, Alive(v.room.sessions, v.ended), env);
  }

  /** A re-INVITE of an admitted caller settles the media afresh. */
  lemma {:induction false} UpdateSettles(s: State, c: nat, env: Env)
    requires c in s.room.sessions
    ensures var t := Run(s, [UpdateCheck(c), UpdateReconcile(env)]);
            && t.callers == s.callers && t.room.sessions == s.room.sessions && t.refreshes == s.refreshes
            && t.settled == s.room.sessions && t.endedThen == s.ended && t.envThen == env
  {
    RunTwo(s, UpdateCheck(c), UpdateReconcile(env));
    MediaFrame(s.room, Alive(s.room.sessions, s.ended), env);
  }

  // ---- A rejected caller leaves no trace

  predicate By(a: Action, c: nat) { !a.UpdateReconcile? && a.caller == c }

  function Others(acts: seq<Action>, c: nat): seq<Action> {
    if acts == [] then [] else (if By(acts[0], c) then [] else [acts[0]]) + Others(acts[1..], c)
  }

  /** `s` is `t` plus the reservation of the still authenticating caller `c`. */
  ghost predicate PlusReservation(s: State, t: State, c: nat) {
    && c !in t.callers && (At(s, c, Passed) || Trying(s, c))
    && s.room == t.room.(reserved := t.room.reserved + 1)
    && s.callers == t.callers[c := s.callers[c]]
    && s.ended - {c} == t.ended - {c} && s.refreshes == t.refreshes && s.pin == t.pin
    && s.proofs - {c} == t.proofs - {c}
    && s.settled == t.settled && s.endedThen - {c} == t.endedThen - {c} && s.envThen == t.envThen
    && c !in t.room.sessions
  }

  /** No arrival is turned away because of the room being full. */
  predicate NeverFull(s: State, acts: seq<Action>)
    decreases acts
  {
    acts == [] ||
    ((acts[0].Arrive? ==> s.room.count + s.room.reserved < s.room.max) && NeverFull(Exec(s, acts[0]), acts[1..]))
  }

  lemma {:induction false} AliveIgnores(sessions: seq<nat>, e: set<nat>, e': set<nat>, c: nat)
    requires c !in sessions && e - {c} == e' - {c}
    ensures Alive(sessions, e) == Alive(sessions, e')
  {
    if sessions != [] {
      assert sessions[0] in e <==> sessions[0] in e - {c};
      assert sessions[0] in e' <==> sessions[0] in e' - {c};
      AliveIgnores(sessions[1..], e, e', c);
    }
  }

  lemma {:induction false} AddLegsIgnoresReserved(r: Room, k: int, legs: seq<nat>, addable: set<nat>)
    ensures AddLegs(r.(reserved := k), legs, addable) == AddLegs(r, legs, addable).(reserved := k)
    decreases legs
  {
    if legs != [] {
      var added := r.(mixer := r.mixer + {legs[0]}, log := r.log + [LegAdded(legs[0])]);
      AddLegsIgnoresReserved(if legs[0] in addable then added else r, k, legs[1..], addable);
    }
  }

  lemma SettleKeepsReservation(s: State, t: State, c: nat, env: Env)
    requires PlusReservation(s, t, c)
    ensures PlusReservation(Settle(s, env), Settle(t, env), c)
  {
    AliveIgnores(t.room.sessions, s.ended, t.ended, c);
    var alive := Alive(t.room.sessions, t.ended);
    AddLegsIgnoresReserved(Silence(t.room), t.room.reserved + 1, alive, env.addable);
    ApplyMediaKeepsSeats(t.room, alive, env);
  }

  lemma ReservationOwnStep(s: State, t: State, a: Action, c: nat)
    requires PlusReservation(s, t, c) && By(a, c)
    requires At(Exec(s, a), c, Passed) || Trying(Exec(s, a), c)
    ensures PlusReservation(Exec(s, a), t, c)
  {}

  lemma {:induction false} RemoveFirstSubset(s: seq<nat>, d: nat, c: nat)
    requires c !in s
    ensures c !in RemoveFirst(s, d)
  {
    if s != [] && s[0] != d { RemoveFirstSubset(s[1..], d, c); }
  }

  lemma OthersCommute(callers: map<nat, Phase>, c: nat, p: Phase, d: nat, q: Phase)
    requires c != d
    ensures callers[c := p][d := q] == callers[d := q][c := p]
  {}

  lemma ReservationArrive(s: State, t: State, d: nat, c: nat)
    requires PlusReservation(s, t, c) && d != c && s.room.count + s.room.reserved < s.room.max
    ensures PlusReservation(Exec(s, Arrive(d)), Exec(t, Arrive(d)), c)
  {
    OthersCommute(t.callers, c, s.callers[c], d, Authenticating(0));
  }

  lemma ReservationAnswered(s: State, t: State, d: nat, c: nat)
    requires PlusReservation(s, t, c) && d != c
    ensures PlusReservation(Exec(s, Answered(d)), Exec(t, Answered(d)), c)
  {
    OthersCommute(t.callers, c, s.callers[c], d, Passed);
  }

  lemma ReservationReject(s: State, t: State, d: nat, c: nat)
    requires PlusReservation(s, t, c) && d != c
    ensures PlusReservation(Exec(s, Reject(d)), Exec(t, Reject(d)), c)
  {
    OthersCommute(t.callers, c, s.callers[c], d, Gone);
  }

  lemma ReservationPinStep(s: State, t: State, d: nat, entered: string, c: nat)
    requires PlusReservation(s, t, c) && d != c
    ensures PlusReservation(Exec(s, PinEntry(d, entered)), Exec(t, PinEntry(d, entered)), c)
  {
    OthersCommute(t.callers, c, s.callers[c], d, Passed);
    if Trying(t, d) { OthersCommute(t.callers, c, s.callers[c], d, Authenticating(t.callers[d].wrong + 1)); }
    assert s.proofs[d := entered] - {c} == (s.proofs - {c})[d := entered];
    assert t.proofs[d := entered] - {c} == (t.proofs - {c})[d := entered];
  }

  lemma ReservationAdmit(s: State, t: State, d: nat, c: nat)
    requires PlusReservation(s, t, c) && d != c
    ensures PlusReservation(Exec(s, Admit(d)), Exec(t, Admit(d)), c)
  {
    OthersCommute(t.callers, c, s.callers[c], d, Joining);
  }

  lemma ReservationLeave(s: State, t: State, d: nat, c: nat)
    requires PlusReservation(s, t, c) && d != c
    ensures PlusReservation(Exec(s, Leave(d)), Exec(t, Leave(d)), c)
  {
    OthersCommute(t.callers, c, s.callers[c], d, Leaving);
    RemoveFirstSubset(t.room.sessions, d, c);
    assert d in s.ended <==> d in s.ended - {c};
    assert d in t.ended <==> d in t.ended - {c};
  }

  lemma ReservationMark(s: State, t: State, a: Action, c: nat)
    requires PlusReservation(s, t, c) && !By(a, c) && (a.HangUp? || a.UpdateCheck?)
    ensures PlusReservation(Exec(s, a), Exec(t, a), c)
  {
    assert (s.ended + {a.caller}) - {c} == (s.ended - {c}) + {a.caller};
    assert (t.ended + {a.caller}) - {c} == (t.ended - {c}) + {a.caller};
  }

  lemma ReservationReconcile(s: State, t: State, d: nat, env: Env, c: nat)
    requires PlusReservation(s, t, c) && d != c
    ensures PlusReservation(Exec(s, Reconcile(d, env)), Exec(t, Reconcile(d, env)), c)
  {
    SettleKeepsReservation(s, t, c, env);
    OthersCommute(t.callers, c, s.callers[c], d, InRoom);
    OthersCommute(t.callers, c, s.callers[c], d, Gone);
  }

  lemma ReservationOtherStep(s: State, t: State, a: Action, c: nat)
    requires PlusReservation(s, t, c) && !By(a, c)
    requires a.Arrive? ==> s.room.count + s.room.reserved < s.room.max
    ensures PlusReservation(Exec(s, a), Exec(t, a), c)
  {
    match a
    case Arrive(d) => ReservationArrive(s, t, d, c);
    case Answered(d) => ReservationAnswered(s, t, d, c);
    case PinEntry(d, entered) => ReservationPinStep(s, t, d, entered, c);
    case Reject(d) => ReservationReject(s, t, d, c);
    case Admit(d) => ReservationAdmit(s, t, d, c);
    case Reconcile(d, env) => ReservationReconcile(s, t, d, env, c);
    case Leave(d) => ReservationLeave(s, t, d, c);
    case UpdateReconcile(env) => SettleKeepsReservation(s, t, c, env);
    case _ => ReservationMark(s, t, a, c);
  }

  lemma NotTryingStep(s: State, a: Action, c: nat)
    requires c in s.callers && !At(s, c, Passed) && !Trying(s, c)
    ensures var t := Exec(s, a); c in t.callers && !At(t, c, Passed) && !Trying(t, c)
  {}

  lemma {:induction false} NeverTryingAgain(s: State, acts: seq<Action>, c: nat)
    requires c in s.callers && !At(s, c, Passed) && !Trying(s, c)
    ensures !Trying(Run(s, acts), c)
    decreases acts
  {
    if acts != [] {
      NotTryingStep(s, acts[0], c);
      NeverTryingAgain(Exec(s, acts[0]), acts[1..], c);
    }
  }

  lemma {:induction false} ReservationRun(s: State, t: State, acts: seq<Action>, c: nat)
    requires PlusReservation(s, t, c) && NeverFull(s, acts) && Trying(Run(s, acts), c)
    ensures PlusReservation(Run(s, acts), Run(t, Others(acts, c)), c)
    decreases acts
  {
    if acts != [] {
      var a, rest := acts[0], acts[1..];
      if By(a, c) {
        if !At(Exec(s, a), c, Passed) && !Trying(Exec(s, a), c) { NeverTryingAgain(Exec(s, a), rest, c); }
        ReservationOwnStep(s, t, a, c);
        ReservationRun(Exec(s, a), t, rest, c);
        assert Others(acts, c) == Others(rest, c);
      } else {
        ReservationOtherStep(s, t, a, c);
        ReservationRun(Exec(s, a), Exec(t, a), rest, c);
        assert Others(acts, c)[0] == a && Others(acts, c)[1..] == Others(rest, c);
      }
    }
  }

  /** A caller turned away at the PIN gate leaves the room exactly as if it had never come: after any
      interleaving in which the room was not full, the room equals the one reached without that caller. */
  lemma {:induction false} RejectedCallerLeavesNoTrace(
      max: int, pin: Option<string -> bool>, before: seq<Action>, c: nat, during: seq<Action>)
    requires var s := Run(Start(max, pin), before);
             && c !in s.callers && c !in s.ended
             && NeverFull(s, [Arrive(c)] + during)
             && Trying(Run(Exec(s, Arrive(c)), during), c)
    ensures var s := Run(Start(max, pin), before);
            Exec(Run(Exec(s, Arrive(c)), during), Reject(c)).room == Run(s, Others(during, c)).room
  {
    var s := Run(Start(max, pin), before);
    InvRun(Start(max, pin), before);
    var all := [Arrive(c)] + during;
    assert all[0] == Arrive(c) && all[1..] == during;
    ReservationRun(Exec(s, Arrive(c)), s, during, c);
  }
}
