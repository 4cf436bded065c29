/** What the hold protocol's goroutines bring about when they are left to run: bridges come back, holds begin and end,
    released phones abort entries.  Each run is made of the steps of the goroutines named. */
module HoldLiveness {
  import opened Wrappers
  import opened HoldProtocol

  /** Every action is a step of one of these goroutines. */
  predicate Only(acts: seq<Action>, ids: set<nat>) {
    forall i :: 0 <= i < |acts| ==> acts[i].Go? && acts[i].id in ids
  }

  lemma {:induction false} Step(s: State, a: Action)
    ensures Run(s, [a]) == Exec(s, a)
  {
    assert [a][1..] == [];
    assert Run(Exec(s, a), []) == Exec(s, a);
  }

  lemma StepThen(s: State, a: Action, rest: seq<Action>) returns (acts: seq<Action>)
    ensures acts == [a] + rest && Run(s, acts) == Run(Exec(s, a), rest)
  {
    acts := [a] + rest;
    assert acts[0] == a && acts[1..] == rest;
  }

  /** Neither hold nor entry nor handle. */
  predicate Idle(c: Call) { !c.holdActive && !c.holdEntering && !c.bridgeStop }

  /** The retrying goroutine of an aborted entry brings the bridge back. */
  lemma EnsureRecovers(s: State, id: nat) returns (acts: seq<Action>)
    requires id in s.threads && s.threads[id] == Recovery(EnsureCheck) && Idle(s.call)
    ensures Only(acts, {id})
    ensures Run(s, acts).call == s.call.(bridgeStop := true) && Run(s, acts).threads == s.threads[id := Finished]
  {
    var ready := Smooth.(done := false);
    var t := Exec(s, Go(id, ready));
    assert t.threads == s.threads[id := Recovery(EnsureInstall)] && t.call == s.call;
    Step(t, Go(id, ready));
    acts := StepThen(s, Go(id, ready), [Go(id, ready)]);
  }

  /** So does the goroutine that a media update starts, once the call has been bridged before. */
  lemma RestartRecovers(s: State, id: nat) returns (acts: seq<Action>)
    requires id in s.threads && s.threads[id] == Recovery(RestartCheck) && Idle(s.call) && s.call.bridgeReady
    ensures Only(acts, {id})
    ensures Run(s, acts).call == s.call.(bridgeStop := true) && Run(s, acts).threads == s.threads[id := Finished]
  {
    var t := Exec(s, Go(id, Smooth));
    assert t.threads == s.threads[id := Recovery(RestartInstall)] && t.call == s.call;
    Step(t, Go(id, Smooth));
    acts := StepThen(s, Go(id, Smooth), [Go(id, Smooth)]);
  }

  /** Bridge recovery ends without effect when the call was never bridged, is bridged or held, or the wait is over, and
      leave() when the legs do not come back or the bridge does not start; nothing the goroutine does later undoes
      that. */
  lemma {:induction false} GivesUp(s: State, id: nat, env: Env, more: seq<Action>)
    requires id in s.threads && env.newId !in s.threads && Only(more, {id})
    requires || (s.threads[id] == Recovery(RestartCheck)
                 && (!s.call.bridgeReady || !Idle(s.call) || !env.legsReady))
             || (s.threads[id] == Recovery(EnsureCheck) && (env.done || !Idle(s.call)))
             || (s.threads[id] == Leave(AwaitLegs) && (!env.legsReady || !env.bridgeStarts))
    ensures var t := Run(Exec(s, Go(id, env)), more); t.call == s.call && t.threads == s.threads[id := Finished]
  {
    var t := Exec(s, Go(id, env));
    assert t.call == s.call && t.threads == s.threads[id := Finished];
    FinishedStays(t, id, more);
  }

  lemma {:induction false} FinishedStays(s: State, id: nat, acts: seq<Action>)
    requires id in s.threads && s.threads[id] == Finished && Only(acts, {id})
    ensures Run(s, acts).call == s.call && Run(s, acts).threads == s.threads
    decreases acts
  {
    if acts != [] {
      var t := Exec(s, acts[0]);
      assert t.call == s.call && s.threads[id := Finished] == s.threads;
      assert t.threads == s.threads;
      FinishedStays(t, id, acts[1..]);
    }
  }

  /** While the legs are not ready, an aborted entry's goroutine looks again. */
  lemma EnsureWaits(s: State, id: nat, env: Env)
    requires id in s.threads && s.threads[id] == Recovery(EnsureCheck) && env.newId !in s.threads
    requires Idle(s.call) && !env.done && !env.legsReady
    ensures Exec(s, Go(id, env)).call == s.call && Exec(s, Go(id, env)).threads == s.threads
  {
    assert s.threads[id := s.threads[id]] == s.threads;
  }

  /** A media update on either leg of an idle call whose legs are ready restores the bridge. */
  lemma UpdateRestores(s: State, id: nat, inbound: bool, newId: nat) returns (acts: seq<Action>)
    requires id in s.threads && s.threads[id] == Update(MaybeRestart(inbound)) && newId !in s.threads
    requires Idle(s.call) && s.call.bridgeReady
    ensures Only(acts, {id, newId}) && Run(s, acts).call == s.call.(bridgeStop := true)
  {
    var a := Go(id, Smooth.(newId := newId));
    var t := Exec(s, a);
    assert t.call == s.call && newId in t.threads && t.threads[newId] == Recovery(RestartCheck);
    var rest := RestartRecovers(t, newId);
    acts := StepThen(s, a, rest);
  }

  /** An entry whose decision finds it aborted leaves the call bridged again: at once if the bridge starts, and
      otherwise through the goroutine it starts. */
  lemma AbortedEntryRecovers(s: State, id: nat, had: bool, dialTone: bool, moh: bool, env: Env)
    returns (acts: seq<Action>)
    requires Inv(s) && id in s.threads && s.threads[id] == Enter(Decide(had, dialTone, moh))
    requires s.call.holdEnterAborted && env.newId !in s.threads
    ensures Only(acts, {id, env.newId})
    ensures var t := Run(Exec(s, Go(id, env)), acts); t.call.bridgeStop && !t.call.holdActive && !t.call.holdEntering
  {
    var t := Exec(s, Go(id, env));
    InvStep(s, Go(id, env));
    assert Undecided(s.threads[id]);
    assert t.threads[id] == Enter(Exit(Aborted)) && t.threads[env.newId] == Recovery(EnsureCheck);
    assert !t.call.holdActive && (t.call.bridgeStop <==> s.call.bridgeStop || env.bridgeStarts);
    var u := Exec(t, Go(id, Smooth));
    assert u.call.bridgeStop == t.call.bridgeStop && !u.call.holdActive && !u.call.holdEntering;
    assert u.threads[env.newId] == Recovery(EnsureCheck);
    if u.call.bridgeStop {
      Step(t, Go(id, Smooth));
      acts := [Go(id, Smooth)];
    } else {
      var rest := EnsureRecovers(u, env.newId);
      acts := StepThen(t, Go(id, Smooth), rest);
    }
  }

  /** An update is taken for a release of the phone exactly when the holder, heard to hold before, signals sendrecv
      during an entry that has lasted. */
  lemma ReleaseRecognised(s: State, id: nat, inbound: bool, env: Env)
    requires id in s.threads && s.threads[id] == Update(Released(inbound)) && env.newId !in s.threads
    ensures Exec(s, Go(id, env)).threads[id] == Update(AbortEntry)
            <==> env.sendrecv && env.longEntry && s.call.holdEntering && !s.call.holdActive
                 && s.call.holderPhoneHold && s.call.holderSawRecvonly
    ensures Exec(s, Go(id, env)).call == s.call
  {}

  /** A phone released during an entry aborts it. */
  lemma ReleaseAborts(s: State, id: nat, inbound: bool) returns (acts: seq<Action>)
    requires id in s.threads && s.threads[id] == Update(Snapshot(inbound))
    requires s.call.holdEntering && !s.call.holdActive && s.call.holderPhoneHold && s.call.holderSawRecvonly
    ensures Only(acts, {id}) && Run(s, acts).call == s.call.(holdEnterAborted := true)
  {
    var env := Smooth.(sendrecv := true, longEntry := true);
    var t := Exec(s, Go(id, env));
    assert t.threads[id] == Update(Released(inbound)) && t.call == s.call;
    var u := Exec(t, Go(id, env));
    assert u.threads[id] == Update(AbortEntry) && u.call == s.call;
    Step(u, Go(id, env));
    var last := StepThen(t, Go(id, env), [Go(id, env)]);
    acts := StepThen(s, Go(id, env), last);
  }

  /** A hold signalled before the call is bridged is entered once it is. */
  lemma PendingHoldEnters(s: State, id: nat, setup: nat, newId: nat) returns (acts: seq<Action>)
    requires id in s.threads && s.threads[id] == Update(HoldSignal) && !s.call.bridgeReady
    requires setup in s.threads && s.threads[setup] == MarkReady && newId !in s.threads
    ensures Only(acts, {id, setup})
    ensures var t := Run(s, acts); newId in t.threads && t.threads[newId] == Enter(Guard) && t.call.bridgeReady
  {
    var t := Exec(s, Go(id, Smooth));
    assert t.threads == s.threads[id := Update(Defer)] && t.call == s.call;
    var u := Exec(t, Go(id, Smooth));
    assert u.threads == s.threads[id := Finished] && u.call == s.call.(pendingHold := true);
    var ready := Go(setup, Smooth.(newId := newId));
    Step(u, ready);
    var last := StepThen(t, Go(id, Smooth), [ready]);
    acts := StepThen(s, Go(id, Smooth), last);
  }

  /** Without a hold signal an update starts nothing. */
  lemma NoHoldSignal(s: State, id: nat, env: Env)
    requires id in s.threads && s.threads[id] == Update(HoldSignal) && !env.onHold
    ensures var t := Exec(s, Go(id, env)); t.call == s.call && t.threads == s.threads[id := Finished]
  {}

  /** Without a hold there is no other try. */
  lemma NoRetryWithoutHold(s: State, id: nat, env: Env)
    requires id in s.threads && s.threads[id] == Update(ReassertGuard) && !s.call.holdActive
    ensures var t := Exec(s, Go(id, env)); t.call == s.call && t.threads == s.threads[id := Finished]
  {}

  /** An update of the outbound leg releases nobody. */
  lemma OutboundReleasesNobody(s: State, id: nat, env: Env, next: Env)
    requires id in s.threads && s.threads[id] == Update(MaybeRestart(false)) && env.newId !in s.threads
    requires next.newId !in Exec(s, Go(id, env)).threads
    ensures Exec(Exec(s, Go(id, env)), Go(id, next)).call == s.call
  {
    assert Exec(s, Go(id, env)).threads[id] == Update(HoldSignal);
  }

  /** On a hold, an update that calls for another try at holding the phone drives leave() when the phone then signals
      sendrecv, and does nothing otherwise. */
  lemma ReassertDrivesLeave(s: State, id: nat, retry: nat, leaver: nat, sendrecv: bool) returns (acts: seq<Action>)
    requires id in s.threads && s.threads[id] == Update(Snapshot(true)) && s.call.holdActive
    requires retry !in s.threads && leaver !in s.threads && retry != leaver
    ensures Only(acts, {id, retry})
    ensures var t := Run(s, acts);
            && t.call == s.call && t.threads.Keys >= {id, retry} && t.threads[id] == t.threads[retry] == Finished
            && (leaver in t.threads <==> sendrecv) && (sendrecv ==> t.threads[leaver] == Leave(Check))
  {
    var first := Go(id, Smooth);
    var t := Exec(s, first);
    assert t.threads == s.threads[id := Update(Holder)] && t.call == s.call;
    var second := Go(id, Smooth.(reaction := DriveReassert, newId := retry));
    var u := Exec(t, second);
    assert u.threads == s.threads[id := Finished][retry := Update(ReassertGuard)] && u.call == s.call;
    var rest := RetryDrivesLeave(u, retry, leaver, sendrecv);
    var last := StepThen(t, second, rest);
    acts := StepThen(s, first, last);
  }

  lemma RetryDrivesLeave(s: State, retry: nat, leaver: nat, sendrecv: bool) returns (acts: seq<Action>)
    requires retry in s.threads && s.threads[retry] == Update(ReassertGuard) && s.call.holdActive
    requires leaver !in s.threads
    ensures Only(acts, {retry}) && Run(s, acts).call == s.call
    ensures Run(s, acts).threads
            == if sendrecv then s.threads[retry := Finished][leaver := Leave(Check)] else s.threads[retry := Finished]
  {
    var a := Go(retry, Smooth);
    var t := Exec(s, a);
    assert t.threads == s.threads[retry := Update(ReassertTry)] && t.call == s.call;
    var b := Go(retry, Smooth.(sendrecv := sendrecv, newId := leaver));
    Step(t, b);
    acts := StepThen(s, a, [b]);
  }

  /** A phone that holds a call without hold or entry gets it held: its entry takes the handle and ends with hold
      active and no entry under way. */
  lemma HoldBegins(s: State, id: nat) returns (acts: seq<Action>)
    requires id in s.threads && s.threads[id] == Enter(Guard) && !s.call.holdActive && !s.call.holdEntering
    ensures Only(acts, {id}) && Run(s, acts).threads == s.threads[id := Finished]
    ensures Run(s, acts).call
            == s.call.(holdActive := true, holderPhoneHold := true, holderSawRecvonly := true,
                       holdEnterAborted := false, bridgeStop := false)
  {
    var a, had := Go(id, Smooth), s.call.bridgeStop;
    var t := Exec(s, a);
    assert t.threads == s.threads[id := Enter(Seed(had))];
    var rest := SeededEntryFinishes(t, id, had);
    acts := StepThen(s, a, rest);
  }

  lemma SeededEntryFinishes(s: State, id: nat, had: bool) returns (acts: seq<Action>)
    requires id in s.threads && s.threads[id] == Enter(Seed(had))
    requires !s.call.holdActive && s.call.holdEntering && !s.call.holdEnterAborted
    ensures Only(acts, {id}) && Run(s, acts).threads == s.threads[id := Finished]
    ensures Run(s, acts).call
            == s.call.(holdActive := true, holdEntering := false, holderPhoneHold := true, holderSawRecvonly := true)
  {
    var a := Go(id, Smooth);
    var t := Exec(s, a);
    assert t.threads == s.threads[id := Enter(Recheck(had))] && t.call == s.call.(holderSawRecvonly := true);
    var rest := EntryFinishes(t, id, had);
    acts := StepThen(s, a, rest);
  }

  lemma EntryFinishes(s: State, id: nat, had: bool) returns (acts: seq<Action>)
    requires id in s.threads && s.threads[id] == Enter(Recheck(had))
    requires !s.call.holdActive && s.call.holdEntering && !s.call.holdEnterAborted
    ensures Only(acts, {id}) && Run(s, acts).threads == s.threads[id := Finished]
    ensures Run(s, acts).call
            == s.call.(holdActive := true, holdEntering := false, holderPhoneHold := true, holderSawRecvonly := true)
  {
    var a := Go(id, Smooth);
    var t := Exec(s, a);
    assert t.threads == s.threads[id := Enter(Media(had))] && t.call == s.call;
    var u := Exec(t, a);
    assert u.threads == s.threads[id := Enter(EnterPc.Decide(had, true, true))];
    assert u.call == s.call.(holderPhoneHold := true, holderSawRecvonly := true);
    var rest := EntryDecides(u, id, had);
    var last := StepThen(t, a, rest);
    acts := StepThen(s, a, last);
  }

  lemma EntryDecides(s: State, id: nat, had: bool) returns (acts: seq<Action>)
    requires id in s.threads && s.threads[id] == Enter(EnterPc.Decide(had, true, true))
    requires !s.call.holdActive && !s.call.holdEnterAborted
    ensures Only(acts, {id}) && Run(s, acts).threads == s.threads[id := Finished]
    ensures Run(s, acts).call == s.call.(holdActive := true, holdEntering := false)
  {
    var a := Go(id, Smooth);
    var t := Exec(s, a);
    assert t.threads == s.threads[id := Enter(Exit(Activated))] && t.call == s.call.(holdActive := true);
    Step(t, a);
    acts := StepThen(s, a, [a]);
  }

  /** An entry whose media is not set up yet waits for it. */
  lemma EntryWaits(s: State, id: nat, had: bool, env: Env)
    requires id in s.threads && s.threads[id] == Enter(Media(had)) && !env.done && env.newId !in s.threads
    ensures Exec(s, Go(id, env)).threads == s.threads
  {
    assert s.threads[id := s.threads[id]] == s.threads;
  }

  /** leave() on a hold ends it and brings the bridge back. */
  lemma LeaveRestoresBridge(s: State, id: nat) returns (acts: seq<Action>)
    requires id in s.threads && s.threads[id] == Leave(Check) && s.call.holdActive
    ensures Only(acts, {id})
    ensures Run(s, acts).call
            == s.call.(holdActive := false, holderPhoneHold := false, holderSawRecvonly := false, bridgeStop := true)
  {
    var a := Go(id, Smooth);
    var t := Exec(s, a);
    if s.call.bridgeStop {
      assert t.threads[id] == Leave(Clear);
      var u := Exec(t, a);
      assert u.threads[id] == Leave(Sendonly);
      var rest := LeaveFinishes(u, id);
      var last := StepThen(t, a, rest);
      acts := StepThen(s, a, last);
    } else {
      assert t.threads[id] == Leave(Sendonly);
      var rest := LeaveFinishes(t, id);
      acts := StepThen(s, a, rest);
    }
  }

  lemma LeaveFinishes(s: State, id: nat) returns (acts: seq<Action>)
    requires id in s.threads && s.threads[id] == Leave(Sendonly)
    ensures Only(acts, {id}) && Run(s, acts).call == s.call.(bridgeStop := true)
  {
    var a := Go(id, Smooth);
    var t := Exec(s, a);
    assert t.threads[id] == Leave(AwaitLegs) && t.call == s.call;
    var u := Exec(t, a);
    assert u.threads[id] == Leave(Install) && u.call == s.call;
    Step(u, a);
    var last := StepThen(t, a, [a]);
    acts := StepThen(s, a, last);
  }

  /** An inbound update that finds the phone released outside an entry clears its hold flags. */
  lemma InboundUpdateReleases(s: State, id: nat) returns (acts: seq<Action>)
    requires id in s.threads && s.threads[id] == Update(MaybeRestart(true)) && !s.call.holdEntering
    requires s.call.holdActive || s.call.bridgeStop || !s.call.bridgeReady
    ensures Only(acts, {id}) && Run(s, acts).threads == s.threads[id := Update(HoldSignal)]
    ensures Run(s, acts).call
            == if s.call.holderPhoneHold then s.call.(holderPhoneHold := false, holderSawRecvonly := false) else s.call
  {
    var a := Go(id, Smooth.(sendrecv := true));
    var t := Exec(s, a);
    assert t.threads == s.threads[id := Update(Unstick)] && t.call == s.call;
    Step(t, a);
    acts := StepThen(s, a, [a]);
  }
}
