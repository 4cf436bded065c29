/** The room record with its in-place updates, and the PIN loop of one caller. */
module ConferenceRecord {
  import opened Wrappers
  import opened Lists
  import opened ConferenceRoom

  lemma {:induction false} RemoveFirstAt(s: seq<nat>, c: nat, i: nat)
    requires i <= |s| && forall j :: 0 <= j < i ==> s[j] != c
    requires i < |s| ==> s[i] == c
    ensures RemoveFirst(s, c) == if i < |s| then s[..i] + s[i + 1..] else s
  {
    if 0 < i {
      RemoveFirstAt(s[1..], c, i - 1);
      assert i < |s| ==> [s[0]] + (s[1..][..i - 1] + s[1..][i..]) == s[..i] + s[i + 1..];
    }
  }

  class RoomRecord {
    var count: int
    var reserved: int
    const max: int
    var sessions: seq<nat>
    var moh: Option<nat>
    var mixer: set<nat>
    ghost var log: seq<MediaEvent>

    /** The protocol's state: the phase of every caller, and the history of the room's media. */
    ghost var state: State

    ghost function Value(): Room
      reads this
    {
      Room(count, reserved, max, sessions, moh, mixer, log)
    }

    ghost predicate Valid()
      reads this
    {
      Inv(state) && Value() == state.room
    }

    constructor (max: int, ghost pin: Option<string -> bool>)
      ensures Valid() && state == Start(max, pin)
    {
      count, reserved, sessions, moh, mixer, log := 0, 0, [], None, {}, [];
      this.max := if max < 2 then 16 else max;
      state := Start(max, pin);
    }

    ghost method Advance(a: Action)
      requires Inv(state)
      modifies this`state
      ensures Inv(state) && state == Exec(old(state), a)
    {
      InvStep(state, a);
      state := Exec(state, a);
    }

    /** What callers do without touching the record: answering, keying in a PIN, hanging up, a media update. */
    ghost method Note(a: Action)
      requires Valid() && (a.Answered? || a.PinEntry? || a.HangUp? || a.UpdateCheck?)
      modifies this`state
      ensures Valid() && state == Exec(old(state), a)
    {
      Advance(a);
    }

    /** The caller gets a seat exactly when those admitted and those authenticating leave one. */
    method Reserve(caller: nat) returns (ok: bool)
      requires Valid() && caller !in state.callers
      modifies this
      ensures Valid() && state == Exec(old(state), Arrive(caller))
      ensures ok <==> |Admitted(old(state).callers)| + |Holding(old(state).callers)| < max
      ensures !ok ==> Value() == old(Value())
    {
      ok := count + reserved < max;
      if ok { reserved := reserved + 1; }
      Advance(Arrive(caller));
    }

    /** A caller turned away gives its seat back and was never in the room. */
    method CancelReservation(caller: nat)
      requires Valid() && Trying(state, caller)
      modifies this
      ensures Valid() && state == Exec(old(state), Reject(caller))
      ensures reserved == |Holding(old(state).callers) - {caller}| && sessions == old(sessions) && caller !in sessions
    {
      reserved := reserved - 1;
      Advance(Reject(caller));
      assert caller !in Admitted(state.callers);
      assert Holding(state.callers) == Holding(old(state).callers) - {caller};
    }

    /** Into the room, last in the list; into a PIN room only with an accepted entry; nobody's seat is lost. */
    method Admit(caller: nat)
      requires Valid() && ConferenceRoom.At(state, caller, Passed)
      modifies this
      ensures Valid() && state == Exec(old(state), ConferenceRoom.Admit(caller))
      ensures sessions == old(sessions) + [caller] && caller !in old(sessions)
              && count + reserved == old(count + reserved)
      ensures state.pin.Some? ==> caller in state.proofs && state.pin.value(state.proofs[caller])
    {
      assert caller !in Admitted(state.callers);
      reserved := reserved - 1;
      count := count + 1;
      sessions := sessions + [caller];
      Advance(ConferenceRoom.Admit(caller));
    }

    /** Out of the room, the others in their order. */
    method Leave(caller: nat)
      requires Valid() && ConferenceRoom.At(state, caller, InRoom) && caller in state.ended
      modifies this
      ensures Valid() && state == Exec(old(state), ConferenceRoom.Leave(caller))
      ensures caller !in sessions && count == |sessions|
    {
      count := count - 1;
      RemoveSession(caller);
      Advance(ConferenceRoom.Leave(caller));
      assert caller !in Admitted(state.callers);
    }

    /** Removes the first session of `caller`, searching from the front. */
    method RemoveSession(caller: nat)
      modifies this`sessions
      ensures sessions == RemoveFirst(old(sessions), caller)
    {
      for i := 0 to |sessions|
        invariant sessions == old(sessions)
        invariant forall j :: 0 <= j < i ==> sessions[j] != caller
      {
        if sessions[i] == caller {
          RemoveFirstAt(sessions, caller, i);
          sessions := sessions[..i] + sessions[i + 1..];
          return;
        }
      }
      RemoveFirstAt(sessions, caller, |sessions|);
    }

    method AliveSessions(ended: set<nat>) returns (alive: seq<nat>)
      ensures alive == Alive(sessions, ended)
    {
      alive := [];
      for i := 0 to |sessions|
        invariant alive == Alive(sessions[..i], ended)
      {
        FilterNext(sessions, i, c => c !in ended);
        if sessions[i] !in ended { alive := alive + [sessions[i]]; }
      }
      assert sessions[..|sessions|] == sessions;
    }

    /** The reconcile that follows an admission or a departure: exactly the legs not ended are mixed, or music plays to
        the one that is alone. */
    method ReconcileFor(caller: nat, ended: set<nat>, env: Env)
      requires Valid() && (ConferenceRoom.At(state, caller, Joining) || ConferenceRoom.At(state, caller, Leaving))
      requires ended == state.ended
      modifies this
      ensures Valid() && state == Exec(old(state), ConferenceRoom.Reconcile(caller, env))
      ensures count == |sessions|
      ensures mixer == (if count >= 2 then set c | c in sessions && c !in ended && c in env.addable else {})
      ensures moh == (if count == 1 && sessions[0] !in ended && env.mohAvailable && env.mohStarts
                      then Some(sessions[0]) else None)
    {
      Reconcile(ended, env);
      Advance(ConferenceRoom.Reconcile(caller, env));
    }

    /** The reconcile after a hold re-INVITE of an admitted caller. */
    method Refresh(ended: set<nat>, env: Env)
      requires Valid() && state.refreshes > 0 && ended == state.ended
      modifies this
      ensures Valid() && state == Exec(old(state), UpdateReconcile(env))
      ensures count == |sessions|
      ensures mixer == (if count >= 2 then set c | c in sessions && c !in ended && c in env.addable else {})
      ensures moh == (if count == 1 && sessions[0] !in ended && env.mohAvailable && env.mohStarts
                      then Some(sessions[0]) else None)
    {
      Reconcile(ended, env);
      Advance(UpdateReconcile(env));
    }

    method StopMedia()
      modifies this`moh, this`mixer, this`log
      ensures Value() == Silence(old(Value())) && moh == None && mixer == {}
      ensures log == old(log) + (if old(moh).Some? then [MohStopped] else []) + [MixerCleared]
    {
      if moh.Some? {
        moh := None;
        log := log + [MohStopped];
      }
      mixer := {};
      log := log + [MixerCleared];
    }

    /** Stops everything, then starts the mixer for two or more admitted callers or hold music for one. */
    method Reconcile(ended: set<nat>, env: Env)
      modifies this`moh, this`mixer, this`log
      ensures Value() == ApplyMedia(old(Value()), Alive(old(sessions), ended), env)
      ensures count == |sessions| ==>
                mixer == if count >= 2 then set c | c in sessions && c !in ended && c in env.addable else {}
      ensures count == |sessions| ==>
                moh == if count == 1 && sessions[0] !in ended && env.mohAvailable && env.mohStarts
                       then Some(sessions[0]) else None
    {
      PlaysExactlyIfCounted(Value(), ended, env);
      var alive := AliveSessions(ended);
      Apply(alive, env);
    }

    method Apply(alive: seq<nat>, env: Env)
      modifies this`moh, this`mixer, this`log
      ensures Value() == ApplyMedia(old(Value()), alive, env)
    {
      StopMedia();
      var admitted := if count == 0 then |alive| else count;
      if alive == [] {
        return;
      }
      if admitted >= 2 {
        ghost var quiet := Value();
        for i := 0 to |alive|
          invariant AddLegs(Value(), alive[i..], env.addable) == AddLegs(quiet, alive, env.addable)
        {
          assert alive[i..][1..] == alive[i + 1..];
          if alive[i] in env.addable {
            mixer := mixer + {alive[i]};
            log := log + [LegAdded(alive[i])];
          }
        }
      } else if admitted == 1 && |alive| == 1 {
        if !env.mohAvailable || !env.mohStarts {
          return;
        }
        moh := Some(alive[0]);
        log := log + [MohStarted(alive[0])];
      }
    }
  }

  lemma PlaysExactlyIfCounted(r: Room, ended: set<nat>, env: Env)
    ensures var t := ApplyMedia(r, Alive(r.sessions, ended), env);
            r.count == |r.sessions| ==>
              && t.mixer == (if r.count >= 2 then set c | c in r.sessions && c !in ended && c in env.addable else {})
              && t.moh == (if r.count == 1 && r.sessions[0] !in ended && env.mohAvailable && env.mohStarts
                           then Some(r.sessions[0]) else None)
  {
    if r.count == |r.sessions| { PlaysExactly(r, ended, env); }
  }

  // ---- The PIN loop

  /** One round of the prompt: the call or the deadline is over, nothing was keyed in, or a PIN was. */
  datatype Round = Expired | NoEntry | Entered(digits: string)

  function Wrong(rounds: seq<Round>, accepts: string -> bool): nat {
    if rounds == [] then 0
    else Wrong(rounds[..|rounds| - 1], accepts) +
         (if rounds[|rounds| - 1].Entered? && !accepts(rounds[|rounds| - 1].digits) then 1 else 0)
  }

  /** Each wrong entry counts once. */
  lemma {:induction false} WrongIsCount(rounds: seq<Round>, accepts: string -> bool)
    ensures Wrong(rounds, accepts)
            == |set i | 0 <= i < |rounds| && rounds[i].Entered? && !accepts(rounds[i].digits)|
  {
    if rounds != [] {
      var n := |rounds| - 1;
      var front := rounds[..n];
      WrongIsCount(front, accepts);
      var before := set i | 0 <= i < |front| && front[i].Entered? && !accepts(front[i].digits);
      var all := set i | 0 <= i < |rounds| && rounds[i].Entered? && !accepts(rounds[i].digits);
      assert forall i :: 0 <= i < n ==> front[i] == rounds[i];
      assert all == before + (if rounds[n].Entered? && !accepts(rounds[n].digits) then {n} else {});
    }
  }

  /** Round `k` lets the caller in: a right entry, reached in time and after fewer than three wrong ones. */
  ghost predicate LetsIn(rounds: seq<Round>, accepts: string -> bool, k: nat) {
    && k < |rounds| && rounds[k].Entered? && accepts(rounds[k].digits)
    && (forall i :: 0 <= i < k ==> !rounds[i].Expired? && !(rounds[i].Entered? && accepts(rounds[i].digits)))
    && Wrong(rounds[..k], accepts) < 3
  }

  lemma {:induction false} WrongGrows(rounds: seq<Round>, accepts: string -> bool, i: nat)
    requires i <= |rounds|
    ensures Wrong(rounds[..i], accepts) <= Wrong(rounds, accepts)
    decreases |rounds|
  {
    if i < |rounds| {
      WrongGrows(rounds[..|rounds| - 1], accepts, i);
      assert rounds[..|rounds| - 1][..i] == rounds[..i];
    } else {
      assert rounds[..i] == rounds;
    }
  }

  /** The caller is let in exactly when some round lets it in; running out of rounds is the deadline. */
  method CollectPin(rounds: seq<Round>, accepts: string -> bool) returns (ok: bool)
    ensures ok <==> exists k :: LetsIn(rounds, accepts, k)
  {
    var wrong := 0;
    for i := 0 to |rounds|
      invariant wrong == Wrong(rounds[..i], accepts) < MAX_PIN_ATTEMPTS
      invariant forall j :: 0 <= j < i ==> !rounds[j].Expired? && !(rounds[j].Entered? && accepts(rounds[j].digits))
    {
      if rounds[i].Expired? {
        return false;
      }
      if rounds[i].NoEntry? {
        assert rounds[..i + 1][..i] == rounds[..i];
        continue;
      }
      if accepts(rounds[i].digits) {
        assert LetsIn(rounds, accepts, i);
        return true;
      }
      assert rounds[..i + 1][..i] == rounds[..i];
      wrong := wrong + 1;
      if wrong >= MAX_PIN_ATTEMPTS {
        forall k: nat ensures !LetsIn(rounds, accepts, k) {
          if i < k < |rounds| {
            WrongGrows(rounds[..k], accepts, i + 1);
            assert rounds[..k][..i + 1] == rounds[..i + 1];
          }
        }
        return false;
      }
    }
    return false;
  }
}
