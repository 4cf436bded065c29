/** The manager's own record: what each locked section and each atomic operation does to its fields, in step with a run
    of any number of acquirers and releases. */
module CallManager {
  import opened Wrappers
  import opened CallAdmission

  class Manager {
    const maxCalls: int
    var active: int
    var byId: map<string, Session>
    var extCalls: map<string, int>

    /** The state of the run: where every acquirer is, and a release that holds the lock. */
    ghost var state: State

    ghost predicate Valid()
      reads this
    {
      Inv(state) && maxCalls == state.maxCalls && state.book == Book(active, byId, extCalls, state.book.releasing)
    }

    ghost predicate LockFree() reads this { state.book.releasing.None? }

    ghost predicate At(t: nat, pc: Pc) reads this { Valid() && t in state.threads && state.threads[t] == pc }

    constructor (max: int, ghost limits: map<string, Limit>)
      ensures Valid() && state == Start(max, limits)
      ensures maxCalls == (if max <= 0 then 200 else max) && active == 0 && byId == map[] && extCalls == map[]
    {
      maxCalls := if max <= 0 then DEFAULT_MAX_CALLS else max;
      active, byId, extCalls := 0, map[], map[];
      state := Start(max, limits);
      new;
      StartInv(max, limits);
    }

    ghost method Advance(a: Action)
      requires Inv(state) && !a.Begin?
      modifies this`state
      ensures Inv(state) && state == Exec(old(state), a)
    {
      if a.Go? { if a.thread in state.threads { GoKeepsInv(state, a.thread); } }
      else if a.Release? { ReleaseKeepsInv(state, a.id); }
      else { ReleaseKeepsInv(state, ""); }
      state := Exec(state, a);
    }

    /** An acquirer with an unused identity and an unused call id. */
    ghost method Arrive(t: nat, req: Request)
      requires Valid() && FreshId(state, req.id)
      modifies this`state
      ensures Valid() && state == Exec(old(state), Begin(t, req))
    {
      BeginKeepsInv(state, t, req);
      state := Exec(state, Begin(t, req));
    }

    method CheckExtensionLimit(limits: map<string, Limit>, ext: string) returns (ok: bool)
      ensures ok == UnderLimit(extCalls, limits, ext)
      ensures ok <==> ext in limits ==>
                        (if ext in extCalls then extCalls[ext] else 0)
                        < (if limits[ext].maxCalls <= 0 then 5 else limits[ext].maxCalls)
                          + (if limits[ext].callWaiting then 1 else 0)
    {
      if ext !in limits { return true; }
      var n := if ext in extCalls then extCalls[ext] else 0;
      var max := limits[ext].maxCalls;
      if max <= 0 { max := DEFAULT_MAX_CALLS_PER_EXTENSION; }
      if n >= max {
        if limits[ext].callWaiting && n == max { return true; }
        return false;
      }
      return true;
    }

    /** One of the two checks; it changes nothing and decides whether the acquirer goes on. */
    method Check(t: nat, pc: Pc, limits: map<string, Limit>) returns (ok: bool)
      requires At(t, pc) && (pc.CheckCaller? || pc.CheckCallee?) && LockFree() && limits == state.limits
      modifies this`state
      ensures Valid() && state == Exec(old(state), Go(t))
      ensures ok == !state.threads[t].Finished?
    {
      ok := CheckExtensionLimit(limits, if pc.CheckCaller? then pc.req.session.caller else pc.req.session.callee);
      Advance(Go(t));
    }

    method LoadActive(t: nat, req: Request) returns (cur: int)
      requires At(t, CallAdmission.Load(req))
      modifies this`state
      ensures Valid() && state == Exec(old(state), Go(t)) && cur == active
      ensures state.threads[t] == if cur >= maxCalls then Finished else Swap(req, cur)
    {
      cur := active;
      Advance(Go(t));
    }

    /** The atomic compare-and-swap: it takes one place, only one that was free, and only if nobody changed the counter
        since it was read. */
    method CompareAndSwap(t: nat, req: Request, cur: int) returns (swapped: bool)
      requires At(t, Swap(req, cur))
      modifies this`active, this`state
      ensures Valid() && state == Exec(old(state), Go(t))
      ensures swapped == (old(active) == cur) && active == old(active) + (if swapped then 1 else 0)
              && active <= maxCalls
      ensures state.threads[t] == if swapped then CallAdmission.Insert(req) else CallAdmission.Load(req)
    {
      swapped := active == cur;
      if swapped { active := cur + 1; }
      Advance(Go(t));
    }

    /** The call is listed, both its ends are counted, and the counts are exact. */
    method Insert(t: nat, req: Request)
      requires At(t, CallAdmission.Insert(req)) && LockFree()
      modifies this`byId, this`extCalls, this`state
      ensures Valid() && state == Exec(old(state), Go(t)) && Exact(state)
      ensures byId == old(byId)[req.id := req.session] && req.id !in old(byId)
    {
      byId := byId[req.id := req.session];
      Increment(req.session.caller);
      Increment(req.session.callee);
      Advance(Go(t));
      ExactWhenFree(state);
    }

    method Increment(ext: string)
      modifies this`extCalls
      ensures extCalls == Bump(old(extCalls), ext)
    {
      extCalls := extCalls[ext := (if ext in extCalls then extCalls[ext] else 0) + 1];
    }

    method Decrement(ext: string)
      modifies this`extCalls
      ensures extCalls == Drop(old(extCalls), ext)
    {
      if ext != "" {
        extCalls := extCalls[ext := (if ext in extCalls then extCalls[ext] else 0) - 1];
        if extCalls[ext] <= 0 { extCalls := extCalls - {ext}; }
      }
    }

    /** The first half of Release: the call is off the list and still counted. */
    method Unlist(id: string) returns (found: Option<Session>)
      requires Valid() && LockFree()
      modifies this`byId, this`state
      ensures Valid() && state == Exec(old(state), Action.Release(id)) && state.book.releasing == found
      ensures byId == old(byId) - {id} && (found.Some? <==> id in old(byId))
    {
      found := if id in byId then Some(byId[id]) else None;
      assert id !in byId ==> byId - {id} == byId;
      byId := byId - {id};
      Advance(Action.Release(id));
    }

    /** The second half: the counts are exact again. */
    method CountOff(s: Session)
      requires Valid() && state.book.releasing == Some(s)
      modifies this`active, this`extCalls, this`state
      ensures Valid() && state == Exec(old(state), EndRelease) && LockFree() && Exact(state)
              && active == old(active) - 1
    {
      TakeBack(s);
      Advance(EndRelease);
      ExactWhenFree(state);
    }

    method TakeBack(s: Session)
      modifies this`active, this`extCalls
      ensures active == old(active) - 1 && extCalls == Drop(Drop(old(extCalls), s.caller), s.callee)
    {
      active := active - 1;
      Decrement(s.caller);
      Decrement(s.callee);
    }

    /** The call is not listed any more, and the counts are exact; an unknown id changes nothing. */
    method Release(id: string)
      requires Valid() && LockFree()
      modifies this
      ensures Valid() && state == Exec(Exec(old(state), Action.Release(id)), EndRelease) && LockFree() && Exact(state)
      ensures byId == old(byId) - {id} && active == old(active) - (if id in old(byId) then 1 else 0)
    {
      var found := Unlist(id);
      if found.Some? { CountOff(found.value); }
      ExactWhenFree(state);
    }

    /** The loop of TryAcquire, alone: it takes a place if there is one. */
    method TakePlace(t: nat, req: Request) returns (ok: bool)
      requires At(t, CallAdmission.Load(req)) && LockFree()
      modifies this`active, this`state
      ensures Valid() && LockFree() && t in state.threads && ok == (old(active) < maxCalls)
      ensures active == old(active) + (if ok then 1 else 0) && (ok ==> state.threads[t] == CallAdmission.Insert(req))
    {
      ok := false;
      while !ok
        invariant Valid() && LockFree() && t in state.threads
        invariant ok ==>
                    old(active) < maxCalls && active == old(active) + 1 && state.threads[t] == CallAdmission.Insert(req)
        invariant !ok ==> active == old(active) && state.threads[t] == CallAdmission.Load(req)
        decreases if ok then 0 else 1
      {
        var cur := LoadActive(t, req);
        if cur >= maxCalls { return false; }
        ok := CompareAndSwap(t, req, cur);
      }
    }

    /** TryAcquire with no other acquirer or release running meanwhile: admitted exactly when both checks and the system
        limit allow it, and then listed and counted. */
    method TryAcquire(t: nat, req: Request, limits: map<string, Limit>) returns (ok: bool)
      requires Valid() && LockFree() && t !in state.threads && FreshId(state, req.id) && limits == state.limits
      modifies this
      ensures Valid() && LockFree() && Exact(state)
      ensures ok == (UnderLimit(old(extCalls), limits, req.session.caller)
                     && UnderLimit(old(extCalls), limits, req.session.callee) && old(active) < maxCalls)
      ensures byId == (if ok then old(byId)[req.id := req.session] else old(byId))
      ensures active == old(active) + if ok then 1 else 0
    {
      ok := PassChecks(t, req, limits);
      if ok { ok := TakePlace(t, req); }
      if ok { Insert(t, req); } else { ExactWhenFree(state); }
    }

    /** Both checks, alone. */
    method PassChecks(t: nat, req: Request, limits: map<string, Limit>) returns (ok: bool)
      requires Valid() && LockFree() && t !in state.threads && FreshId(state, req.id) && limits == state.limits
      modifies this`state
      ensures Valid() && LockFree() && t in state.threads
      ensures ok == (UnderLimit(extCalls, limits, req.session.caller)
                     && UnderLimit(extCalls, limits, req.session.callee))
      ensures ok ==> state.threads[t] == CallAdmission.Load(req)
    {
      Arrive(t, req);
      ok := Check(t, CheckCaller(req), limits);
      if ok { ok := Check(t, CheckCallee(req), limits); }
    }
  }
}
