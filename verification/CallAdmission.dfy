/** Call admission: an atomic counter of calls, taken with compare-and-swap outside the lock, and the
    session table and per-extension counts kept under it.  Any number of acquirers and releases interleave. */
module CallAdmission {
  import opened Wrappers

  datatype Session = Session(caller: string, callee: string)

  datatype Request = Request(id: string, session: Session)

  /** An extension's configured limit; a limit of zero or less means the default. */
  datatype Limit = Limit(maxCalls: int, callWaiting: bool)

  const DEFAULT_MAX_CALLS_PER_EXTENSION := 5
  const DEFAULT_MAX_CALLS := 200

  datatype Pc =
    | CheckCaller(req: Request) | CheckCallee(req: Request) | Load(req: Request)
    | Swap(req: Request, cur: int) | Insert(req: Request)
    | Finished

  /** `releasing` is the session a release has taken out of the table and not counted off yet; the release holds the
      lock meanwhile. */
  datatype Book = Book(active: int, byId: map<string, Session>, extCalls: map<string, int>, releasing: Option<Session>)

  /** `lost` is bookkeeping: the ends without an extension of the calls released so far. */
  datatype State = State(
    book: Book, maxCalls: int, limits: map<string, Limit>, threads: map<nat, Pc>, lost: nat)

  function CountOf(extCalls: map<string, int>, ext: string): int { if ext in extCalls then extCalls[ext] else 0 }

  function EffectiveMax(l: Limit): int { if l.maxCalls <= 0 then DEFAULT_MAX_CALLS_PER_EXTENSION else l.maxCalls }

  /** checkExtensionLimit: unknown extensions are not limited. */
  predicate UnderLimit(extCalls: map<string, int>, limits: map<string, Limit>, ext: string) {
    ext in limits ==>
      var n, max := CountOf(extCalls, ext), EffectiveMax(limits[ext]);
      n < max || (limits[ext].callWaiting && n == max)
  }

  function Bump(extCalls: map<string, int>, ext: string): map<string, int> {
    extCalls[ext := CountOf(extCalls, ext) + 1]
  }

  /** Counts for the empty extension are never taken back. */
  function Drop(extCalls: map<string, int>, ext: string): map<string, int> {
    if ext == "" then extCalls
    else var n := CountOf(extCalls, ext) - 1;
         if n <= 0 then extCalls - {ext} else extCalls[ext := n]
  }

  function Inserted(b: Book, req: Request): Book {
    b.(byId := b.byId[req.id := req.session],
        extCalls := Bump(Bump(b.extCalls, req.session.caller), req.session.callee))
  }

  /** The first half of Release, under the lock. */
  function Unlisted(b: Book, id: string): Book {
    if id in b.byId then b.(byId := b.byId - {id}, releasing := Some(b.byId[id])) else b
  }

  /** The second half: the atomic counter and the counts, and the lock is given back. */
  function Uncounted(b: Book): Book {
    match b.releasing
    case None => b
    case Some(s) => Book(b.active - 1, b.byId, Drop(Drop(b.extCalls, s.caller), s.callee), None)
  }

  datatype Action = Begin(thread: nat, req: Request) | Go(thread: nat) | Release(id: string) | EndRelease

  /** One atomic step of an acquirer; the sections under the lock wait while a release holds it. */
  function Section(s: State, pc: Pc): (Book, Pc) {
    var b := s.book;
    match pc
    case CheckCaller(req) =>
      (b, if b.releasing.Some? then pc
          else if UnderLimit(b.extCalls, s.limits, req.session.caller) then CheckCallee(req) else Finished)
    case CheckCallee(req) =>
      (b, if b.releasing.Some? then pc
          else if UnderLimit(b.extCalls, s.limits, req.session.callee) then Load(req) else Finished)
    case Load(req) => (b, if b.active >= s.maxCalls then Finished else Swap(req, b.active))
    case Swap(req, cur) => if b.active == cur then (b.(active := cur + 1), Insert(req)) else (b, Load(req))
    case Insert(req) => if b.releasing.Some? then (b, pc) else (Inserted(b, req), Finished)
    case Finished => (b, Finished)
  }

  function Exec(s: State, a: Action): State {
    match a
    case Begin(t, req) => if t in s.threads then s else s.(threads := s.threads[t := CheckCaller(req)])
    case Go(t) =>
      if t !in s.threads then s
      else var (book, next) := Section(s, s.threads[t]); s.(book := book, threads := s.threads[t := next])
    case Release(id) => if s.book.releasing.Some? then s else s.(book := Unlisted(s.book, id))
    case EndRelease => s.(book := Uncounted(s.book), lost := s.lost + BeingReleased(s.book, ""))
  }

  function Run(s: State, acts: seq<Action>): State
    decreases acts
  {
    if acts == [] then s else Run(Exec(s, acts[0]), acts[1..])
  }

  function Start(max: int, limits: map<string, Limit>): State {
    State(Book(0, map[], map[], None), if max <= 0 then DEFAULT_MAX_CALLS else max, limits, map[], 0)
  }

  // ---- The counters stand for the session table

  function Inserting(threads: map<nat, Pc>): set<nat> { set t | t in threads && threads[t].Insert? }

  function AsCaller(byId: map<string, Session>, ext: string): set<string> {
    set id | id in byId && byId[id].caller == ext
  }

  function AsCallee(byId: map<string, Session>, ext: string): set<string> {
    set id | id in byId && byId[id].callee == ext
  }

  /** How many ends of live calls the extension is. */
  function Endpoints(byId: map<string, Session>, ext: string): nat { |AsCaller(byId, ext)| + |AsCallee(byId, ext)| }

  /** How many ends of a session the extension is. */
  function Ends(s: Session, ext: string): nat {
    (if s.caller == ext then 1 else 0) + (if s.callee == ext then 1 else 0)
  }

  function BeingReleased(b: Book, ext: string): nat { if b.releasing.Some? then Ends(b.releasing.value, ext) else 0 }

  /** Every extension's count is the number of ends that name it; those without an extension are never taken back. */
  ghost predicate CountInv(b: Book, lost: nat) {
    forall e :: CountOf(b.extCalls, e) == Endpoints(b.byId, e) + BeingReleased(b, e) + if e == "" then lost else 0
  }

  ghost predicate ActiveInv(s: State) {
    && s.book.active == |s.book.byId| + |Inserting(s.threads)| + (if s.book.releasing.Some? then 1 else 0)
    && s.book.active <= s.maxCalls
    && (forall t :: t in s.threads && s.threads[t].Swap? ==> s.threads[t].cur < s.maxCalls)
  }

  /** Ids of acquirers under way are distinct from each other and from the live ones. */
  ghost predicate IdInv(s: State) {
    && (forall t :: t in s.threads && !s.threads[t].Finished? ==> s.threads[t].req.id !in s.book.byId)
    && (forall t, u :: t in s.threads && u in s.threads && !s.threads[t].Finished? && !s.threads[u].Finished? && t != u
          ==> s.threads[t].req.id != s.threads[u].req.id)
  }

  /** Callers of TryAcquire use an id that no live call and no acquirer under way uses. */
  ghost predicate FreshId(s: State, id: string) {
    id !in s.book.byId && forall t :: t in s.threads && !s.threads[t].Finished? ==> s.threads[t].req.id != id
  }

  ghost predicate FreshIds(s: State, acts: seq<Action>)
    decreases acts
  {
    acts == [] || ((acts[0].Begin? ==> FreshId(s, acts[0].req.id)) && FreshIds(Exec(s, acts[0]), acts[1..]))
  }

  lemma CallerAdd(byId: map<string, Session>, id: string, s: Session, e: string)
    requires id !in byId
    ensures |AsCaller(byId[id := s], e)| == |AsCaller(byId, e)| + if s.caller == e then 1 else 0
  {
    assert id !in AsCaller(byId, e);
    if s.caller == e { assert AsCaller(byId[id := s], e) == AsCaller(byId, e) + {id}; }
    else { assert AsCaller(byId[id := s], e) == AsCaller(byId, e); }
  }

  lemma CalleeAdd(byId: map<string, Session>, id: string, s: Session, e: string)
    requires id !in byId
    ensures |AsCallee(byId[id := s], e)| == |AsCallee(byId, e)| + if s.callee == e then 1 else 0
  {
    assert id !in AsCallee(byId, e);
    if s.callee == e { assert AsCallee(byId[id := s], e) == AsCallee(byId, e) + {id}; }
    else { assert AsCallee(byId[id := s], e) == AsCallee(byId, e); }
  }

  lemma EndpointsAdd(byId: map<string, Session>, id: string, s: Session, e: string)
    requires id !in byId
    ensures Endpoints(byId[id := s], e) == Endpoints(byId, e) + Ends(s, e)
  {
    CallerAdd(byId, id, s, e);
    CalleeAdd(byId, id, s, e);
  }

  lemma EndpointsRemove(byId: map<string, Session>, id: string, e: string)
    requires id in byId
    ensures Endpoints(byId - {id}, e) == Endpoints(byId, e) - Ends(byId[id], e)
  {
    EndpointsAdd(byId - {id}, id, byId[id], e);
    assert (byId - {id})[id := byId[id]] == byId;
  }

  lemma InsertedCounts(b: Book, lost: nat, req: Request)
    requires CountInv(b, lost) && req.id !in b.byId
    ensures CountInv(Inserted(b, req), lost)
  {
    forall e
      ensures CountOf(Inserted(b, req).extCalls, e)
              == Endpoints(Inserted(b, req).byId, e) + BeingReleased(b, e) + if e == "" then lost else 0
    {
      EndpointsAdd(b.byId, req.id, req.session, e);
    }
  }

  lemma UnlistedCounts(b: Book, lost: nat, id: string)
    requires CountInv(b, lost) && id in b.byId && b.releasing.None?
    ensures CountInv(Unlisted(b, id), lost)
  {
    forall e
      ensures CountOf(b.extCalls, e)
              == Endpoints(Unlisted(b, id).byId, e) + BeingReleased(Unlisted(b, id), e) + if e == "" then lost else 0
    {
      EndpointsRemove(b.byId, id, e);
    }
  }

  lemma UncountedCounts(b: Book, lost: nat)
    requires CountInv(b, lost)
    ensures CountInv(Uncounted(b), lost + BeingReleased(b, ""))
  {
    if b.releasing.Some? {
      forall e
        ensures CountOf(Uncounted(b).extCalls, e)
                == Endpoints(b.byId, e) + if e == "" then lost + BeingReleased(b, e) else 0
      {
        DropBoth(b.extCalls, b.releasing.value, e);
      }
    }
  }

  lemma DropBoth(extCalls: map<string, int>, s: Session, e: string)
    requires CountOf(extCalls, e) >= Ends(s, e)
    ensures CountOf(Drop(Drop(extCalls, s.caller), s.callee), e)
            == CountOf(extCalls, e) - if e == "" then 0 else Ends(s, e)
  {
    DropOne(extCalls, s.caller, e);
    DropOne(Drop(extCalls, s.caller), s.callee, e);
  }

  lemma DropOne(extCalls: map<string, int>, ext: string, e: string)
    requires CountOf(extCalls, e) >= if ext == e then 1 else 0
    ensures CountOf(Drop(extCalls, ext), e) == CountOf(extCalls, e) - if ext == e != "" then 1 else 0
  {}

  lemma InsertingAfter(threads: map<nat, Pc>, t: nat, pc: Pc)
    ensures Inserting(threads[t := pc]) == if pc.Insert? then Inserting(threads) + {t} else Inserting(threads) - {t}
  {}

  ghost predicate Inv(s: State) { CountInv(s.book, s.lost) && ActiveInv(s) && IdInv(s) }

  lemma GoKeepsCounts(s: State, t: nat)
    requires CountInv(s.book, s.lost) && IdInv(s) && t in s.threads
    ensures CountInv(Exec(s, Go(t)).book, s.lost)
  {
    if s.threads[t].Insert? { InsertedCounts(s.book, s.lost, s.threads[t].req); }
  }

  lemma GoKeepsActive(s: State, t: nat)
    requires ActiveInv(s) && IdInv(s) && t in s.threads
    ensures ActiveInv(Exec(s, Go(t)))
  {
    var (book, next) := Section(s, s.threads[t]);
    InsertingAfter(s.threads, t, next);
    assert s.threads[t].Insert? ==> t in Inserting(s.threads);
    if s.threads[t].Insert? && s.book.releasing.None? {
      assert book.byId.Keys == s.book.byId.Keys + {s.threads[t].req.id};
    }
  }

  /** A step keeps the acquirer's request until it finishes, and only then is its id listed. */
  lemma SectionKeepsRequest(s: State, t: nat)
    requires t in s.threads
    ensures var u := Exec(s, Go(t));
            var pc, next := s.threads[t], u.threads[t];
            && (!next.Finished? ==> !pc.Finished? && next.req == pc.req && u.book.byId == s.book.byId)
            && (next.Finished? && !pc.Finished? ==> u.book.byId.Keys <= s.book.byId.Keys + {pc.req.id})
            && (pc.Finished? ==> u.book.byId == s.book.byId)
  {}

  lemma IdsAfter(s: State, u: State, t: nat)
    requires IdInv(s) && t in s.threads && t in u.threads && u.threads == s.threads[t := u.threads[t]]
    requires var pc, next := s.threads[t], u.threads[t];
             && (!next.Finished? ==> !pc.Finished? && next.req == pc.req && u.book.byId == s.book.byId)
             && (next.Finished? && !pc.Finished? ==> u.book.byId.Keys <= s.book.byId.Keys + {pc.req.id})
             && (pc.Finished? ==> u.book.byId == s.book.byId)
    ensures IdInv(u)
  {}

  lemma GoKeepsIds(s: State, t: nat)
    requires IdInv(s) && t in s.threads
    ensures IdInv(Exec(s, Go(t)))
  {
    SectionKeepsRequest(s, t);
    IdsAfter(s, Exec(s, Go(t)), t);
  }

  /** Every atomic step of an acquirer keeps the counters exact. */
  lemma GoKeepsInv(s: State, t: nat)
    requires Inv(s) && t in s.threads
    ensures Inv(Exec(s, Go(t)))
  {
    GoKeepsCounts(s, t);
    GoKeepsActive(s, t);
    GoKeepsIds(s, t);
  }

  lemma BeginKeepsActive(s: State, t: nat, req: Request)
    requires ActiveInv(s)
    ensures ActiveInv(Exec(s, Begin(t, req)))
  {
    InsertingAfter(s.threads, t, CheckCaller(req));
    if t !in s.threads { assert t !in Inserting(s.threads); }
  }

  lemma BeginKeepsInv(s: State, t: nat, req: Request)
    requires Inv(s) && FreshId(s, req.id)
    ensures Inv(Exec(s, Begin(t, req)))
  {
    BeginKeepsActive(s, t, req);
  }

  /** So do both halves of a release, of a known call or an unknown one. */
  lemma ReleaseKeepsInv(s: State, id: string)
    requires Inv(s)
    ensures Inv(Exec(s, Release(id))) && Inv(Exec(s, EndRelease))
  {
    UncountedCounts(s.book, s.lost);
    if id in s.book.byId && s.book.releasing.None? {
      UnlistedCounts(s.book, s.lost, id);
      assert (s.book.byId - {id}).Keys == s.book.byId.Keys - {id};
    }
  }

  lemma {:induction false} InvRun(s: State, acts: seq<Action>)
    requires Inv(s) && FreshIds(s, acts)
    ensures Inv(Run(s, acts)) && Run(s, acts).maxCalls == s.maxCalls && Run(s, acts).limits == s.limits
    decreases acts
  {
    if acts != [] {
      var a := acts[0];
      if a.Begin? { BeginKeepsInv(s, a.thread, a.req); }
      else if a.Release? { ReleaseKeepsInv(s, a.id); }
      else if a.EndRelease? { ReleaseKeepsInv(s, ""); }
      else if a.thread in s.threads { GoKeepsInv(s, a.thread); }
      InvRun(Exec(s, a), acts[1..]);
    }
  }

  /** The limit holds and, with the lock free, every count is the number of ends of live calls that name it. */
  ghost predicate Exact(s: State) {
    && s.book.active <= s.maxCalls && s.book.active == |s.book.byId| + |Inserting(s.threads)|
    && forall e :: e != "" ==> CountOf(s.book.extCalls, e) == Endpoints(s.book.byId, e)
  }

  lemma ExactWhenFree(s: State)
    requires Inv(s) && s.book.releasing.None?
    ensures Exact(s)
  {}

  lemma StartInv(max: int, limits: map<string, Limit>)
    ensures Inv(Start(max, limits))
  {}

  /** Under every interleaving with distinct live ids: the system limit holds, the counter is the number of live
      calls, acquirers between their swap and their insert and a release not finished, and whenever the lock is
      free each extension's count is the number of ends of live calls that name it.  Ends without an extension are
      never taken back. */
  lemma {:induction false} CountersAreExact(max: int, limits: map<string, Limit>, acts: seq<Action>, ext: string)
    requires FreshIds(Start(max, limits), acts)
    ensures var s := Run(Start(max, limits), acts);
            && s.book.active <= (if max <= 0 then 200 else max)
            && s.book.active == |s.book.byId| + |Inserting(s.threads)| + (if s.book.releasing.Some? then 1 else 0)
            && CountOf(s.book.extCalls, ext)
               == Endpoints(s.book.byId, ext) + BeingReleased(s.book, ext) + if ext == "" then s.lost else 0
  {
    StartInv(max, limits);
    InvRun(Start(max, limits), acts);
  }

  ghost predicate PositiveCounts(extCalls: map<string, int>) { forall e :: e in extCalls ==> extCalls[e] > 0 }

  lemma CountsStayPositive(s: State, a: Action)
    requires PositiveCounts(s.book.extCalls)
    ensures PositiveCounts(Exec(s, a).book.extCalls)
  {
    match a
    case EndRelease =>
      if s.book.releasing.Some? {
        var r := s.book.releasing.value;
        assert PositiveCounts(Drop(s.book.extCalls, r.caller));
        assert PositiveCounts(Drop(Drop(s.book.extCalls, r.caller), r.callee));
      }
    case Go(t) =>
      if t in s.threads && s.threads[t].Insert? {
        var req := s.threads[t].req;
        assert PositiveCounts(Bump(s.book.extCalls, req.session.caller));
        assert PositiveCounts(Bump(Bump(s.book.extCalls, req.session.caller), req.session.callee));
      }
    case _ =>
  }

  lemma {:induction false} CountsRun(s: State, acts: seq<Action>)
    requires PositiveCounts(s.book.extCalls)
    ensures PositiveCounts(Run(s, acts).book.extCalls)
    decreases acts
  {
    if acts != [] {
      CountsStayPositive(s, acts[0]);
      CountsRun(Exec(s, acts[0]), acts[1..]);
    }
  }

  /** No extension is kept in the table with a count of nothing. */
  lemma {:induction false} NoIdleCounts(max: int, limits: map<string, Limit>, acts: seq<Action>, ext: string)
    requires ext in Run(Start(max, limits), acts).book.extCalls
    ensures Run(Start(max, limits), acts).book.extCalls[ext] > 0
  {
    CountsRun(Start(max, limits), acts);
  }

  /** A release takes a known call off the list and the counter, and each of its ends off its extension's count. */
  lemma {:induction false} ReleaseReleases(s: State, id: string, ext: string)
    requires s.book.releasing.None? && id in s.book.byId && ext != ""
    requires CountOf(s.book.extCalls, ext) >= Ends(s.book.byId[id], ext)
    ensures var after := Run(s, [Release(id), EndRelease]).book;
            && after.byId == s.book.byId - {id} && after.active == s.book.active - 1 && after.releasing.None?
            && CountOf(after.extCalls, ext) == CountOf(s.book.extCalls, ext) - Ends(s.book.byId[id], ext)
  {
    var acts := [Release(id), EndRelease];
    var mid := Exec(s, Release(id));
    assert acts[1..] == [EndRelease] && acts[1..][1..] == [];
    assert Run(s, acts) == Run(mid, [EndRelease]) == Exec(mid, EndRelease);
  }

  /** While a release holds the lock, no acquirer passes a check or lists its call, and no other release begins. */
  lemma LockedOut(s: State, t: nat, id: string)
    requires s.book.releasing.Some? && t in s.threads
    requires s.threads[t].CheckCaller? || s.threads[t].CheckCallee? || s.threads[t].Insert?
    ensures Exec(s, Go(t)) == s && Exec(s, Release(id)) == s
  {
    assert s.threads[t := s.threads[t]] == s.threads;
  }

  // ---- Per-extension limits

  /** An extension is let through with fewer calls than its limit, five unless configured, or as many with call
      waiting; an unknown one always is. */
  lemma UnderLimitExactly(extCalls: map<string, int>, limits: map<string, Limit>, ext: string)
    ensures UnderLimit(extCalls, limits, ext) <==>
              ext in limits ==>
                (if ext in extCalls then extCalls[ext] else 0)
                < (if limits[ext].maxCalls <= 0 then 5 else limits[ext].maxCalls)
                  + (if limits[ext].callWaiting then 1 else 0)
  {}

  /** The most calls the limit check lets an extension have. */
  function Cap(l: Limit): int { EffectiveMax(l) + if l.callWaiting then 1 else 0 }

  predicate HasRoom(s: State, ext: string) { ext in s.limits ==> CountOf(s.book.extCalls, ext) < Cap(s.limits[ext]) }

  /** One acquirer at a time, and no call from an extension to itself. */
  ghost predicate Sequential(s: State, acts: seq<Action>)
    decreases acts
  {
    acts == [] ||
    ((acts[0].Begin? ==> (forall t :: t in s.threads ==> s.threads[t].Finished?)
                         && acts[0].req.session.caller != acts[0].req.session.callee)
     && Sequential(Exec(s, acts[0]), acts[1..]))
  }

  ghost predicate LimitInv(s: State) {
    && (forall e :: e in s.limits ==> CountOf(s.book.extCalls, e) <= Cap(s.limits[e]))
    && (forall t, u :: t in s.threads && u in s.threads && !s.threads[t].Finished? && !s.threads[u].Finished? ==>
            t == u)
    && (forall t :: t in s.threads && !s.threads[t].Finished? ==>
          && s.threads[t].req.session.caller != s.threads[t].req.session.callee
          && (!s.threads[t].CheckCaller? ==> HasRoom(s, s.threads[t].req.session.caller))
          && (!s.threads[t].CheckCaller? && !s.threads[t].CheckCallee? ==> HasRoom(s, s.threads[t].req.session.callee)))
  }

  lemma ReleaseLowers(b: Book, e: string)
    ensures CountOf(Uncounted(b).extCalls, e) <= CountOf(b.extCalls, e) || CountOf(Uncounted(b).extCalls, e) == 0
  {}

  lemma CapPositive(l: Limit)
    ensures Cap(l) >= 1
  {}

  lemma LimitAfterRelease(s: State)
    requires LimitInv(s)
    ensures LimitInv(s.(book := Uncounted(s.book), lost := s.lost + BeingReleased(s.book, "")))
  {
    forall e | e in s.limits
      ensures CountOf(Uncounted(s.book).extCalls, e) <= CountOf(s.book.extCalls, e)
              || CountOf(Uncounted(s.book).extCalls, e) == 0
      ensures Cap(s.limits[e]) >= 1
    {
      ReleaseLowers(s.book, e);
      CapPositive(s.limits[e]);
    }
  }

  lemma LimitAfterGo(s: State, t: nat)
    requires LimitInv(s) && t in s.threads
    ensures LimitInv(Exec(s, Go(t)))
  {
    if s.threads[t].Insert? { LimitAfterInsert(s, t); }
  }

  lemma LimitAfterInsert(s: State, t: nat)
    requires LimitInv(s) && t in s.threads && s.threads[t].Insert?
    ensures LimitInv(Exec(s, Go(t)))
  {}

  lemma {:induction false} LimitStep(s: State, a: Action)
    requires LimitInv(s) && Sequential(s, [a])
    ensures LimitInv(Exec(s, a))
  {
    if a.EndRelease? { LimitAfterRelease(s); }
    else if a.Go? { if a.thread in s.threads { LimitAfterGo(s, a.thread); } }
  }

  lemma {:induction false} LimitRun(s: State, acts: seq<Action>)
    requires LimitInv(s) && Sequential(s, acts)
    ensures LimitInv(Run(s, acts)) && Run(s, acts).limits == s.limits
    decreases acts
  {
    if acts != [] {
      assert Sequential(s, [acts[0]]) by { assert [acts[0]][1..] == []; }
      LimitStep(s, acts[0]);
      LimitRun(Exec(s, acts[0]), acts[1..]);
    }
  }

  /** With one acquirer at a time and no self-calls, no extension exceeds its limit, plus one with call waiting. */
  lemma {:induction false} LimitsHold(max: int, limits: map<string, Limit>, acts: seq<Action>, ext: string)
    requires Sequential(Start(max, limits), acts) && ext in limits
    ensures CountOf(Run(Start(max, limits), acts).book.extCalls, ext)
            <= (if limits[ext].maxCalls <= 0 then 5 else limits[ext].maxCalls)
               + (if limits[ext].callWaiting then 1 else 0)
  {
    LimitRun(Start(max, limits), acts);
  }

  /** Both limit checks, the swap and the insert of one acquirer, with nothing in between. */
  function Alone(s: State, t: nat): State {
    Exec(Exec(Exec(Exec(Exec(s, Go(t)), Go(t)), Go(t)), Go(t)), Go(t))
  }

  /** An uninterrupted acquire is admitted exactly when both checks and the system limit allow it, and then an
      extension within its limit ends above it exactly when it called itself with a single place left. */
  lemma AloneExceedsOnlyOnSelfCall(s: State, t: nat, req: Request, ext: string)
    requires t in s.threads && s.threads[t] == CheckCaller(req) && s.book.releasing.None?
    requires ext in s.limits && CountOf(s.book.extCalls, ext) <= Cap(s.limits[ext])
    ensures var caller, callee := req.session.caller, req.session.callee;
            var admitted := UnderLimit(s.book.extCalls, s.limits, caller)
                && UnderLimit(s.book.extCalls, s.limits, callee)
                            && s.book.active < s.maxCalls;
            var after := Alone(s, t).book;
            && after == (if admitted then Inserted(s.book, req).(active := s.book.active + 1) else s.book)
            && (CountOf(after.extCalls, ext) > Cap(s.limits[ext]) <==>
                  admitted && caller == callee == ext && CountOf(s.book.extCalls, ext) == Cap(s.limits[ext]) - 1)
  {
    var s1 := Exec(s, Go(t));
    var s2 := Exec(s1, Go(t));
    var s3 := Exec(s2, Go(t));
    var s4 := Exec(s3, Go(t));
    assert s1.book == s.book == s2.book == s3.book;
    var callerFits := UnderLimit(s.book.extCalls, s.limits, req.session.caller);
    assert s1.threads[t] == if callerFits then CheckCallee(req) else Finished;
  }

  // ---- Overlapping acquirers

  predicate PastChecks(pc: Pc) { pc.Load? || pc.Swap? || pc.Insert? }

  function Pending(threads: map<nat, Pc>): set<nat> { set t | t in threads && PastChecks(threads[t]) }

  function PendingCallers(threads: map<nat, Pc>, ext: string): set<nat> {
    set t | t in threads && PastChecks(threads[t]) && threads[t].req.session.caller == ext
  }

  function PendingCallees(threads: map<nat, Pc>, ext: string): set<nat> {
    set t | t in threads && PastChecks(threads[t]) && threads[t].req.session.callee == ext
  }

  /** Acquirers that have not taken their place in the counter yet. */
  function Waiting(threads: map<nat, Pc>): set<nat> { set t | t in threads && (threads[t].Load? || threads[t].Swap?) }

  /** The extension's count once every acquirer past its checks is inserted. */
  function Due(s: State, ext: string): int {
    CountOf(s.book.extCalls, ext) + |PendingCallers(s.threads, ext)| + |PendingCallees(s.threads, ext)|
  }

  /** No release is under way and the system limit has room for every acquirer past its checks. */
  predicate RoomForAll(s: State) { s.book.releasing.None? && s.book.active + |Waiting(s.threads)| <= s.maxCalls }

  predicate Only(acts: seq<Action>, threads: set<nat>) {
    forall i :: 0 <= i < |acts| ==> acts[i].Go? && acts[i].thread in threads
  }

  lemma PendingAfter(threads: map<nat, Pc>, t: nat, pc: Pc, ext: string)
    requires t in threads && PastChecks(threads[t]) && (PastChecks(pc) ==> pc.req == threads[t].req)
    ensures var after := threads[t := pc];
            if PastChecks(pc) then
              Pending(after) == Pending(threads) && PendingCallers(after, ext) == PendingCallers(threads, ext)
              && PendingCallees(after, ext) == PendingCallees(threads, ext)
            else
              && Pending(after) == Pending(threads) - {t}
              && PendingCallers(after, ext) == PendingCallers(threads, ext) - {t}
              && PendingCallees(after, ext) == PendingCallees(threads, ext) - {t}
  {}

  lemma WaitingAfter(threads: map<nat, Pc>, t: nat, pc: Pc)
    ensures Waiting(threads[t := pc]) == if pc.Load? || pc.Swap? then Waiting(threads) + {t} else Waiting(threads) - {t}
  {}

  /** What a step of an acquirer past its checks may change. */
  ghost predicate Onward(s: State, u: State, t: nat) {
    && u.maxCalls == s.maxCalls && u.limits == s.limits && RoomForAll(u) && u.threads.Keys == s.threads.Keys
    && (Pending(u.threads) == Pending(s.threads) || Pending(u.threads) == Pending(s.threads) - {t})
    && (forall e :: Due(u, e) == Due(s, e))
  }

  lemma RoomKept(s: State, t: nat)
    requires RoomForAll(s) && t in Pending(s.threads)
    ensures RoomForAll(Exec(s, Go(t)))
    ensures s.threads[t].Load? ==> Exec(s, Go(t)).threads[t] == Swap(s.threads[t].req, s.book.active)
  {
    WaitingAfter(s.threads, t, Exec(s, Go(t)).threads[t]);
    assert s.threads[t].Load? || s.threads[t].Swap? ==> t in Waiting(s.threads);
  }

  lemma InsertedCount(b: Book, req: Request, e: string)
    ensures CountOf(Inserted(b, req).extCalls, e) == CountOf(b.extCalls, e) + Ends(req.session, e)
  {}

  lemma DueWhenInserted(s: State, t: nat, e: string)
    requires s.book.releasing.None? && t in s.threads && s.threads[t].Insert?
    ensures Due(Exec(s, Go(t)), e) == Due(s, e)
  {
    var session := s.threads[t].req.session;
    InsertedCount(s.book, s.threads[t].req, e);
    PendingAfter(s.threads, t, Finished, e);
    assert session.caller == e <==> t in PendingCallers(s.threads, e);
    assert session.callee == e <==> t in PendingCallees(s.threads, e);
  }

  lemma DueKept(s: State, t: nat, e: string)
    requires RoomForAll(s) && t in Pending(s.threads)
    ensures Due(Exec(s, Go(t)), e) == Due(s, e)
  {
    if s.threads[t].Insert? {
      DueWhenInserted(s, t, e);
    } else {
      RoomKept(s, t);
      PendingAfter(s.threads, t, Exec(s, Go(t)).threads[t], e);
    }
  }

  lemma StepOnward(s: State, t: nat)
    requires RoomForAll(s) && t in Pending(s.threads)
    ensures Onward(s, Exec(s, Go(t)), t)
  {
    RoomKept(s, t);
    PendingAfter(s.threads, t, Exec(s, Go(t)).threads[t], "");
    forall e ensures Due(Exec(s, Go(t)), e) == Due(s, e) { DueKept(s, t, e); }
  }

  /** Whatever these acquirers do, no count passes what is due. */
  lemma {:induction false} NeverAboveDue(s: State, acts: seq<Action>, among: set<nat>, e: string)
    requires RoomForAll(s) && Only(acts, among)
    requires forall t :: t in among && t in s.threads ==> PastChecks(s.threads[t]) || s.threads[t].Finished?
    ensures CountOf(Run(s, acts).book.extCalls, e) <= Due(s, e)
    decreases acts
  {
    if acts != [] {
      var t, u := acts[0].thread, Exec(s, acts[0]);
      if t in Pending(s.threads) {
        StepOnward(s, t);
        NeverAboveDue(u, acts[1..], among, e);
      } else {
        assert t in s.threads ==> s.threads[t := Finished] == s.threads;
        NeverAboveDue(s, acts[1..], among, e);
      }
    }
  }

  /** Steps an acquirer still needs when left alone. */
  function StepsLeft(s: State, pc: Pc): nat {
    match pc
    case Load(_) => 3
    case Swap(_, cur) => if cur == s.book.active then 2 else 4
    case Insert(_) => 1
    case _ => 0
  }

  lemma {:induction false} FinishOne(s: State, t: nat) returns (acts: seq<Action>)
    requires RoomForAll(s) && t in Pending(s.threads)
    ensures Only(acts, {t})
    ensures var u := Run(s, acts); Onward(s, u, t) && Pending(u.threads) == Pending(s.threads) - {t}
    decreases StepsLeft(s, s.threads[t])
  {
    var a := Go(t);
    var u := Exec(s, a);
    StepOnward(s, t);
    RoomKept(s, t);
    if t in Pending(u.threads) {
      var rest := FinishOne(u, t);
      acts := [a] + rest;
      assert acts[1..] == rest;
    } else {
      acts := [a];
      assert Run(u, acts[1..]) == u;
    }
  }

  lemma {:induction false} RunAppend(s: State, a: seq<Action>, b: seq<Action>)
    ensures Run(s, a + b) == Run(Run(s, a), b)
    decreases a
  {
    if a == [] {
      assert a + b == b;
    } else {
      assert (a + b)[0] == a[0] && (a + b)[1..] == a[1..] + b;
      RunAppend(Exec(s, a[0]), a[1..], b);
    }
  }

  /** One after another they all get in, and the count is what was due. */
  lemma {:induction false} AllGetIn(s: State, e: string) returns (acts: seq<Action>)
    requires RoomForAll(s)
    ensures Only(acts, Pending(s.threads)) && CountOf(Run(s, acts).book.extCalls, e) == Due(s, e)
    decreases |Pending(s.threads)|
  {
    if Pending(s.threads) == {} {
      assert PendingCallers(s.threads, e) == {} && PendingCallees(s.threads, e) == {};
      acts := [];
    } else {
      var t :| t in Pending(s.threads);
      var first := FinishOne(s, t);
      var rest := AllGetIn(Run(s, first), e);
      RunAppend(s, first, rest);
      acts := first + rest;
    }
  }

  /** Overlapping acquires exceed a limit exactly when more is due than the limit allows: from any state with room
      in the system limit, the acquirers past their checks can take an extension over its limit if and only if its
      count and the ends among them that name it add up to more. */
  lemma {:induction false} OverlapExceedsExactly(s: State, e: string)
    requires RoomForAll(s) && e in s.limits
    ensures (exists acts :: Only(acts, Pending(s.threads)) && CountOf(Run(s, acts).book.extCalls, e) > Cap(s.limits[e]))
            <==> Due(s, e) > Cap(s.limits[e])
  {
    forall acts | Only(acts, Pending(s.threads)) && CountOf(Run(s, acts).book.extCalls, e) > Cap(s.limits[e])
      ensures Due(s, e) > Cap(s.limits[e])
    {
      NeverAboveDue(s, acts, Pending(s.threads), e);
    }
    if Due(s, e) > Cap(s.limits[e]) { var acts := AllGetIn(s, e); }
  }

  // ---- It happens

  lemma {:induction false} FreshAppend(s: State, a: seq<Action>, b: seq<Action>)
    requires FreshIds(s, a) && FreshIds(Run(s, a), b)
    ensures FreshIds(s, a + b) && Run(s, a + b) == Run(Run(s, a), b)
    decreases a
  {
    if a == [] {
      assert a + b == b;
    } else {
      assert (a + b)[0] == a[0] && (a + b)[1..] == a[1..] + b;
      FreshAppend(Exec(s, a[0]), a[1..], b);
    }
  }

  lemma {:induction false} GoingIsFresh(s: State, acts: seq<Action>)
    requires forall i :: 0 <= i < |acts| ==> acts[i].Go?
    ensures FreshIds(s, acts)
    decreases acts
  {
    if acts != [] { GoingIsFresh(Exec(s, acts[0]), acts[1..]); }
  }

  /** A new acquirer that passes both checks, with nothing in between. */
  lemma PassesChecks(s: State, acts: seq<Action>, t: nat, req: Request) returns (more: seq<Action>)
    requires FreshIds(s, acts)
    requires var u := Run(s, acts);
             t !in u.threads && FreshId(u, req.id) && u.book.releasing.None?
             && UnderLimit(u.book.extCalls, u.limits, req.session.caller)
             && UnderLimit(u.book.extCalls, u.limits, req.session.callee)
    ensures FreshIds(s, more) && Run(s, more) == Run(s, acts).(threads := Run(s, acts).threads[t := Load(req)])
  {
    var u := Run(s, acts);
    var u1 := Exec(u, Begin(t, req));
    var u2 := Exec(u1, Go(t));
    var next := [Begin(t, req), Go(t), Go(t)];
    assert next[1..] == [Go(t), Go(t)] && [Go(t), Go(t)][1..] == [Go(t)] && [Go(t)][1..] == [];
    assert Run(u2, [Go(t)]) == Exec(u2, Go(t)) && Run(u1, next[1..]) == Run(u2, [Go(t)]);
    assert u2.threads == u.threads[t := CheckCallee(req)] && Exec(u2, Go(t)).threads == u.threads[t := Load(req)];
    assert FreshIds(u, next) by { GoingIsFresh(u1, next[1..]); }
    FreshAppend(s, acts, next);
    more := acts + next;
  }

  const tight := map["101" := Limit(1, false)]

  /** Two acquirers for an extension that may have one call, both checked before either is counted. */
  lemma OverlapCanExceedLimit()
    ensures exists acts :: FreshIds(Start(10, tight), acts)
              && CountOf(Run(Start(10, tight), acts).book.extCalls, "101") > Cap(tight["101"])
  {
    var s := Start(10, tight);
    var acts := PassesChecks(s, [], 0, Request("a", Session("101", "102")));
    acts := PassesChecks(s, acts, 1, Request("b", Session("101", "103")));
    var u := Run(s, acts);
    assert Waiting(u.threads) == {0, 1} && PendingCallers(u.threads, "101") == {0, 1};
    OverlapExceedsExactly(u, "101");
    var rest :| Only(rest, Pending(u.threads)) && CountOf(Run(u, rest).book.extCalls, "101") > Cap(u.limits["101"]);
    GoingIsFresh(u, rest);
    FreshAppend(s, acts, rest);
  }
}
