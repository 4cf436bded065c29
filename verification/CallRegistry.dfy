/** The active-call registry: calls indexed by dialog and by calling extension. */
module CallRegistry {
  import opened Wrappers

  /** A bridged call: which record it is, the dialog ID of its incoming leg if it has one, and its two extensions. */
  datatype Call = Call(record: nat, dialog: Option<string>, caller: string, callee: string)

  datatype Index = Index(byDialog: map<string, Call>, byExt: map<string, Call>)

  datatype Event = Register(call: Call) | Unregister(dialog: string)

  function Exec(x: Index, e: Event): Index {
    match e
    case Register(c) =>
      if c.dialog.None? then x
      else Index(x.byDialog[c.dialog.value := c], if c.caller == "" then x.byExt else x.byExt[c.caller := c])
    case Unregister(id) =>
      if id !in x.byDialog then x
      else var c := x.byDialog[id];
           var shown := c.caller != "" && c.caller in x.byExt && x.byExt[c.caller] == c;
           Index(x.byDialog - {id}, if shown then x.byExt - {c.caller} else x.byExt)
  }

  function Run(events: seq<Event>): Index {
    if events == [] then Index(map[], map[]) else Exec(Run(events[..|events| - 1]), events[|events| - 1])
  }

  predicate Registered(x: Index, c: Call) {
    c.dialog.Some? && c.dialog.value in x.byDialog && x.byDialog[c.dialog.value] == c
  }

  ghost predicate KeysFit(x: Index) { forall id :: id in x.byDialog ==> x.byDialog[id].dialog == Some(id) }

  ghost predicate Inv(x: Index) {
    && KeysFit(x)
    && (forall e :: e in x.byExt ==> e != "" && x.byExt[e].caller == e && Registered(x, x.byExt[e]))
  }

  /** Registering never takes the dialog ID of a call that the caller index shows for another extension. */
  predicate TakesNoEntry(x: Index, c: Call) {
    c.dialog.Some? && c.dialog.value in x.byDialog ==>
      var was := x.byDialog[c.dialog.value];
      was == c || was.caller == c.caller || was.caller !in x.byExt || x.byExt[was.caller] != was
  }

  /** The index stays sound exactly when a new call takes over no entry that still stands for an old one. */
  lemma RegisterKeepsInv(x: Index, c: Call)
    requires Inv(x)
    ensures Inv(Exec(x, Register(c))) <==> TakesNoEntry(x, c)
  {
    var y := Exec(x, Register(c));
    if c.dialog.Some? {
      assert forall e :: e in x.byExt && e != c.caller ==> e in y.byExt && y.byExt[e] == x.byExt[e];
      if !TakesNoEntry(x, c) {
        var was := x.byDialog[c.dialog.value];
        assert was.caller in y.byExt && y.byExt[was.caller] == was && !Registered(y, was);
      }
    }
  }

  lemma UnregisterKeepsInv(x: Index, id: string)
    requires Inv(x)
    ensures Inv(Exec(x, Unregister(id)))
    ensures forall c :: Registered(Exec(x, Unregister(id)), c) <==> Registered(x, c) && c.dialog != Some(id)
  {}

  /** Calls stand under their own dialog IDs, fresh or not. */
  lemma {:induction false} KeysFitRun(events: seq<Event>)
    ensures KeysFit(Run(events))
    decreases |events|
  {
    if events != [] { KeysFitRun(events[..|events| - 1]); }
  }

  /** Dialog IDs are fresh: no live call has the one a new call brings. */
  ghost predicate FreshDialogs(events: seq<Event>)
    decreases |events|
  {
    events == [] ||
    var front, last := events[..|events| - 1], events[|events| - 1];
    FreshDialogs(front) && (last.Register? && last.call.dialog.Some? ==> last.call.dialog.value !in Run(front).byDialog)
  }

  lemma {:induction false} InvRun(events: seq<Event>)
    requires FreshDialogs(events)
    ensures Inv(Run(events))
    decreases |events|
  {
    if events != [] {
      var front, last := events[..|events| - 1], events[|events| - 1];
      InvRun(front);
      if last.Register? {
        RegisterKeepsInv(Run(front), last.call);
      } else {
        UnregisterKeepsInv(Run(front), last.dialog);
      }
    }
  }

  /** The latest call that `ext` made. */
  function LastBy(events: seq<Event>, ext: string): Option<Call> {
    if events == [] then None
    else var last := events[|events| - 1];
         if last.Register? && last.call.dialog.Some? && last.call.caller == ext then Some(last.call)
         else LastBy(events[..|events| - 1], ext)
  }

  lemma CallerEntryStep(x: Index, e: Event, ext: string)
    requires Inv(x) && ext != ""
    requires e.Register? && e.call.dialog.Some? ==> e.call.dialog.value !in x.byDialog
    ensures var y := Exec(x, e);
            if e.Register? && e.call.dialog.Some? && e.call.caller == ext
            then ext in y.byExt && y.byExt[ext] == e.call && Registered(y, e.call)
            else && (ext in y.byExt <==> ext in x.byExt && Registered(y, x.byExt[ext]))
                 && (ext in y.byExt ==> y.byExt[ext] == x.byExt[ext])
                 && (forall c: Call :: c.caller == ext && Registered(y, c) ==> Registered(x, c))
  {}

  /** The caller index holds an extension's latest call, for as long as that call is registered, and nothing else. */
  lemma {:induction false} CallerIndexIsLatest(events: seq<Event>, ext: string)
    requires FreshDialogs(events) && ext != ""
    ensures var x := Run(events);
            var latest := LastBy(events, ext);
            && (ext in x.byExt <==> latest.Some? && Registered(x, latest.value))
            && (ext in x.byExt ==> Some(x.byExt[ext]) == latest)
            && (latest.Some? ==> latest.value.caller == ext)
    decreases |events|
  {
    if events != [] {
      var front, last := events[..|events| - 1], events[|events| - 1];
      CallerIndexIsLatest(front, ext);
      InvRun(front);
      CallerEntryStep(Run(front), last, ext);
    }
  }

  // ---- Finding a call by extension

  /** What FindByExtension may answer; among several calls to the same callee it may pick any. */
  predicate Answers(x: Index, ext: string, found: Option<Call>) {
    if ext in x.byExt then found == Some(x.byExt[ext])
    else match found
         case Some(c) => Registered(x, c) && c.callee == ext
         case None => forall id :: id in x.byDialog ==> x.byDialog[id].callee != ext
  }

  /** It answers only with registered calls that name the extension; it answers whenever a registered call is to the
      extension; and it misses a caller exactly when the caller's latest call is gone and no other is to it. */
  lemma {:induction false} FindIsSound(events: seq<Event>, ext: string, found: Option<Call>)
    requires FreshDialogs(events) && Answers(Run(events), ext, found)
    ensures found.Some? ==> Registered(Run(events), found.value) && ext in {found.value.caller, found.value.callee}
    ensures (exists c :: Registered(Run(events), c) && c.callee == ext) ==> found.Some?
    ensures found == None && ext != "" <==>
            && ext != ""
            && !(LastBy(events, ext).Some? && Registered(Run(events), LastBy(events, ext).value))
            && !(exists c :: Registered(Run(events), c) && c.callee == ext)
  {
    InvRun(events);
    if ext != "" { CallerIndexIsLatest(events, ext); }
    var x := Run(events);
    if ext !in x.byExt && found.None? {
      forall c | Registered(x, c) ensures c.callee != ext {}
    }
  }

  /** A caller with two calls is lost when the later one ends first. */
  lemma EarlierCallCanBeMissed(found: Option<Call>)
    ensures var first, second := Call(1, Some("a"), "101", "102"), Call(2, Some("b"), "101", "103");
            var events := [Register(first), Register(second), Unregister("b")];
            && FreshDialogs(events) && Registered(Run(events), first)
            && (Answers(Run(events), "101", found) ==> found == None)
  {
    var first, second := Call(1, Some("a"), "101", "102"), Call(2, Some("b"), "101", "103");
    var events := [Register(first), Register(second), Unregister("b")];
    var one, two := [Register(first)], [Register(first), Register(second)];
    assert one[..0] == [] && two[..1] == one && events[..2] == two;
    assert Run(one) == Index(map["a" := first], map["101" := first]) && FreshDialogs(one);
    assert Run(two) == Index(map["a" := first, "b" := second], map["101" := second]) && FreshDialogs(two);
    assert Run(events) == Index(map["a" := first], map[]);
  }

  lemma {:induction false} RunNext(events: seq<Event>, e: Event)
    ensures Run(events + [e]) == Exec(Run(events), e)
  {
    assert (events + [e])[..|events|] == events;
  }

  class Registry {
    var byDialog: map<string, Call>
    var byExt: map<string, Call>

    /** Everything registered and unregistered so far. */
    ghost var events: seq<Event>

    ghost function Contents(): Index reads this { Index(byDialog, byExt) }

    ghost predicate Valid() reads this { Contents() == Run(events) }

    /** The caller index shows each extension's latest call, as long as that call is registered, and no other. */
    ghost predicate ShowsLatest()
      reads this
    {
      forall ext :: ext != "" ==>
        var latest := LastBy(events, ext);
        && (ext in byExt <==> latest.Some? && Registered(Contents(), latest.value))
        && (ext in byExt ==> Some(byExt[ext]) == latest)
    }

    constructor ()
      ensures Valid() && events == []
    {
      byDialog, byExt, events := map[], map[], [];
    }

    ghost method Log(e: Event)
      requires Contents() == Exec(Run(events), e)
      modifies this`events
      ensures Valid() && events == old(events) + [e] && (FreshDialogs(events) ==> ShowsLatest())
    {
      RunNext(events, e);
      events := events + [e];
      if FreshDialogs(events) {
        forall ext | ext != ""
          ensures var latest := LastBy(events, ext);
                  && (ext in byExt <==> latest.Some? && Registered(Contents(), latest.value))
                  && (ext in byExt ==> Some(byExt[ext]) == latest)
        {
          CallerIndexIsLatest(events, ext);
        }
      }
    }

    /** A call with an incoming leg is found by its dialog and is its caller's latest. */
    method Register(c: Call)
      requires Valid()
      modifies this
      ensures Valid() && events == old(events) + [Event.Register(c)] && (FreshDialogs(events) ==> ShowsLatest())
      ensures c.dialog.Some? ==>
                Registered(Contents(), c) && (c.caller != "" ==> c.caller in byExt && byExt[c.caller] == c)
      ensures c.dialog.None? ==> Contents() == old(Contents())
    {
      if c.dialog.Some? {
        byDialog := byDialog[c.dialog.value := c];
        if c.caller != "" { byExt := byExt[c.caller := c]; }
      }
      Log(Event.Register(c));
    }

    /** No call is left under the dialog ID, and no other call goes. */
    method Unregister(id: string)
      requires Valid()
      modifies this
      ensures Valid() && events == old(events) + [Event.Unregister(id)] && (FreshDialogs(events) ==> ShowsLatest())
      ensures forall c :: Registered(Contents(), c) <==> Registered(old(Contents()), c) && c.dialog != Some(id)
    {
      KeysFitRun(events);
      if id in byDialog {
        var c := byDialog[id];
        byDialog := byDialog - {id};
        if c.caller != "" && c.caller in byExt && byExt[c.caller] == c { byExt := byExt - {c.caller}; }
      }
      Log(Event.Unregister(id));
    }

    method FindByExtension(ext: string) returns (found: Option<Call>)
      requires Valid()
      ensures Answers(Contents(), ext, found)
    {
      KeysFitRun(events);
      if ext in byExt { return Some(byExt[ext]); }
      var rest := byDialog.Keys;
      while rest != {}
        invariant rest <= byDialog.Keys
        invariant forall id :: id in byDialog && id !in rest ==> byDialog[id].callee != ext
      {
        var id :| id in rest;
        if byDialog[id].callee == ext { return Some(byDialog[id]); }
        rest := rest - {id};
      }
      return None;
    }
  }
}
