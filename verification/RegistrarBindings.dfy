/** Registration bindings: what REGISTER, un-REGISTER, OPTIONS refresh and expiry collection do to an
    extension's contacts (section 10.3 of RFC 3261), with the contact rewritten to the packet source. */
module RegistrarBindings {
  import opened Wrappers
  import opened SipText
  import opened Lists

  /** A contact address; `wildcard` is the "*" contact. */
  datatype Contact = Contact(user: string, host: string, port: int, wildcard: bool)

  datatype Binding = Binding(contact: Contact, expires: int, granted: int)

  type Bindings = map<string, seq<Binding>>

  datatype Config = Config(minExpiry: int, maxExpiry: int, preserve: bool)

  // ---- Addresses

  function ParseHostPort(source: string): (string, int) {
    if source == "" then ("", 0)
    else match SplitHostPort(source)
         case None => (TrimSpace(source), 5060)
         case Some(hp) =>
           (hp.host, match Atoi(hp.port) { case None => 5060 case Some(p) => if p == 0 then 5060 else p })
  }

  /** Stores the packet source as the place to reach the phone. */
  function Rewrite(c: Contact, source: string, preserve: bool): Contact {
    if preserve || source == "" then c
    else var (host, port) := ParseHostPort(source);
         if host == "" || port == 0 then c else c.(host := host, port := port)
  }

  /** The destination dialled for a contact. */
  function Dest(c: Contact): string { c.host + ":" + Itoa(c.port) }

  function NormalizeDest(dest: string): string {
    var d := TrimSpace(dest);
    if d == "" then "" else if ':' !in d then d + ":5060" else d
  }

  predicate DestinationsMatch(a: string, b: string) { EqualFold(NormalizeDest(a), NormalizeDest(b)) }

  function ContactKey(c: Contact): string {
    Lower(TrimSpace(c.user)) + "@" + Lower(TrimSpace(c.host)) + ":" + Itoa(if c.port == 0 then 5060 else c.port)
  }

  /** Is `incoming`, arriving from `source`, the contact already stored as `stored`? */
  predicate Matches(stored: Contact, incoming: Contact, source: string, preserve: bool) {
    var normalized := Rewrite(incoming, source, preserve);
    || ContactKey(stored) == ContactKey(normalized)
    || (source != "" && DestinationsMatch(Dest(stored), source))
    || DestinationsMatch(Dest(stored), Dest(normalized))
  }

  // ---- Updates of one extension's list

  predicate Replaced(existing: Binding, added: Binding, source: string, preserve: bool) {
    Matches(existing.contact, added.contact, source, preserve)
        || DestinationsMatch(Dest(existing.contact), Dest(added.contact))
  }

  function KeepOthers(list: seq<Binding>, b: Binding, source: string, preserve: bool): seq<Binding> {
    Filter(list, x => !Replaced(x, b, source, preserve))
  }

  function Unmatched(list: seq<Binding>, c: Contact, source: string, preserve: bool): seq<Binding> {
    Filter(list, (x: Binding) => !Matches(x.contact, c, source, preserve))
  }

  predicate LiveAt(b: Binding, now: int) { b.expires > now }

  function Live(list: seq<Binding>, now: int): seq<Binding> {
    Filter(list, x => LiveAt(x, now))
  }

  function Extend(b: Binding, now: int, cfg: Config): Binding {
    b.(expires := now + if b.granted <= 0 then cfg.maxExpiry else b.granted)
  }

  /** The refreshed binding: a new lifetime and, with contact rewriting on, the packet source as its address. */
  function RefreshFrom(b: Binding, c: Contact, source: string, now: int, cfg: Config): Binding {
    var extended := Extend(b, now, cfg);
    if !cfg.preserve && source != "" then extended.(contact := Rewrite(c, source, false)) else extended
  }

  /** Refreshes the first binding matching `c`. */
  function Touch(list: seq<Binding>, c: Contact, source: string, now: int, cfg: Config): seq<Binding> {
    UpdateFirst(list, (b: Binding) => Matches(b.contact, c, source, cfg.preserve),
                (b: Binding) => RefreshFrom(b, c, source, now, cfg))
  }

  lemma TouchAt(list: seq<Binding>, i: nat, c: Contact, source: string, now: int, cfg: Config)
    requires i <= |list| && forall j :: 0 <= j < i ==> !Matches(list[j].contact, c, source, cfg.preserve)
    requires i < |list| ==> Matches(list[i].contact, c, source, cfg.preserve)
    ensures Touch(list, c, source, now, cfg)
            == if i < |list| then list[i := RefreshFrom(list[i], c, source, now, cfg)] else list
  {
    UpdateFirstAt(list, (b: Binding) => Matches(b.contact, c, source, cfg.preserve),
                  (b: Binding) => RefreshFrom(b, c, source, now, cfg), i);
  }

  predicate IsAt(b: Binding, source: string) { DestinationsMatch(Dest(b.contact), source) }

  /** Refreshes the first binding whose destination is the packet source. */
  function TouchSource(list: seq<Binding>, source: string, now: int, cfg: Config): seq<Binding> {
    UpdateFirst(list, (b: Binding) => IsAt(b, source), (b: Binding) => Extend(b, now, cfg))
  }

  lemma TouchSourceAt(list: seq<Binding>, i: nat, source: string, now: int, cfg: Config)
    requires i <= |list| && forall j :: 0 <= j < i ==> !IsAt(list[j], source)
    requires i < |list| ==> IsAt(list[i], source)
    ensures TouchSource(list, source, now, cfg) == if i < |list| then list[i := Extend(list[i], now, cfg)] else list
  {
    UpdateFirstAt(list, (b: Binding) => IsAt(b, source), (b: Binding) => Extend(b, now, cfg), i);
  }

  function TouchAll(list: seq<Binding>, now: int, cfg: Config): seq<Binding> {
    if list == [] then [] else [Extend(list[0], now, cfg)] + TouchAll(list[1..], now, cfg)
  }

  // ---- Requests

  function Of(bs: Bindings, user: string): seq<Binding> { if user in bs then bs[user] else [] }

  /** Stores a list; an empty one removes the extension. */
  function Put(bs: Bindings, user: string, list: seq<Binding>): Bindings {
    if list == [] then bs - {user} else bs[user := list]
  }

  function Prune(bs: Bindings, now: int): Bindings {
    map u | u in bs && Live(bs[u], now) != [] :: Live(bs[u], now)
  }

  /** A request that reached the bindings: an accepted REGISTER, an OPTIONS with or without a Contact, a
      successful keepalive of a stored contact, or a collection of expired bindings. */
  datatype Request =
    | Register(user: string, contact: Contact, source: string, expiry: int)
    | Options(user: string, via: Option<Contact>, source: string)
    | Keepalive(user: string, stored: Contact)
    | Collect

  /** The granted lifetime, or None when the requested one is too brief. */
  function Grant(expiry: int, cfg: Config): Option<int> {
    if expiry < cfg.minExpiry then None
    else var e := if expiry > cfg.maxExpiry then cfg.maxExpiry else expiry;
         Some(if e <= 0 then cfg.minExpiry else e)
  }

  /** Stores the contact `c`, already rewritten, for the granted lifetime `e`. */
  function Accept(bs: Bindings, user: string, c: Contact, source: string, e: int, now: int, cfg: Config): Bindings {
    var b := Binding(c, now + e, e);
    bs[user := KeepOthers(Of(bs, user), b, source, cfg.preserve) + [b]]
  }

  function Withdraw(bs: Bindings, user: string, c: Contact, source: string, cfg: Config): Bindings {
    Put(bs, user, Unmatched(Of(bs, user), c, source, cfg.preserve))
  }

  function HandleRegister(bs: Bindings, r: Request, now: int, cfg: Config): Bindings
    requires r.Register?
  {
    if r.contact.wildcard then bs - {r.user}
    else if r.expiry == 0 then Withdraw(bs, r.user, r.contact, r.source, cfg)
    else match Grant(r.expiry, cfg)
         case None => bs
         case Some(e) => Accept(bs, r.user, Rewrite(r.contact, r.source, cfg.preserve), r.source, e, now, cfg)
  }

  function Handle(bs: Bindings, r: Request, now: int, cfg: Config): Bindings {
    match r
    case Register(_, _, _, _) => HandleRegister(bs, r, now, cfg)
    case Options(user, via, source) =>
      var list := Of(bs, user);
      if list == [] then bs
      else if via.Some? then bs[user := Touch(list, via.value, source, now, cfg)]
      else if source == "" then bs[user := TouchAll(list, now, cfg)]
      else bs[user := TouchSource(list, source, now, cfg)]
    case Keepalive(user, stored) =>
      var list := Of(bs, user);
      if list == [] then bs else bs[user := Touch(list, stored, Dest(stored), now, cfg)]
    case Collect => Prune(bs, now)
  }

  /** A request and the time it is handled. */
  datatype Event = Event(request: Request, time: int)

  function Run(bs: Bindings, events: seq<Event>, cfg: Config): Bindings
    decreases events
  {
    if events == [] then bs else Run(Handle(bs, events[0].request, events[0].time, cfg), events[1..], cfg)
  }

  // ---- Well-formed packet sources

  predicate HostChar(c: char) { !IsSpace(c) && c != ':' && c != '@' && c != '[' && c != ']' }

  predicate WellFormedHost(host: string) { host != "" && forall i :: 0 <= i < |host| ==> HostChar(host[i]) }

  predicate Addressable(c: Contact) { WellFormedHost(c.host) && c.port > 0 }

  /** A packet source "host:port" with a nonzero port. */
  ghost predicate WellFormedSource(source: string) {
    exists host: string, port: nat :: WellFormedHost(host) && port > 0 && source == host + ":" + Itoa(port)
  }

  lemma {:induction false} SourceParses(host: string, port: nat)
    requires WellFormedHost(host) && port > 0
    ensures ParseHostPort(host + ":" + Itoa(port)) == (host, port)
  {
    ItoaDigits(port);
    AtoiItoa(port);
    HostSplits(host, Itoa(port));
  }

  lemma HostSplits(host: string, digits: string)
    requires WellFormedHost(host) && forall i :: 0 <= i < |digits| ==> IsDigit(digits[i])
    ensures SplitHostPort(host + ":" + digits) == Some(HostPort(host, digits))
  {
    var s := host + ":" + digits;
    assert ":" == [':'] && ':' !in digits;
    LastIndexSplit(host, ':', digits);
    assert s[..|host|] == host && s[|host| + 1..] == digits;
    assert s[0] == host[0] && HostChar(host[0]);
    assert '[' !in s && ']' !in s;
  }

  lemma {:induction false} TrimKeepsHost(host: string)
    requires WellFormedHost(host)
    ensures TrimSpace(host) == host
  {}

  lemma DestNormal(c: Contact)
    requires Addressable(c)
    ensures NormalizeDest(Dest(c)) == Dest(c)
  {}

  lemma KeyParts(c: Contact)
    requires Addressable(c)
    ensures ContactKey(c) == Lower(TrimSpace(c.user)) + ['@'] + Lower(Dest(c)) && '@' !in Lower(Dest(c))
  {
    var user, port := Lower(TrimSpace(c.user)), Itoa(c.port);
    TrimKeepsHost(c.host);
    ItoaDigits(c.port);
    LowerAppend(c.host + ":", port);
    LowerAppend(c.host, ":");
    assert Lower(port) == port && Lower(":") == ":";
    assert ContactKey(c) == user + "@" + Lower(c.host) + ":" + port;
    assert user + "@" + Lower(c.host) + ":" + port == user + ['@'] + (Lower(c.host) + ":" + port);
    forall i | 0 <= i < |c.host| ensures Lower(c.host)[i] != '@' { assert HostChar(c.host[i]); }
  }

  /** Equal keys of addressable contacts mean matching destinations, whatever the user parts contain. */
  lemma EqualKeysMatch(a: Contact, b: Contact)
    requires Addressable(a) && Addressable(b) && ContactKey(a) == ContactKey(b)
    ensures DestinationsMatch(Dest(a), Dest(b))
  {
    KeyParts(a);
    KeyParts(b);
    SplitUnique(Lower(TrimSpace(a.user)), Lower(Dest(a)), Lower(TrimSpace(b.user)), Lower(Dest(b)), '@');
    DestNormal(a);
    DestNormal(b);
  }

  lemma RewriteToSource(c: Contact, source: string)
    requires WellFormedSource(source)
    ensures var r := Rewrite(c, source, false); Addressable(r) && Dest(r) == source
  {
    var host: string, port: nat :| WellFormedHost(host) && port > 0 && source == host + ":" + Itoa(port);
    SourceParses(host, port);
  }

  /** A stored contact recognised in a request has the destination the request came from. */
  lemma MatchKeepsDestination(stored: Contact, incoming: Contact, source: string)
    requires Addressable(stored) && WellFormedSource(source) && Matches(stored, incoming, source, false)
    ensures DestinationsMatch(Dest(stored), Dest(Rewrite(incoming, source, false)))
  {
    RewriteToSource(incoming, source);
    var normalized := Rewrite(incoming, source, false);
    if ContactKey(stored) == ContactKey(normalized) { EqualKeysMatch(stored, normalized); }
  }

  // ---- What every request keeps

  predicate Apart(a: Binding, b: Binding) { !DestinationsMatch(Dest(a.contact), Dest(b.contact)) }

  function Min(a: int, b: int): int { if a < b then a else b }

  predicate Lifetime(b: Binding, now: int, cfg: Config) {
    && Min(cfg.minExpiry, cfg.maxExpiry) <= b.granted <= cfg.maxExpiry
    && b.expires <= now + b.granted
  }

  predicate Good(b: Binding, now: int, cfg: Config) { Addressable(b.contact) && Lifetime(b, now, cfg) }

  ghost predicate GoodList(list: seq<Binding>, now: int, cfg: Config) {
    Pairwise(list, Apart) && (forall b :: b in list ==> Good(b, now, cfg))
  }

  ghost predicate GoodBindings(bs: Bindings, now: int, cfg: Config) {
    forall u :: u in bs ==> bs[u] != [] && GoodList(bs[u], now, cfg)
  }

  predicate PositiveExpiries(cfg: Config) { 0 < cfg.minExpiry && 0 < cfg.maxExpiry }

  /** The configured bounds, with a minute and an hour for those not configured. */
  function Configured(minExpiry: int, maxExpiry: int, preserve: bool): (cfg: Config)
    ensures PositiveExpiries(cfg)
  {
    Config(if minExpiry <= 0 then 60 else minExpiry, if maxExpiry <= 0 then 3600 else maxExpiry, preserve)
  }

  predicate GoodConfig(cfg: Config) { PositiveExpiries(cfg) && !cfg.preserve }

  /** A binding given a new lifetime and, up to letter case, the same destination. */
  predicate RefreshedOne(before: Binding, after: Binding, now: int) {
    && DestinationsMatch(Dest(after.contact), Dest(before.contact))
    && Addressable(after.contact)
    && after.granted == before.granted
    && (after.expires == before.expires || after.expires == now + before.granted)
  }

  ghost predicate Refreshed(before: seq<Binding>, after: seq<Binding>, now: int) {
    |after| == |before| && (forall i :: 0 <= i < |before| ==> RefreshedOne(before[i], after[i], now))
  }

  ghost predicate Refreshable(list: seq<Binding>) {
    forall b :: b in list ==> Addressable(b.contact) && b.granted > 0
  }

  lemma RefreshedSame(list: seq<Binding>, now: int)
    requires Refreshable(list)
    ensures Refreshed(list, list, now)
  {}

  lemma RefreshedCons(b: Binding, c: Binding, rest: seq<Binding>, rest': seq<Binding>, now: int)
    requires RefreshedOne(b, c, now) && Refreshed(rest, rest', now)
    ensures Refreshed([b] + rest, [c] + rest', now)
  {}

  lemma TouchOne(b: Binding, c: Contact, source: string, now: int, cfg: Config)
    requires Addressable(b.contact) && b.granted > 0 && WellFormedSource(source) && source != "" && !cfg.preserve
    requires Matches(b.contact, c, source, false)
    ensures RefreshedOne(b, RefreshFrom(b, c, source, now, cfg), now)
  {
    MatchKeepsDestination(b.contact, c, source);
    RewriteToSource(c, source);
  }

  lemma {:induction false} TouchRefreshes(list: seq<Binding>, c: Contact, source: string, now: int, cfg: Config)
    requires !cfg.preserve && WellFormedSource(source) && source != "" && Refreshable(list)
    ensures Refreshed(list, Touch(list, c, source, now, cfg), now)
  {
    if list != [] {
      var b, rest := list[0], list[1..];
      assert b in list && list == [b] + rest;
      if Matches(b.contact, c, source, false) {
        TouchOne(b, c, source, now, cfg);
        RefreshedSame(rest, now);
        RefreshedCons(b, RefreshFrom(b, c, source, now, cfg), rest, rest, now);
      } else {
        TouchRefreshes(rest, c, source, now, cfg);
        RefreshedSame([b], now);
        assert RefreshedOne([b][0], [b][0], now);
        RefreshedCons(b, b, rest, Touch(rest, c, source, now, cfg), now);
      }
    }
  }

  lemma {:induction false} TouchSourceRefreshes(list: seq<Binding>, source: string, now: int, cfg: Config)
    requires Refreshable(list)
    ensures Refreshed(list, TouchSource(list, source, now, cfg), now)
  {
    if list != [] {
      var b, rest := list[0], list[1..];
      assert b in list && list == [b] + rest;
      if IsAt(b, source) {
        RefreshedSame(rest, now);
        RefreshedCons(b, Extend(b, now, cfg), rest, rest, now);
      } else {
        TouchSourceRefreshes(rest, source, now, cfg);
        RefreshedSame([b], now);
        assert RefreshedOne([b][0], [b][0], now);
        RefreshedCons(b, b, rest, TouchSource(rest, source, now, cfg), now);
      }
    }
  }

  lemma {:induction false} TouchAllRefreshes(list: seq<Binding>, now: int, cfg: Config)
    requires Refreshable(list)
    ensures Refreshed(list, TouchAll(list, now, cfg), now)
  {
    if list != [] {
      assert list[0] in list;
      TouchAllRefreshes(list[1..], now, cfg);
    }
  }

  lemma RefreshKeepsGood(before: seq<Binding>, after: seq<Binding>, since: int, now: int, cfg: Config)
    requires GoodList(before, since, cfg) && since <= now && Refreshed(before, after, now)
    ensures GoodList(after, now, cfg)
  {
    forall i, j | 0 <= i < j < |after| ensures Apart(after[i], after[j]) {
      assert Apart(before[i], before[j]) && RefreshedOne(before[i], after[i], now)
             && RefreshedOne(before[j], after[j], now);
    }
    forall b | b in after ensures Good(b, now, cfg) {
      var i :| 0 <= i < |after| && after[i] == b;
      assert before[i] in before && Good(before[i], since, cfg) && RefreshedOne(before[i], after[i], now);
    }
  }

  lemma {:induction false} FilterKeepsGood(list: seq<Binding>, keep: Binding -> bool, since: int, now: int, cfg: Config)
    requires GoodList(list, since, cfg) && since <= now
    ensures GoodList(Filter(list, keep), now, cfg)
  {
    FilterPairwise(list, keep, Apart);
    FilterMembers(list, keep);
    forall b | b in Filter(list, keep) ensures Good(b, now, cfg) { assert Good(b, since, cfg); }
  }

  lemma KeepOthersFacts(list: seq<Binding>, b: Binding, source: string, preserve: bool)
    ensures forall x :: x in KeepOthers(list, b, source, preserve)
              <==> x in list && !Matches(x.contact, b.contact, source, preserve) && Apart(x, b)
  {
    FilterMembers(list, x => !Replaced(x, b, source, preserve));
  }

  lemma AcceptKeepsGood(bs: Bindings, user: string, c: Contact, source: string, e: int, now: int, cfg: Config)
    requires GoodBindings(bs, now, cfg) && Good(Binding(c, now + e, e), now, cfg)
    ensures GoodBindings(Accept(bs, user, c, source, e, now, cfg), now, cfg)
  {
    var list, b := Of(bs, user), Binding(c, now + e, e);
    FilterKeepsGood(list, x => !Replaced(x, b, source, cfg.preserve), now, now, cfg);
    KeepOthersFacts(list, b, source, cfg.preserve);
    var kept := KeepOthers(list, b, source, cfg.preserve);
    forall i | 0 <= i < |kept| ensures Apart(kept[i], b) { assert kept[i] in kept; }
  }

  lemma WithdrawKeepsGood(bs: Bindings, user: string, c: Contact, source: string, now: int, cfg: Config)
    requires GoodBindings(bs, now, cfg)
    ensures GoodBindings(Withdraw(bs, user, c, source, cfg), now, cfg)
  {
    FilterKeepsGood(Of(bs, user), (x: Binding) => !Matches(x.contact, c, source, cfg.preserve), now, now, cfg);
  }

  /** A request as the network delivers it. */
  ghost predicate WellFormed(r: Request) {
    match r
    case Register(_, _, source, _) => WellFormedSource(source)
    case Options(_, _, source) => WellFormedSource(source)
    case Keepalive(_, stored) => Addressable(stored)
    case Collect => true
  }

  /** Time does not run backwards. */
  ghost predicate InTime(events: seq<Event>, now: int)
    decreases events
  {
    events == [] || (now <= events[0].time && InTime(events[1..], events[0].time))
  }

  ghost predicate AllWellFormed(events: seq<Event>) { forall e :: e in events ==> WellFormed(e.request) }

  function Clock(events: seq<Event>, now: int): int { if events == [] then now else events[|events| - 1].time }

  lemma StoredSource(c: Contact)
    requires Addressable(c)
    ensures WellFormedSource(Dest(c))
  {}

  lemma TimePasses(bs: Bindings, since: int, now: int, cfg: Config)
    requires GoodBindings(bs, since, cfg) && since <= now
    ensures GoodBindings(bs, now, cfg)
  {}

  lemma GrantBounds(expiry: int, cfg: Config)
    requires PositiveExpiries(cfg) && Grant(expiry, cfg).Some?
    ensures Min(cfg.minExpiry, cfg.maxExpiry) <= Grant(expiry, cfg).value <= cfg.maxExpiry
  {}

  lemma RegisterKeepsGood(bs: Bindings, r: Request, now: int, cfg: Config)
    requires r.Register? && GoodConfig(cfg) && GoodBindings(bs, now, cfg) && WellFormedSource(r.source)
    ensures GoodBindings(HandleRegister(bs, r, now, cfg), now, cfg)
  {
    if r.contact.wildcard {
    } else if r.expiry == 0 {
      WithdrawKeepsGood(bs, r.user, r.contact, r.source, now, cfg);
    } else if Grant(r.expiry, cfg).Some? {
      RewriteToSource(r.contact, r.source);
      GrantBounds(r.expiry, cfg);
      AcceptKeepsGood(bs, r.user, Rewrite(r.contact, r.source, false), r.source, Grant(r.expiry, cfg).value, now, cfg);
    }
  }

  lemma RefreshRequest(bs: Bindings, r: Request, since: int, now: int, cfg: Config)
    requires (r.Options? || r.Keepalive?) && GoodConfig(cfg) && GoodBindings(bs, since, cfg) && WellFormed(r)
    ensures var after := Handle(bs, r, now, cfg);
            && after.Keys == bs.Keys
            && (forall u :: u in bs && u != r.user ==> after[u] == bs[u])
            && (r.user in bs ==> Refreshed(bs[r.user], after[r.user], now))
  {
    if r.user in bs {
      var list := bs[r.user];
      assert Refreshable(list) by {
        forall b | b in list ensures Addressable(b.contact) && b.granted > 0 { assert Good(b, since, cfg); }
      }
      if r.Keepalive? {
        StoredSource(r.stored);
        TouchRefreshes(list, r.stored, Dest(r.stored), now, cfg);
      } else if r.via.Some? {
        TouchRefreshes(list, r.via.value, r.source, now, cfg);
      } else {
        TouchAllRefreshes(list, now, cfg);
        TouchSourceRefreshes(list, r.source, now, cfg);
      }
    }
  }

  lemma HandleKeepsGood(bs: Bindings, r: Request, since: int, now: int, cfg: Config)
    requires GoodConfig(cfg) && GoodBindings(bs, since, cfg) && since <= now && WellFormed(r)
    ensures GoodBindings(Handle(bs, r, now, cfg), now, cfg)
  {
    var after := Handle(bs, r, now, cfg);
    if r.Register? {
      TimePasses(bs, since, now, cfg);
      RegisterKeepsGood(bs, r, now, cfg);
    } else if r.Collect? {
      forall u | u in after ensures GoodList(after[u], now, cfg) {
        FilterKeepsGood(bs[u], x => LiveAt(x, now), since, now, cfg);
      }
    } else {
      RefreshRequest(bs, r, since, now, cfg);
      forall u | u in after ensures after[u] != [] && GoodList(after[u], now, cfg) {
        if u == r.user { RefreshKeepsGood(bs[u], after[u], since, now, cfg); }
        else { FilterKeepsGood(bs[u], x => true, since, now, cfg); FilterAll(bs[u], x => true); }
      }
    }
  }

  lemma {:induction false} GoodRun(bs: Bindings, events: seq<Event>, now: int, cfg: Config)
    requires GoodConfig(cfg) && GoodBindings(bs, now, cfg) && InTime(events, now) && AllWellFormed(events)
    ensures GoodBindings(Run(bs, events, cfg), Clock(events, now), cfg)
    decreases events
  {
    if events != [] {
      HandleKeepsGood(bs, events[0].request, now, events[0].time, cfg);
      GoodRun(Handle(bs, events[0].request, events[0].time, cfg), events[1..], events[0].time, cfg);
    }
  }

  // ---- Main results

  /** With contact rewriting on, no run of requests leaves an extension with two bindings for one destination. */
  lemma {:induction false} DestinationsStayDistinct(
      events: seq<Event>, now: int, cfg: Config, user: string, i: nat, j: nat)
    requires GoodConfig(cfg) && InTime(events, now) && AllWellFormed(events)
    ensures var list := Of(Run(map[], events, cfg), user);
            i < j < |list| ==> !DestinationsMatch(Dest(list[i].contact), Dest(list[j].contact))
  {
    GoodRun(map[], events, now, cfg);
    var list := Of(Run(map[], events, cfg), user);
    if i < j < |list| { assert Apart(list[i], list[j]); }
  }

  /** A refresh changes no destination, adds and removes no binding, and touches no other extension. */
  lemma {:induction false} RefreshKeepsDestinations(
      events: seq<Event>, now: int, cfg: Config, r: Request, time: int, user: string, i: nat)
    requires GoodConfig(cfg) && InTime(events, now) && AllWellFormed(events)
    requires (r.Options? || r.Keepalive?) && WellFormed(r)
    ensures var before := Run(map[], events, cfg);
            var after := Handle(before, r, time, cfg);
            && (user != r.user ==> Of(after, user) == Of(before, user))
            && |Of(after, user)| == |Of(before, user)|
            && (i < |Of(before, user)| ==>
                  DestinationsMatch(Dest(Of(after, user)[i].contact), Dest(Of(before, user)[i].contact)))
  {
    GoodRun(map[], events, now, cfg);
    var before := Run(map[], events, cfg);
    RefreshRequest(before, r, Clock(events, now), time, cfg);
    if user in before && user != r.user && i < |before[user]| {
      assert Handle(before, r, time, cfg)[user] == before[user];
    }
  }

  // ---- Lifetimes, whatever the contacts and sources are

  ghost predicate AllLife(bs: Bindings, now: int, cfg: Config) {
    forall u, b :: u in bs && b in bs[u] ==> Lifetime(b, now, cfg)
  }

  lemma TouchLife(list: seq<Binding>, c: Contact, source: string, since: int, now: int, cfg: Config, x: Binding)
    requires PositiveExpiries(cfg) && since <= now && forall b :: b in list ==> Lifetime(b, since, cfg)
    requires x in Touch(list, c, source, now, cfg)
    ensures Lifetime(x, now, cfg)
  {
    UpdateFirstMember(list, (b: Binding) => Matches(b.contact, c, source, cfg.preserve),
                      (b: Binding) => RefreshFrom(b, c, source, now, cfg), x);
  }

  lemma TouchSourceLife(list: seq<Binding>, source: string, since: int, now: int, cfg: Config, x: Binding)
    requires PositiveExpiries(cfg) && since <= now && forall b :: b in list ==> Lifetime(b, since, cfg)
    requires x in TouchSource(list, source, now, cfg)
    ensures Lifetime(x, now, cfg)
  {
    UpdateFirstMember(list, (b: Binding) => IsAt(b, source), (b: Binding) => Extend(b, now, cfg), x);
  }

  lemma {:induction false} TouchAllLife(list: seq<Binding>, since: int, now: int, cfg: Config, x: Binding)
    requires PositiveExpiries(cfg) && since <= now && forall b :: b in list ==> Lifetime(b, since, cfg)
    requires x in TouchAll(list, now, cfg)
    ensures Lifetime(x, now, cfg)
  {
    assert list[0] in list;
    if x != Extend(list[0], now, cfg) { TouchAllLife(list[1..], since, now, cfg, x); }
  }

  lemma LifeLasts(bs: Bindings, since: int, now: int, cfg: Config)
    requires AllLife(bs, since, cfg) && since <= now
    ensures AllLife(bs, now, cfg)
  {
    forall u, b | u in bs && b in bs[u] ensures Lifetime(b, now, cfg) { assert Lifetime(b, since, cfg); }
  }

  /** A list made of listed bindings and one with a lifetime. */
  lemma LifeOfUpdate(bs: Bindings, after: Bindings, user: string, now: int, cfg: Config)
    requires AllLife(bs, now, cfg) && forall u :: u in after && u != user ==> u in bs && after[u] == bs[u]
    requires user in after ==> forall b :: b in after[user] ==> b in Of(bs, user) || Lifetime(b, now, cfg)
    ensures AllLife(after, now, cfg)
  {
    forall u, b | u in after && b in after[u] ensures Lifetime(b, now, cfg) {
      assert u in bs && b in bs[u] ==> Lifetime(b, now, cfg);
    }
  }

  lemma AcceptLife(bs: Bindings, user: string, c: Contact, source: string, e: int, now: int, cfg: Config)
    requires AllLife(bs, now, cfg) && Min(cfg.minExpiry, cfg.maxExpiry) <= e <= cfg.maxExpiry
    ensures AllLife(Accept(bs, user, c, source, e, now, cfg), now, cfg)
  {
    KeepOthersMembers(Of(bs, user), Binding(c, now + e, e), source, cfg.preserve);
    LifeOfUpdate(bs, Accept(bs, user, c, source, e, now, cfg), user, now, cfg);
  }

  lemma KeepOthersMembers(list: seq<Binding>, b: Binding, source: string, preserve: bool)
    ensures forall x :: x in KeepOthers(list, b, source, preserve) ==> x in list
  {
    FilterMembers(list, x => !Replaced(x, b, source, preserve));
  }

  lemma WithdrawLife(bs: Bindings, user: string, c: Contact, source: string, now: int, cfg: Config)
    requires AllLife(bs, now, cfg)
    ensures AllLife(Withdraw(bs, user, c, source, cfg), now, cfg)
  {
    FilterMembers(Of(bs, user), (x: Binding) => !Matches(x.contact, c, source, cfg.preserve));
    LifeOfUpdate(bs, Withdraw(bs, user, c, source, cfg), user, now, cfg);
  }

  lemma RegisterLife(bs: Bindings, r: Request, now: int, cfg: Config)
    requires r.Register? && PositiveExpiries(cfg) && AllLife(bs, now, cfg)
    ensures AllLife(HandleRegister(bs, r, now, cfg), now, cfg)
  {
    if r.contact.wildcard {
    } else if r.expiry == 0 {
      WithdrawLife(bs, r.user, r.contact, r.source, now, cfg);
    } else if Grant(r.expiry, cfg).Some? {
      GrantBounds(r.expiry, cfg);
      AcceptLife(bs, r.user, Rewrite(r.contact, r.source, cfg.preserve), r.source, Grant(r.expiry, cfg).value, now,
                 cfg);
    }
  }

  lemma RefreshLife(bs: Bindings, r: Request, since: int, now: int, cfg: Config)
    requires (r.Options? || r.Keepalive?) && PositiveExpiries(cfg) && AllLife(bs, since, cfg) && since <= now
    ensures AllLife(Handle(bs, r, now, cfg), now, cfg)
  {
    var after := Handle(bs, r, now, cfg);
    forall u, b | u in after && b in after[u] ensures Lifetime(b, now, cfg) {
      if u == r.user && r.user in bs && bs[u] != [] {
        if r.Keepalive? { TouchLife(bs[u], r.stored, Dest(r.stored), since, now, cfg, b); }
        else if r.via.Some? { TouchLife(bs[u], r.via.value, r.source, since, now, cfg, b); }
        else if r.source == "" { TouchAllLife(bs[u], since, now, cfg, b); }
        else { TouchSourceLife(bs[u], r.source, since, now, cfg, b); }
      } else {
        assert Lifetime(b, since, cfg);
      }
    }
  }

  /** Every request, with whatever contact and from whatever source, keeps lifetimes within their bounds. */
  lemma HandleLife(bs: Bindings, r: Request, since: int, now: int, cfg: Config)
    requires PositiveExpiries(cfg) && AllLife(bs, since, cfg) && since <= now
    ensures AllLife(Handle(bs, r, now, cfg), now, cfg)
  {
    if r.Register? {
      LifeLasts(bs, since, now, cfg);
      RegisterLife(bs, r, now, cfg);
    } else if r.Collect? {
      forall u, b | u in Prune(bs, now) && b in Prune(bs, now)[u] ensures Lifetime(b, now, cfg) {
        FilterMembers(bs[u], x => LiveAt(x, now));
        assert Lifetime(b, since, cfg);
      }
    } else {
      RefreshLife(bs, r, since, now, cfg);
    }
  }

  lemma {:induction false} LifeRun(bs: Bindings, events: seq<Event>, now: int, cfg: Config)
    requires PositiveExpiries(cfg) && AllLife(bs, now, cfg) && InTime(events, now)
    ensures AllLife(Run(bs, events, cfg), Clock(events, now), cfg)
    decreases events
  {
    if events != [] {
      HandleLife(bs, events[0].request, now, events[0].time, cfg);
      LifeRun(Handle(bs, events[0].request, events[0].time, cfg), events[1..], events[0].time, cfg);
    }
  }

  /** Whatever the requests and whether contacts are rewritten or not, every binding's lifetime lies within the
      configured bounds and ends within the maximum from now. */
  lemma {:induction false} LifetimesAreBounded(events: seq<Event>, now: int, cfg: Config, user: string, b: Binding)
    requires PositiveExpiries(cfg) && InTime(events, now) && b in Of(Run(map[], events, cfg), user)
    ensures Min(cfg.minExpiry, cfg.maxExpiry) <= b.granted <= cfg.maxExpiry
    ensures b.expires <= Clock(events, now) + b.granted <= Clock(events, now) + cfg.maxExpiry
  {
    LifeRun(map[], events, now, cfg);
    assert Lifetime(b, Clock(events, now), cfg);
  }

  lemma AcceptReplaces(bs: Bindings, user: string, c: Contact, source: string, e: int, now: int, cfg: Config)
    ensures var list := Of(Accept(bs, user, c, source, e, now, cfg), user);
            && list != [] && list[|list| - 1] == Binding(c, now + e, e)
            && (forall i :: 0 <= i < |list| - 1 ==> Apart(list[i], list[|list| - 1]))
  {
    var b := Binding(c, now + e, e);
    var kept := KeepOthers(Of(bs, user), b, source, cfg.preserve);
    KeepOthersFacts(Of(bs, user), b, source, cfg.preserve);
    forall i | 0 <= i < |kept| ensures Apart(kept[i], b) { assert kept[i] in kept; }
  }

  /** An accepted REGISTER leaves exactly one binding for the packet source, and it is the last one. */
  lemma RegisterReplaces(bs: Bindings, r: Request, now: int, cfg: Config)
    requires r.Register? && !cfg.preserve && WellFormedSource(r.source)
    requires !r.contact.wildcard && r.expiry != 0 && Grant(r.expiry, cfg).Some?
    ensures var list := Of(HandleRegister(bs, r, now, cfg), r.user);
            && list != [] && Dest(list[|list| - 1].contact) == r.source
            && list[|list| - 1].expires == now + Grant(r.expiry, cfg).value
            && (forall i :: 0 <= i < |list| - 1 ==> !DestinationsMatch(Dest(list[i].contact), r.source))
  {
    RewriteToSource(r.contact, r.source);
    var c, e := Rewrite(r.contact, r.source, false), Grant(r.expiry, cfg).value;
    AcceptReplaces(bs, r.user, c, r.source, e, now, cfg);
    var list := Of(Accept(bs, r.user, c, r.source, e, now, cfg), r.user);
    forall i | 0 <= i < |list| - 1 ensures !DestinationsMatch(Dest(list[i].contact), r.source) {
      assert Apart(list[i], list[|list| - 1]);
    }
  }

  /** An un-REGISTER removes every binding that reaches the packet source, and only bindings it matches. */
  lemma UnregisterRemoves(bs: Bindings, r: Request, now: int, cfg: Config, b: Binding)
    requires r.Register? && r.expiry == 0 && !r.contact.wildcard
    ensures b in Of(HandleRegister(bs, r, now, cfg), r.user)
            <==> b in Of(bs, r.user) && !Matches(b.contact, r.contact, r.source, cfg.preserve)
    ensures r.source != "" && DestinationsMatch(Dest(b.contact), r.source)
            ==> b !in Of(HandleRegister(bs, r, now, cfg), r.user)
  {
    FilterMembers(Of(bs, r.user), (x: Binding) => !Matches(x.contact, r.contact, r.source, cfg.preserve));
  }

  // ---- Read queries

  function FirstLive(list: seq<Binding>, now: int): Option<Binding> {
    if list == [] then None else if LiveAt(list[0], now) then Some(list[0]) else FirstLive(list[1..], now)
  }

  /** Where an INVITE to `extension` goes, or None when it has no live binding. */
  function DialTarget(bs: Bindings, extension: string, now: int): Option<string> {
    match FirstLive(Of(bs, extension), now) { case None => None case Some(b) => Some(Dest(b.contact)) }
  }

  predicate IsRegistered(bs: Bindings, extension: string, now: int) { DialTarget(bs, extension, now).Some? }

  function RegisteredExtensions(bs: Bindings, now: int): set<string> {
    set u | u in bs && exists b :: b in bs[u] && LiveAt(b, now)
  }

  function Snapshot(bs: Bindings, now: int): Bindings { Prune(bs, now) }

  predicate SenderAuthorized(bs: Bindings, extension: string, source: string, now: int) {
    extension != "" && source != "" &&
    exists b :: b in Of(bs, extension) && LiveAt(b, now) && DestinationsMatch(Dest(b.contact), source)
  }

  lemma {:induction false} FirstLiveIsFirst(list: seq<Binding>, now: int)
    ensures FirstLive(list, now) == if Live(list, now) == [] then None else Some(Live(list, now)[0])
  {
    if list != [] { FirstLiveIsFirst(list[1..], now); }
  }

  /** The queries agree on which extensions are live, and the dialled binding is the first of the snapshot. */
  lemma QueriesAgree(bs: Bindings, u: string, now: int)
    ensures IsRegistered(bs, u, now) <==> u in RegisteredExtensions(bs, now)
    ensures IsRegistered(bs, u, now) <==> u in Snapshot(bs, now)
    ensures u in Snapshot(bs, now) ==> DialTarget(bs, u, now) == Some(Dest(Snapshot(bs, now)[u][0].contact))
    ensures forall source :: SenderAuthorized(bs, u, source, now) <==>
              u != "" && source != "" &&
              exists b :: b in Of(Snapshot(bs, now), u) && DestinationsMatch(Dest(b.contact), source)
  {
    var list := Of(bs, u);
    FirstLiveIsFirst(list, now);
    FilterMembers(list, x => LiveAt(x, now));
    if Live(list, now) != [] { assert Live(list, now)[0] in Live(list, now); }
    assert Of(Snapshot(bs, now), u) == Live(list, now);
  }

  /** Collecting expired bindings changes no answer at or after the time of the collection. */
  lemma CollectIsInvisible(bs: Bindings, t: int, u: string, source: string, now: int)
    requires t <= now
    ensures var after := Prune(bs, t);
            && DialTarget(after, u, now) == DialTarget(bs, u, now)
            && (u in RegisteredExtensions(after, now) <==> u in RegisteredExtensions(bs, now))
            && Of(Snapshot(after, now), u) == Of(Snapshot(bs, now), u)
            && (SenderAuthorized(after, u, source, now) <==> SenderAuthorized(bs, u, source, now))
  {
    var after := Prune(bs, t);
    assert Of(after, u) == Live(Of(bs, u), t);
    FilterTwice(Of(bs, u), x => LiveAt(x, t), x => LiveAt(x, now));
    assert Live(Of(after, u), now) == Live(Of(bs, u), now);
    assert Of(Snapshot(after, now), u) == Live(Of(after, u), now);
    assert Of(Snapshot(bs, now), u) == Live(Of(bs, u), now);
    FirstLiveIsFirst(Of(bs, u), now);
    FirstLiveIsFirst(Of(after, u), now);
    QueriesAgree(bs, u, now);
    QueriesAgree(after, u, now);
  }
}
