/** What requests do to single bindings, field by field and character by character, and what the queries answer. */
module RegistrarEffects {
  import opened Wrappers
  import opened SipText
  import opened Lists
  import opened RegistrarBindings

  // ---- Destinations, character by character

  /** Case folding changes the ASCII capitals, each to the letter 32 places on, and nothing else. */
  lemma LowerExactly(s: string, i: nat)
    requires i < |s|
    ensures |Lower(s)| == |s|
    ensures Lower(s)[i] as int == s[i] as int + if 65 <= s[i] as int <= 90 then 32 else 0
  {}

  lemma {:induction false} ItoaInjective(m: nat, n: nat)
    requires Itoa(m) == Itoa(n)
    ensures m == n
  {
    ItoaDigits(m);
    ItoaDigits(n);
  }

  lemma {:induction false} DestParts(host: string, port: nat)
    requires WellFormedHost(host)
    ensures Lower(host + ":" + Itoa(port)) == Lower(host) + [':'] + Itoa(port) && ':' !in Itoa(port)
  {
    ItoaDigits(port);
    LowerAppend(host + ":", Itoa(port));
    LowerAppend(host, ":");
    assert Lower(Itoa(port)) == Itoa(port) && Lower(":") == [':'];
  }

  /** Two destinations are one exactly when the hosts differ at most in letter case and the ports are equal. */
  lemma {:induction false} SameDestinationExactly(a: string, p: nat, b: string, q: nat)
    requires WellFormedHost(a) && WellFormedHost(b)
    ensures DestinationsMatch(a + ":" + Itoa(p), b + ":" + Itoa(q)) <==> Lower(a) == Lower(b) && p == q
  {
    DestIsNormal(a, p);
    DestIsNormal(b, q);
    DestParts(a, p);
    DestParts(b, q);
    if Lower(a) + [':'] + Itoa(p) == Lower(b) + [':'] + Itoa(q) {
      SplitUnique(Lower(a), Itoa(p), Lower(b), Itoa(q), ':');
      ItoaInjective(p, q);
    }
  }

  lemma {:induction false} DestIsNormal(host: string, port: nat)
    requires WellFormedHost(host)
    ensures NormalizeDest(host + ":" + Itoa(port)) == host + ":" + Itoa(port)
  {
    ItoaDigits(port);
  }

  /** A destination without a port means port 5060. */
  lemma {:induction false} BareHostIsPort5060(host: string, b: string, q: nat)
    requires WellFormedHost(host) && WellFormedHost(b)
    ensures DestinationsMatch(host, b + ":" + Itoa(q)) <==> Lower(host) == Lower(b) && q == 5060
  {
    TrimKeepsHost(host);
    assert ':' !in host;
    assert NormalizeDest(host) == host + ":5060";
    assert Itoa(506) == "506";
    assert Itoa(5060) == "5060";
    assert host + ":5060" == host + ":" + Itoa(5060);
    DestIsNormal(host, 5060);
    SameDestinationExactly(host, 5060, b, q);
  }

  /** A blank destination is reached by no other. */
  lemma {:induction false} BlankDestination(a: string, b: string)
    requires TrimSpace(a) == ""
    ensures DestinationsMatch(a, b) <==> TrimSpace(b) == ""
  {
    assert Lower(NormalizeDest(a)) == "";
    assert |Lower(NormalizeDest(b))| == |NormalizeDest(b)|;
  }

  // ---- Packet sources

  /** Names and numeric addresses can be hosts. */
  lemma UsualHosts(host: string)
    requires host != ""
    requires forall c :: c in host ==> 'a' <= c <= 'z' || 'A' <= c <= 'Z' || '0' <= c <= '9' || c == '.' || c == '-'
    ensures WellFormedHost(host)
  {
    forall i | 0 <= i < |host| ensures HostChar(host[i]) { assert host[i] in host; }
  }

  /** Without a port, or with one that is zero or not a number, the source's port is 5060. */
  lemma SourceWithoutPort(host: string, text: string)
    requires WellFormedHost(host) && forall c :: c in text ==> c != ':' && c != '[' && c != ']'
    requires Atoi(text).None? || Atoi(text) == Some(0)
    ensures ParseHostPort(host) == (host, 5060) && ParseHostPort(host + ":" + text) == (host, 5060)
  {
    TrimKeepsHost(host);
    NoSeparator(host, ':');
    var s := host + [':'] + text;
    LastIndexSplit(host, ':', text);
    assert s[..|host|] == host && s[|host| + 1..] == text && s[0] == host[0] && HostChar(host[0]);
    assert '[' !in s && ']' !in s && ':' !in host;
    assert host + ":" + text == s;
  }

  lemma {:induction false} NoSeparator(s: string, c: char)
    requires c !in s
    ensures LastIndex(s, c) == -1
  {
    if s != [] { NoSeparator(s[..|s| - 1], c); }
  }

  /** The contact is kept when contacts are preserved or the source names no host. */
  lemma {:induction false} RewriteKeeps(c: Contact, source: string, preserve: bool)
    requires preserve || TrimSpace(source) == "" || (exists port: nat :: source == ":" + Itoa(port))
    ensures Rewrite(c, source, preserve) == c
  {
    if TrimSpace(source) == "" {
      BlankHasNoColon(source);
      NoSeparator(source, ':');
    } else if port: nat :| source == ":" + Itoa(port) {
      ItoaDigits(port);
      assert source == [] + [':'] + Itoa(port);
      LastIndexSplit([], ':', Itoa(port));
      assert source[..0] == "" && '[' !in source && ']' !in source;
    }
  }

  lemma {:induction false} BlankHasNoColon(s: string)
    requires TrimSpace(s) == ""
    ensures ':' !in s
    decreases |s|
  {
    if s != [] {
      if IsSpace(s[0]) {
        BlankHasNoColon(s[1..]);
        assert s == [s[0]] + s[1..];
      } else {
        BlankHasNoColon(s[..|s| - 1]);
        assert s == s[..|s| - 1] + [s[|s| - 1]];
      }
    }
  }

  /** Trimming takes the white space at both ends and nothing else. */
  lemma {:induction false} TrimExactly(lead: string, core: string, trail: string)
    requires (forall c :: c in lead ==> IsSpace(c)) && (forall c :: c in trail ==> IsSpace(c))
    requires core == "" || (!IsSpace(core[0]) && !IsSpace(core[|core| - 1]))
    ensures TrimSpace(lead + core + trail) == core
    decreases |lead| + |trail|
  {
    var s := lead + core + trail;
    if lead != "" {
      assert s[0] == lead[0] && s[1..] == lead[1..] + core + trail;
      TrimExactly(lead[1..], core, trail);
    } else if trail != "" {
      assert s[|s| - 1] == trail[|trail| - 1];
      assert s[..|s| - 1] == lead + core + trail[..|trail| - 1];
      if core == "" {
        assert s[0] == trail[0] && s[1..] == trail[1..];
        TrimExactly(trail[1..], core, "");
        assert trail[1..] + core + "" == trail[1..];
      } else {
        assert s[0] == core[0];
        TrimExactly(lead, core, trail[..|trail| - 1]);
      }
    } else {
      assert s == core;
    }
  }

  lemma KeySplit(c: Contact)
    requires WellFormedHost(c.host) && c.port >= 0
    ensures var port := Itoa(if c.port == 0 then 5060 else c.port);
            var dest := Lower(c.host) + [':'] + port;
            ContactKey(c) == Lower(TrimSpace(c.user)) + ['@'] + dest && '@' !in dest && ':' !in port
  {
    TrimKeepsHost(c.host);
    var port := Itoa(if c.port == 0 then 5060 else c.port);
    ItoaDigits(if c.port == 0 then 5060 else c.port);
    var user, host := Lower(TrimSpace(c.user)), Lower(c.host);
    assert user + "@" + host + ":" + port == user + ['@'] + (host + [':'] + port);
    forall i | 0 <= i < |c.host| ensures host[i] != '@' { assert HostChar(c.host[i]); }
  }

  /** Equal keys mean the same user and host, letter case aside, and the same port, which is 5060 if not given. */
  lemma SameKeyExactly(a: Contact, b: Contact)
    requires WellFormedHost(a.host) && WellFormedHost(b.host) && a.port >= 0 && b.port >= 0
    ensures ContactKey(a) == ContactKey(b) <==>
            && Lower(TrimSpace(a.user)) == Lower(TrimSpace(b.user))
            && Lower(a.host) == Lower(b.host)
            && (a.port == b.port || (a.port in {0, 5060} && b.port in {0, 5060}))
  {
    KeySplit(a);
    KeySplit(b);
    var p, q := if a.port == 0 then 5060 else a.port, if b.port == 0 then 5060 else b.port;
    if ContactKey(a) == ContactKey(b) {
      var x, y := Lower(a.host) + [':'] + Itoa(p), Lower(b.host) + [':'] + Itoa(q);
      SplitUnique(Lower(TrimSpace(a.user)), x, Lower(TrimSpace(b.user)), y, '@');
      SplitUnique(Lower(a.host), Itoa(p), Lower(b.host), Itoa(q), ':');
      ItoaInjective(p, q);
    }
  }

  /** A stored contact is recognised exactly when its host and port are those the request is sent from, or those
      the request names once rewritten; an unnamed port stands for 5060 if the users are the same too. */
  lemma {:induction false} MatchesExactly(
      a: Contact, c: Contact, source: string, host: string, port: nat, preserve: bool)
    requires source == "" || (WellFormedHost(host) && port > 0 && source == host + ":" + Itoa(port))
    requires WellFormedHost(a.host) && a.port >= 0
    requires preserve || source == "" ==> WellFormedHost(c.host) && c.port >= 0
    ensures Matches(a, c, source, preserve) <==>
            || (source != "" && Lower(a.host) == Lower(host) && a.port == port)
            || (&& (preserve || source == "") && Lower(a.host) == Lower(c.host)
                && (a.port == c.port || (Lower(TrimSpace(a.user)) == Lower(TrimSpace(c.user))
                                         && a.port in {0, 5060} && c.port in {0, 5060})))
            || (&& !preserve && source != "" && Lower(a.host) == Lower(host) && a.port == 0 && port == 5060
                && Lower(TrimSpace(a.user)) == Lower(TrimSpace(c.user)))
  {
    if source != "" {
      SourceParses(host, port);
      SameDestinationExactly(a.host, a.port, host, port);
    }
    var n := Rewrite(c, source, preserve);
    SameKeyExactly(a, n);
    SameDestinationExactly(a.host, a.port, n.host, n.port);
  }

  // ---- What a refresh does to the list

  /** An OPTIONS with a Contact, or a keepalive that was answered: the first binding recognised lives for its
      granted lifetime from now, or the maximum if it was granted none; the others stay as they were. */
  lemma TouchRenews(list: seq<Binding>, k: nat, c: Contact, source: string, now: int, cfg: Config)
    requires k <= |list| && forall j :: 0 <= j < k ==> !Matches(list[j].contact, c, source, cfg.preserve)
    requires k < |list| ==> Matches(list[k].contact, c, source, cfg.preserve)
    ensures var after := Touch(list, c, source, now, cfg);
            && |after| == |list| && (forall j :: 0 <= j < |list| && j != k ==> after[j] == list[j])
            && (k < |list| ==>
                  && after[k].granted == list[k].granted
                  && after[k].expires == now + (if list[k].granted <= 0 then cfg.maxExpiry else list[k].granted)
                  && after[k].contact
                     == if cfg.preserve || source == "" then list[k].contact else Rewrite(c, source, false))
  {
    TouchAt(list, k, c, source, now, cfg);
  }

  /** An OPTIONS without a Contact: the first binding at the packet source lives for its granted lifetime from
      now, and the others stay as they were. */
  lemma TouchSourceRenews(list: seq<Binding>, k: nat, source: string, now: int, cfg: Config)
    requires k <= |list| && forall j :: 0 <= j < k ==> !DestinationsMatch(Dest(list[j].contact), source)
    requires k < |list| ==> DestinationsMatch(Dest(list[k].contact), source)
    ensures var after := TouchSource(list, source, now, cfg);
            && |after| == |list| && (forall j :: 0 <= j < |list| && j != k ==> after[j] == list[j])
            && (k < |list| ==>
                  && after[k].granted == list[k].granted
                  && after[k].expires == now + (if list[k].granted <= 0 then cfg.maxExpiry else list[k].granted)
                  && after[k].contact == list[k].contact)
  {
    TouchSourceAt(list, k, source, now, cfg);
  }

  /** An OPTIONS with neither Contact nor source: every binding lives for its granted lifetime from now. */
  lemma {:induction false} TouchAllRenews(list: seq<Binding>, now: int, cfg: Config)
    ensures var after := TouchAll(list, now, cfg);
            && |after| == |list|
            && forall k :: 0 <= k < |list| ==>
                 && after[k].granted == list[k].granted
                 && after[k].expires == now + (if list[k].granted <= 0 then cfg.maxExpiry else list[k].granted)
                 && after[k].contact == list[k].contact
  {
    if list != [] {
      TouchAllRenews(list[1..], now, cfg);
    }
  }

  // ---- What the queries say

  /** An extension is live exactly when one of its bindings has not run out, and the first such one is dialled. */
  lemma {:induction false} DialledExactly(list: seq<Binding>, k: nat, now: int)
    requires k <= |list| && forall j :: 0 <= j < k ==> list[j].expires <= now
    requires k < |list| ==> list[k].expires > now
    ensures FirstLive(list, now) == if k < |list| then Some(list[k]) else None
    decreases k
  {
    if 0 < k {
      DialledExactly(list[1..], k - 1, now);
    }
  }

  lemma RegisteredExactly(bs: Bindings, u: string, now: int)
    ensures IsRegistered(bs, u, now) <==> u in bs && exists k :: 0 <= k < |bs[u]| && bs[u][k].expires > now
    ensures u in RegisteredExtensions(bs, now) <==> IsRegistered(bs, u, now)
    ensures forall k :: u in bs && 0 <= k < |bs[u]| && bs[u][k].expires > now
                        && (forall j :: 0 <= j < k ==> bs[u][j].expires <= now)
              ==> DialTarget(bs, u, now) == Some(bs[u][k].contact.host + ":" + Itoa(bs[u][k].contact.port))
  {
    var list := Of(bs, u);
    var i := FirstRunning(list, now);
    DialledExactly(list, i, now);
    QueriesAgree(bs, u, now);
  }

  lemma {:induction false} FirstRunning(list: seq<Binding>, now: int) returns (k: nat)
    ensures k <= |list| && (forall j :: 0 <= j < k ==> list[j].expires <= now) && (k < |list| ==> list[k].expires > now)
  {
    k := 0;
    while k < |list| && list[k].expires <= now
      invariant k <= |list| && forall j :: 0 <= j < k ==> list[j].expires <= now
    {
      k := k + 1;
    }
  }

  lemma RenewedIsReachable(bs: Bindings, u: string, k: nat, later: int)
    requires u in bs && k < |bs[u]| && later < bs[u][k].expires
    ensures IsRegistered(bs, u, later)
  {
    RegisteredExactly(bs, u, later);
  }

  /** Until the lifetime granted to the first binding recognised has passed, the extension is registered. */
  lemma RefreshKeepsReachable(bs: Bindings, user: string, r: Request, c: Contact, source: string, k: nat, now: int,
                              later: int, cfg: Config)
    requires r == Options(user, Some(c), source) || (r == Keepalive(user, c) && source == Dest(c))
    requires k < |Of(bs, user)| && Matches(Of(bs, user)[k].contact, c, source, cfg.preserve)
    requires forall j :: 0 <= j < k ==> !Matches(Of(bs, user)[j].contact, c, source, cfg.preserve)
    requires var g := Of(bs, user)[k].granted; later < now + if g <= 0 then cfg.maxExpiry else g
    ensures IsRegistered(Handle(bs, r, now, cfg), user, later)
  {
    TouchRenews(Of(bs, user), k, c, source, now, cfg);
    RenewedIsReachable(Handle(bs, r, now, cfg), user, k, later);
  }

  /** The same for the first binding at the packet source of an OPTIONS without a Contact. */
  lemma SourceKeepsReachable(bs: Bindings, user: string, source: string, k: nat, now: int, later: int, cfg: Config)
    requires source != "" && k < |Of(bs, user)| && DestinationsMatch(Dest(Of(bs, user)[k].contact), source)
    requires forall j :: 0 <= j < k ==> !DestinationsMatch(Dest(Of(bs, user)[j].contact), source)
    requires var g := Of(bs, user)[k].granted; later < now + if g <= 0 then cfg.maxExpiry else g
    ensures IsRegistered(Handle(bs, Options(user, None, source), now, cfg), user, later)
  {
    TouchSourceRenews(Of(bs, user), k, source, now, cfg);
    RenewedIsReachable(Handle(bs, Options(user, None, source), now, cfg), user, k, later);
  }

  /** The same for any binding when an OPTIONS has neither Contact nor source. */
  lemma AnyKeepsReachable(bs: Bindings, user: string, k: nat, now: int, later: int, cfg: Config)
    requires k < |Of(bs, user)|
    requires var g := Of(bs, user)[k].granted; later < now + if g <= 0 then cfg.maxExpiry else g
    ensures IsRegistered(Handle(bs, Options(user, None, ""), now, cfg), user, later)
  {
    TouchAllRenews(Of(bs, user), now, cfg);
    RenewedIsReachable(Handle(bs, Options(user, None, ""), now, cfg), user, k, later);
  }

  /** An accepted REGISTER makes the extension reachable for as long as it grants. */
  lemma RegisterMakesReachable(bs: Bindings, r: Request, now: int, later: int, cfg: Config)
    requires PositiveExpiries(cfg) && r.Register? && !r.contact.wildcard && r.expiry != 0 && r.expiry >= cfg.minExpiry
    requires later < now + Min(r.expiry, cfg.maxExpiry)
    ensures IsRegistered(Handle(bs, r, now, cfg), r.user, later)
  {
    var after := Handle(bs, r, now, cfg);
    RenewedIsReachable(after, r.user, |after[r.user]| - 1, later);
  }

  /** An accepted REGISTER keeps, in their order, the bindings that neither match the contact nor share its
      destination, and puts the new one after them; other extensions are left alone. */
  lemma RegisterKeepsOthers(bs: Bindings, r: Request, now: int, cfg: Config, x: Binding)
    requires PositiveExpiries(cfg) && r.Register? && !r.contact.wildcard && r.expiry != 0 && r.expiry >= cfg.minExpiry
    ensures var c := Rewrite(r.contact, r.source, cfg.preserve);
            var after := Handle(bs, r, now, cfg);
            && (forall u :: u != r.user ==> Of(after, u) == Of(bs, u))
            && r.user in after && after[r.user] != []
            && var list, last := after[r.user], |after[r.user]| - 1;
               && list[last] == Binding(c, now + Min(r.expiry, cfg.maxExpiry), Min(r.expiry, cfg.maxExpiry))
               && (x in list[..last] <==>
                   && x in Of(bs, r.user) && !Matches(x.contact, c, r.source, cfg.preserve)
                   && !DestinationsMatch(Dest(x.contact), Dest(c)))
               && forall before: (Binding, Binding) -> bool :: Pairwise(Of(bs, r.user), before)
                    ==> Pairwise(list[..last], before)
  {
    var c, e := Rewrite(r.contact, r.source, cfg.preserve), Min(r.expiry, cfg.maxExpiry);
    var b := Binding(c, now + e, e);
    var kept := KeepOthers(Of(bs, r.user), b, r.source, cfg.preserve);
    assert Handle(bs, r, now, cfg) == bs[r.user := kept + [b]];
    assert (kept + [b])[..|kept|] == kept;
    KeepOthersFacts(Of(bs, r.user), b, r.source, cfg.preserve);
    forall before: (Binding, Binding) -> bool | Pairwise(Of(bs, r.user), before)
      ensures Pairwise(kept, before)
    {
      FilterPairwise(Of(bs, r.user), y => !Replaced(y, b, r.source, cfg.preserve), before);
    }
  }

  // ---- Registration

  /** The lifetime granted is the one asked for, cut to the maximum, and too brief a one is refused; a maximum of
      nothing grants the minimum. */
  lemma GrantExactly(expiry: int, cfg: Config)
    ensures Grant(expiry, cfg).None? <==> expiry < cfg.minExpiry
    ensures cfg.minExpiry <= expiry <= cfg.maxExpiry && 0 < expiry ==> Grant(expiry, cfg) == Some(expiry)
    ensures cfg.minExpiry <= expiry && 0 < cfg.maxExpiry < expiry ==> Grant(expiry, cfg) == Some(cfg.maxExpiry)
    ensures cfg.minExpiry <= expiry && (expiry <= 0 || cfg.maxExpiry <= 0) ==> Grant(expiry, cfg) == Some(cfg.minExpiry)
  {}

  /** With bounds of a minute and an hour unless configured, and contacts rewritten, the results on runs apply. */
  lemma ConfiguredExactly(minExpiry: int, maxExpiry: int, preserve: bool)
    ensures var cfg := Configured(minExpiry, maxExpiry, preserve);
            && (cfg.minExpiry == minExpiry || (minExpiry <= 0 && cfg.minExpiry == 60))
            && (cfg.maxExpiry == maxExpiry || (maxExpiry <= 0 && cfg.maxExpiry == 3600))
            && cfg.minExpiry > 0 && cfg.maxExpiry > 0
            && (GoodConfig(cfg) <==> !preserve)
  {}
}
