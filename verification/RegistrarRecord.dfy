/** The registrar's binding table, updated in place; each method has exactly the effect of the
    function that specifies it. */
module RegistrarRecord {
  import opened Wrappers
  import opened Lists
  import opened RegistrarBindings
  import opened RegistrarEffects

  class Registrar {
    const cfg: Config
    var bindings: Bindings

    constructor (minExpiry: int, maxExpiry: int, preserve: bool)
      ensures bindings == map[] && cfg == Configured(minExpiry, maxExpiry, preserve)
    {
      cfg := Config(if minExpiry <= 0 then 60 else minExpiry, if maxExpiry <= 0 then 3600 else maxExpiry, preserve);
      bindings := map[];
    }

    method OtherBindings(list: seq<Binding>, b: Binding, source: string, preserve: bool) returns (out: seq<Binding>)
      ensures out == KeepOthers(list, b, source, preserve)
    {
      out := [];
      for i := 0 to |list|
        invariant out == KeepOthers(list[..i], b, source, preserve)
      {
        FilterNext(list, i, x => !Replaced(x, b, source, preserve));
        if Matches(list[i].contact, b.contact, source, preserve) {
          continue;
        }
        if DestinationsMatch(Dest(list[i].contact), Dest(b.contact)) {
          continue;
        }
        out := out + [list[i]];
      }
      assert list[..|list|] == list;
    }

    method AddBinding(user: string, source: string, b: Binding)
      modifies this
      ensures bindings == old(bindings)[user := KeepOthers(Of(old(bindings), user), b, source, cfg.preserve) + [b]]
    {
      var list := if user in bindings then bindings[user] else [];
      var out := OtherBindings(list, b, source, cfg.preserve);
      bindings := bindings[user := out + [b]];
    }

    method UnmatchedBindings(list: seq<Binding>, c: Contact, source: string, preserve: bool) returns (out: seq<Binding>)
      ensures out == Unmatched(list, c, source, preserve)
    {
      out := [];
      for i := 0 to |list|
        invariant out == Unmatched(list[..i], c, source, preserve)
      {
        FilterNext(list, i, (x: Binding) => !Matches(x.contact, c, source, preserve));
        if !Matches(list[i].contact, c, source, preserve) { out := out + [list[i]]; }
      }
      assert list[..|list|] == list;
    }

    method RemoveBinding(user: string, contact: Contact, source: string)
      modifies this
      ensures bindings == if contact.wildcard then old(bindings) - {user}
                          else Withdraw(old(bindings), user, contact, source, cfg)
    {
      if contact.wildcard {
        bindings := bindings - {user};
        return;
      }
      var list := if user in bindings then bindings[user] else [];
      var out := UnmatchedBindings(list, contact, source, cfg.preserve);
      bindings := if |out| == 0 then bindings - {user} else bindings[user := out];
    }

    method GrantExpiry(requested: int) returns (granted: Option<int>)
      ensures granted == Grant(requested, cfg)
      ensures granted.None? <==> requested < cfg.minExpiry
      ensures granted.Some? && PositiveExpiries(cfg) ==> granted.value == Min(requested, cfg.maxExpiry)
    {
      var expiry := requested;
      if expiry < cfg.minExpiry {
        return None;
      }
      if expiry > cfg.maxExpiry { expiry := cfg.maxExpiry; }
      if expiry <= 0 { expiry := cfg.minExpiry; }
      return Some(expiry);
    }

    method Store(user: string, c: Contact, source: string, e: int, now: int)
      modifies this
      ensures bindings == Accept(old(bindings), user, c, source, e, now, cfg)
    {
      AddBinding(user, source, Binding(c, now + e, e));
    }

    /** The part of REGISTER that follows authorization; false is the "interval too brief" answer. */
    method Register(r: Request, now: int) returns (accepted: bool)
      requires r.Register?
      modifies this
      ensures bindings == HandleRegister(old(bindings), r, now, cfg)
      ensures accepted <==> r.contact.wildcard || r.expiry == 0 || r.expiry >= cfg.minExpiry
    {
      if r.expiry == 0 || r.contact.wildcard {
        RemoveBinding(r.user, r.contact, r.source);
        return true;
      }
      var granted := GrantExpiry(r.expiry);
      if granted.None? {
        return false;
      }
      var stored := Rewrite(r.contact, r.source, cfg.preserve);
      Store(r.user, stored, r.source, granted.value, now);
      return true;
    }

    /** The refreshed binding is the one at `at`; there is none when that is the length. */
    method TouchFirst(list: seq<Binding>, contact: Contact, source: string, now: int)
      returns (out: seq<Binding>, ghost at: nat)
      ensures out == Touch(list, contact, source, now, cfg)
      ensures at <= |list| && forall j :: 0 <= j < at ==> !Matches(list[j].contact, contact, source, cfg.preserve)
      ensures at < |list| ==> Matches(list[at].contact, contact, source, cfg.preserve)
      ensures |out| == |list| && forall j :: 0 <= j < |list| && j != at ==> out[j] == list[j]
      ensures at < |list| ==>
                && out[at].granted == list[at].granted
                && out[at].expires == now + (if list[at].granted <= 0 then cfg.maxExpiry else list[at].granted)
                && out[at].contact
                   == if cfg.preserve || source == "" then list[at].contact else Rewrite(contact, source, false)
    {
      var preserve := cfg.preserve;
      var i := FirstWhere(list, (b: Binding) => Matches(b.contact, contact, source, preserve));
      TouchAt(list, i, contact, source, now, cfg);
      at := i;
      TouchRenews(list, at, contact, source, now, cfg);
      out := if i < |list| then list[i := RefreshFrom(list[i], contact, source, now, cfg)] else list;
    }

    method TouchBinding(user: string, contact: Contact, source: string, now: int) returns (ghost at: nat)
      modifies this
      ensures bindings == if Of(old(bindings), user) == [] then old(bindings)
                          else old(bindings)[user := Touch(Of(old(bindings), user), contact, source, now, cfg)]
      ensures forall u :: u != user ==> Of(bindings, u) == Of(old(bindings), u)
      ensures var list, out := Of(old(bindings), user), Of(bindings, user);
              && at <= |list| == |out| && (forall j :: 0 <= j < |list| && j != at ==> out[j] == list[j])
              && (forall j :: 0 <= j < at ==> !Matches(list[j].contact, contact, source, cfg.preserve))
              && (at < |list| ==>
                    && Matches(list[at].contact, contact, source, cfg.preserve)
                    && out[at].granted == list[at].granted
                    && out[at].expires == now + (if list[at].granted <= 0 then cfg.maxExpiry else list[at].granted))
    {
      var list := if user in bindings then bindings[user] else [];
      if |list| == 0 {
        return 0;
      }
      list, at := TouchFirst(list, contact, source, now);
      bindings := bindings[user := list];
    }

    method TouchFromSource(list: seq<Binding>, source: string, now: int) returns (out: seq<Binding>, ghost at: nat)
      ensures out == TouchSource(list, source, now, cfg)
      ensures at <= |list| && forall j :: 0 <= j < at ==> !DestinationsMatch(Dest(list[j].contact), source)
      ensures at < |list| ==> DestinationsMatch(Dest(list[at].contact), source)
      ensures |out| == |list| && forall j :: 0 <= j < |list| && j != at ==> out[j] == list[j]
      ensures at < |list| ==>
                && out[at].granted == list[at].granted && out[at].contact == list[at].contact
                && out[at].expires == now + (if list[at].granted <= 0 then cfg.maxExpiry else list[at].granted)
    {
      var i := FirstWhere(list, (b: Binding) => IsAt(b, source));
      TouchSourceAt(list, i, source, now, cfg);
      at := i;
      TouchSourceRenews(list, at, source, now, cfg);
      out := if i < |list| then list[i := Extend(list[i], now, cfg)] else list;
    }

    method TouchEach(list: seq<Binding>, now: int) returns (out: seq<Binding>)
      ensures out == TouchAll(list, now, cfg)
      ensures |out| == |list|
      ensures forall k :: 0 <= k < |list| ==>
                && out[k].granted == list[k].granted && out[k].contact == list[k].contact
                && out[k].expires == now + (if list[k].granted <= 0 then cfg.maxExpiry else list[k].granted)
    {
      out := [];
      for i := 0 to |list|
        invariant TouchAll(list, now, cfg) == out + TouchAll(list[i..], now, cfg)
      {
        assert list[i..][1..] == list[i + 1..];
        assert out + ([Extend(list[i], now, cfg)] + TouchAll(list[i + 1..], now, cfg))
            == (out + [Extend(list[i], now, cfg)]) + TouchAll(list[i + 1..], now, cfg);
        out := out + [Extend(list[i], now, cfg)];
      }
      assert out + [] == out;
      TouchAllRenews(list, now, cfg);
    }

    /** An OPTIONS without a Contact: refreshes the binding `at` the packet source, or all when there is none. */
    method TouchBindingBySource(user: string, source: string, now: int) returns (ghost at: nat)
      modifies this
      ensures bindings == Handle(old(bindings), Options(user, None, source), now, cfg)
      ensures forall u :: u != user ==> Of(bindings, u) == Of(old(bindings), u)
      ensures var list, out := Of(old(bindings), user), Of(bindings, user);
              && at <= |list| == |out|
              && (source != "" ==>
                    && (forall j :: 0 <= j < at ==> !DestinationsMatch(Dest(list[j].contact), source))
                    && (at < |list| ==> DestinationsMatch(Dest(list[at].contact), source)))
              && forall k :: 0 <= k < |list| ==>
                   if source == "" || k == at
                   then out[k] == Binding(list[k].contact,
                                          now + (if list[k].granted <= 0 then cfg.maxExpiry else list[k].granted),
                                          list[k].granted)
                   else out[k] == list[k]
    {
      var list := if user in bindings then bindings[user] else [];
      if |list| == 0 {
        return 0;
      }
      if source == "" {
        list := TouchEach(list, now);
        at := 0;
      } else {
        list, at := TouchFromSource(list, source, now);
      }
      bindings := bindings[user := list];
    }

    method LiveBindings(list: seq<Binding>, now: int) returns (out: seq<Binding>)
      ensures out == Live(list, now) && forall b :: b in out <==> b in list && b.expires > now
    {
      out := [];
      for i := 0 to |list|
        invariant out == Live(list[..i], now)
      {
        FilterNext(list, i, x => LiveAt(x, now));
        if LiveAt(list[i], now) { out := out + [list[i]]; }
      }
      FilterMembers(list, x => LiveAt(x, now));
      assert list[..|list|] == list;
    }

    /** Drops expired bindings extension by extension, in any order. */
    method PruneExpired(now: int)
      modifies this
      ensures bindings == Prune(old(bindings), now)
    {
      var todo := bindings.Keys;
      while todo != {}
        invariant todo <= bindings.Keys
        invariant forall u :: u in todo ==> u in old(bindings) && bindings[u] == old(bindings)[u]
        invariant forall u :: u in bindings && u !in todo ==>
                    u in old(bindings) && Live(old(bindings)[u], now) != []
                        && bindings[u] == Live(old(bindings)[u], now)
        invariant forall u :: u in old(bindings) && u !in todo && Live(old(bindings)[u], now) != [] ==> u in bindings
        decreases todo
      {
        var user :| user in todo;
        todo := todo - {user};
        var out := LiveBindings(bindings[user], now);
        bindings := if |out| == 0 then bindings - {user} else bindings[user := out];
      }
    }

    method Lookup(extension: string, now: int) returns (dest: Option<string>)
      ensures dest == DialTarget(bindings, extension, now)
      ensures dest.None? <==> extension !in bindings || forall b :: b in bindings[extension] ==> b.expires <= now
    {
      var list := if extension in bindings then bindings[extension] else [];
      for i := 0 to |list|
        invariant FirstLive(list, now) == FirstLive(list[i..], now)
        invariant forall j :: 0 <= j < i ==> list[j].expires <= now
      {
        if LiveAt(list[i], now) {
          return Some(Dest(list[i].contact));
        }
        assert list[i..][1..] == list[i + 1..];
      }
      return None;
    }
  }
}
