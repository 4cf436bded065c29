/** The park lot: one held call for each slot.  Parking on a taken slot releases the call that was there. */
module ParkLot {
  import opened Wrappers

  /** Which parking this is, and where. */
  datatype Parked = Parked(ticket: nat, slot: string)

  datatype Event = Park(slot: string) | Retrieve(slot: string)

  /** The lot, with the number of calls parked so far and what became of those that left. */
  datatype Lot = Lot(slots: map<string, Parked>, parked: nat, released: seq<nat>, handed: seq<nat>)

  function Exec(l: Lot, e: Event): Lot {
    match e
    case Park(s) =>
      Lot(l.slots[s := Parked(l.parked, s)], l.parked + 1,
          if s in l.slots then l.released + [l.slots[s].ticket] else l.released, l.handed)
    case Retrieve(s) =>
      if s in l.slots then l.(slots := l.slots - {s}, handed := l.handed + [l.slots[s].ticket]) else l
  }

  function Run(events: seq<Event>): Lot {
    if events == [] then Lot(map[], 0, [], []) else Exec(Run(events[..|events| - 1]), events[|events| - 1])
  }

  predicate InLot(l: Lot, ticket: nat) { exists s :: s in l.slots && l.slots[s].ticket == ticket }

  /** In how many places a parked call is: waiting, handed out, released. */
  function Places(l: Lot, ticket: nat): nat {
    (if InLot(l, ticket) then 1 else 0) + multiset(l.handed)[ticket] + multiset(l.released)[ticket]
  }

  ghost predicate Inv(l: Lot) {
    && (forall s :: s in l.slots ==> l.slots[s].slot == s && l.slots[s].ticket < l.parked)
    && (forall s, t :: s in l.slots && t in l.slots && l.slots[s].ticket == l.slots[t].ticket ==> s == t)
    && (forall k: nat :: Places(l, k) == if k < l.parked then 1 else 0)
  }

  lemma LeaveMoves(l: Lot, s: string, k: nat)
    requires Inv(l) && s in l.slots
    ensures InLot(l.(slots := l.slots - {s}), k) <==> InLot(l, k) && k != l.slots[s].ticket
    ensures InLot(l.(slots := l.slots[s := Parked(l.parked, s)]), k) <==>
              (InLot(l, k) && k != l.slots[s].ticket) || k == l.parked
  {
    var without, replaced := l.(slots := l.slots - {s}), l.(slots := l.slots[s := Parked(l.parked, s)]);
    if InLot(l, k) && k != l.slots[s].ticket {
      var t :| t in l.slots && l.slots[t].ticket == k;
      assert t in without.slots && without.slots[t].ticket == k;
      assert t in replaced.slots && replaced.slots[t].ticket == k;
    }
    assert s in replaced.slots && replaced.slots[s].ticket == l.parked;
  }

  lemma ParkFree(l: Lot, s: string, k: nat)
    requires Inv(l) && s !in l.slots
    ensures InLot(l.(slots := l.slots[s := Parked(l.parked, s)]), k) <==> InLot(l, k) || k == l.parked
  {
    var added := l.(slots := l.slots[s := Parked(l.parked, s)]);
    if InLot(l, k) {
      var t :| t in l.slots && l.slots[t].ticket == k;
      assert t in added.slots && added.slots[t].ticket == k;
    }
    assert s in added.slots && added.slots[s].ticket == l.parked;
  }

  lemma StepKeepsInv(l: Lot, e: Event)
    requires Inv(l)
    ensures Inv(Exec(l, e))
  {
    var m := Exec(l, e);
    forall k: nat ensures Places(m, k) == if k < m.parked then 1 else 0 {
      assert Places(l, k) == if k < l.parked then 1 else 0;
      if e.slot in l.slots { LeaveMoves(l, e.slot, k); } else if e.Park? { ParkFree(l, e.slot, k); }
      assert InLot(m, k) == InLot(l.(slots := m.slots), k);
      if e.slot in l.slots { assert InLot(l, l.slots[e.slot].ticket); }
    }
  }

  /** Every parked call is in exactly one place, exactly once: in the lot, handed to one Retrieve, or released. */
  lemma {:induction false} EveryCallIsInOnePlace(events: seq<Event>)
    ensures Inv(Run(events))
    ensures forall k: nat :: k < Run(events).parked <==> Places(Run(events), k) == 1
    decreases |events|
  {
    if events != [] {
      EveryCallIsInOnePlace(events[..|events| - 1]);
      StepKeepsInv(Run(events[..|events| - 1]), events[|events| - 1]);
    } else {
      forall k: nat ensures Places(Run(events), k) == 0 {}
    }
  }

  /** The latest Park or Retrieve on a slot; a call waits there exactly when that was a Park, and it is that Park's. */
  function LatestOn(events: seq<Event>, s: string): Option<nat> {
    if events == [] then None
    else var front, last := events[..|events| - 1], events[|events| - 1];
         if last.slot != s then LatestOn(front, s) else if last.Park? then Some(Run(front).parked) else None
  }

  lemma {:induction false} SlotHoldsLatest(events: seq<Event>, s: string)
    ensures var l := Run(events);
            if s in l.slots then LatestOn(events, s) == Some(l.slots[s].ticket) else LatestOn(events, s) == None
    decreases |events|
  {
    if events != [] { SlotHoldsLatest(events[..|events| - 1], s); }
  }

  lemma {:induction false} RunNext(events: seq<Event>, e: Event)
    ensures Run(events + [e]) == Exec(Run(events), e)
  {
    assert (events + [e])[..|events|] == events;
  }

  class ParkingLot {
    var slots: map<string, Parked>
    ghost var parked: nat
    ghost var released: seq<nat>
    ghost var handed: seq<nat>

    /** Every Park and Retrieve so far. */
    ghost var events: seq<Event>

    ghost function Contents(): Lot reads this { Lot(slots, parked, released, handed) }

    ghost predicate Valid() reads this { Contents() == Run(events) }

    /** No parked call is lost or in two places. */
    ghost predicate EachInOnePlace()
      reads this
    {
      forall k: nat :: k < parked ==> Places(Contents(), k) == 1
    }

    constructor ()
      ensures Valid() && events == []
    {
      slots, parked, released, handed, events := map[], 0, [], [], [];
    }

    ghost method Log(e: Event)
      requires Contents() == Exec(Run(events), e)
      modifies this`events
      ensures Valid() && events == old(events) + [e] && EachInOnePlace()
    {
      RunNext(events, e);
      events := events + [e];
      EveryCallIsInOnePlace(events);
    }

    /** `ticket` names the new parking; the call displaced, if any, is released and the new one waits in the slot. */
    method Park(slot: string, ticket: nat) returns (displaced: Option<Parked>)
      requires Valid() && ticket == parked
      modifies this
      ensures Valid() && events == old(events) + [Event.Park(slot)] && EachInOnePlace()
      ensures displaced == if slot in old(slots) then Some(old(slots[slot])) else None
      ensures displaced.Some? ==> displaced.value.ticket in released
      ensures InLot(Contents(), ticket) && slots == old(slots)[slot := Parked(ticket, slot)] && handed == old(handed)
    {
      displaced := None;
      if slot in slots {
        displaced := Some(slots[slot]);
        released := released + [slots[slot].ticket];
      }
      slots := slots[slot := Parked(ticket, slot)];
      parked := parked + 1;
      Log(Event.Park(slot));
      assert slot in slots && slots[slot].ticket == ticket;
    }

    /** The call in the slot is handed to this caller and never again. */
    method Retrieve(slot: string) returns (call: Option<Parked>)
      requires Valid()
      modifies this
      ensures Valid() && events == old(events) + [Event.Retrieve(slot)] && EachInOnePlace()
      ensures call == if slot in old(slots) then Some(old(slots[slot])) else None
      ensures slots == old(slots) - {slot} && released == old(released)
      ensures call.Some? ==> call.value.ticket !in old(handed) && handed == old(handed) + [call.value.ticket]
    {
      if slot in slots {
        ghost var ticket := slots[slot].ticket;
        EveryCallIsInOnePlace(events);
        assert InLot(Contents(), ticket) && Places(Contents(), ticket) == 1;
        call := Some(slots[slot]);
        handed := handed + [slots[slot].ticket];
        slots := slots - {slot};
      } else {
        call := None;
      }
      Log(Event.Retrieve(slot));
    }
  }
}
