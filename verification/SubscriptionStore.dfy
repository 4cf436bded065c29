/** Presence subscriptions (section 3.1.6 of RFC 3265): an index by dialog key and one list per watched
    extension, against one list of all subscriptions in the order they were last upserted. */
module SubscriptionStore {
  import opened Wrappers
  import opened Lists

  /** A subscription record; `id` is its identity, by which the store compares records. */
  datatype Subscription = Subscription(id: nat, callId: string, fromTag: string, watched: string, expires: int)

  function SubKey(callId: string, fromTag: string): string { callId + "|" + fromTag }

  function Key(s: Subscription): string { SubKey(s.callId, s.fromTag) }

  /** Two dialogs share a key exactly when they are the same, or when one text in between, set off by '|', belongs to
      the call-id of the one and to the tag of the other. */
  lemma SameKeyExactly(a: string, x: string, b: string, y: string)
    ensures SubKey(a, x) == SubKey(b, y) <==>
              || (a == b && x == y)
              || (exists m: string :: a == b + "|" + m && y == m + "|" + x)
              || (exists m: string :: b == a + "|" + m && x == m + "|" + y)
  {
    if |a| == |b| {
      KeyParts(a, x);
      KeyParts(b, y);
    } else if |b| < |a| {
      LongerCallId(a, x, b, y);
    } else {
      LongerCallId(b, y, a, x);
    }
  }

  lemma KeyParts(a: string, x: string)
    ensures var k := SubKey(a, x); |k| == |a| + 1 + |x| && k[..|a|] == a && k[|a|] == '|' && k[|a| + 1..] == x
  {}

  lemma LongerCallId(a: string, x: string, b: string, y: string)
    requires |b| < |a|
    ensures SubKey(a, x) == SubKey(b, y) <==> exists m: string :: a == b + "|" + m && y == m + "|" + x
  {
    KeyParts(a, x);
    KeyParts(b, y);
    var k := SubKey(b, y);
    if SubKey(a, x) == k {
      var m := a[|b| + 1..];
      assert a == k[..|a|] && a[..|b|] == k[..|b|] == b && a[|b|] == k[|b|] == '|';
      assert a == b + "|" + m;
      assert k == b + "|" + (m + "|" + x);
      assert y == m + "|" + x;
    }
    if m: string :| a == b + "|" + m && y == m + "|" + x {
      assert SubKey(a, x) == b + "|" + (m + "|" + x);
    }
  }

  lemma BarOnBothSides(a: string, x: string, b: string, y: string)
    ensures (exists m: string :: a == b + "|" + m && y == m + "|" + x) ==> '|' in a && '|' in y
  {
    if m: string :| a == b + "|" + m && y == m + "|" + x { assert a[|b|] == '|' && y[|m|] == '|'; }
  }

  /** Two dialogs whose call-ids, or else whose tags, hold no '|' share a key exactly when they are the same. */
  lemma PlainKeys(a: string, x: string, b: string, y: string)
    requires ('|' !in a && '|' !in b) || ('|' !in x && '|' !in y)
    ensures SubKey(a, x) == SubKey(b, y) <==> a == b && x == y
  {
    SameKeyExactly(a, x, b, y);
    BarOnBothSides(a, x, b, y);
    BarOnBothSides(b, y, a, x);
  }

  /** Two different dialogs with one key. */
  lemma DialogsCanClash()
    ensures ("a|b", "c") != ("a", "b|c") && SubKey("a|b", "c") == SubKey("a", "b|c")
  {
    SameKeyExactly("a|b", "c", "a", "b|c");
    assert "a|b" == "a" + "|" + "b" && "b|c" == "b" + "|" + "c";
  }

  // ---- The simple view

  function Without(order: seq<Subscription>, key: string): seq<Subscription> {
    Filter(order, (s: Subscription) => Key(s) != key)
  }

  function Upserted(order: seq<Subscription>, sub: Subscription): seq<Subscription> { Without(order, Key(sub)) + [sub] }

  function Unexpired(order: seq<Subscription>, now: int): seq<Subscription> {
    Filter(order, (s: Subscription) => s.expires > now)
  }

  function Watching(order: seq<Subscription>, ext: string): seq<Subscription> {
    Filter(order, (s: Subscription) => s.watched == ext)
  }

  /** The subscriptions to notify about `ext`. */
  function Answer(order: seq<Subscription>, ext: string, now: int): seq<Subscription> {
    Unexpired(Watching(order, ext), now)
  }

  ghost predicate DistinctKeys(order: seq<Subscription>) {
    Pairwise(order, (a: Subscription, b: Subscription) => Key(a) != Key(b))
  }

  lemma WithoutFacts(order: seq<Subscription>, key: string)
    requires DistinctKeys(order)
    ensures DistinctKeys(Without(order, key))
    ensures forall s :: s in Without(order, key) <==> s in order && Key(s) != key
  {
    FilterPairwise(order, (s: Subscription) => Key(s) != key, (a: Subscription, b: Subscription) => Key(a) != Key(b));
    FilterMembers(order, (s: Subscription) => Key(s) != key);
  }

  /** What is left without a key, by the joined text, and by dialog where no '|' confuses them. */
  lemma WithoutExactly(order: seq<Subscription>, callId: string, fromTag: string)
    ensures forall s :: s in Without(order, SubKey(callId, fromTag))
              <==> s in order && s.callId + "|" + s.fromTag != callId + "|" + fromTag
    ensures Plain(order, callId, fromTag) ==>
              forall s :: s in Without(order, SubKey(callId, fromTag))
                <==> s in order && !(s.callId == callId && s.fromTag == fromTag)
  {
    FilterMembers(order, (s: Subscription) => Key(s) != SubKey(callId, fromTag));
    if Plain(order, callId, fromTag) {
      forall s | s in order
        ensures Key(s) == SubKey(callId, fromTag) <==> s.callId == callId && s.fromTag == fromTag
      {
        PlainKeys(s.callId, s.fromTag, callId, fromTag);
      }
    }
  }

  /** No call-id, or else no tag, holds a '|'. */
  predicate Plain(order: seq<Subscription>, callId: string, fromTag: string) {
    || ('|' !in callId && forall s :: s in order ==> '|' !in s.callId)
    || ('|' !in fromTag && forall s :: s in order ==> '|' !in s.fromTag)
  }

  /** Two filters can be applied in either order. */
  lemma {:induction false} FiltersCommute<T>(s: seq<T>, p: T -> bool, q: T -> bool)
    ensures Filter(Filter(s, p), q) == Filter(Filter(s, q), p)
  {
    if s != [] {
      FiltersCommute(s[1..], p, q);
      var sp, sq := Filter(s[1..], p), Filter(s[1..], q);
      FilterAppend(if p(s[0]) then [s[0]] else [], sp, q);
      FilterAppend(if q(s[0]) then [s[0]] else [], sq, p);
      assert [s[0]][1..] == [];
    }
  }

  /** Dropping expired subscriptions changes no answer at or after the time they are dropped. */
  lemma PruneIsInvisible(order: seq<Subscription>, t: int, ext: string, now: int)
    requires t <= now
    ensures Answer(Unexpired(order, t), ext, now) == Answer(order, ext, now)
  {
    FiltersCommute(order, (s: Subscription) => s.expires > t, (s: Subscription) => s.watched == ext);
    FilterTwice(Watching(order, ext), (s: Subscription) => s.expires > t, (s: Subscription) => s.expires > now);
  }

  // ---- Runs

  datatype Op = Upsert(sub: Subscription) | Remove(callId: string, fromTag: string) | Prune(time: int)

  function Apply(order: seq<Subscription>, op: Op): seq<Subscription> {
    match op
    case Upsert(sub) => Upserted(order, sub)
    case Remove(callId, fromTag) => Without(order, SubKey(callId, fromTag))
    case Prune(time) => Unexpired(order, time)
  }

  function Run(order: seq<Subscription>, ops: seq<Op>): seq<Subscription>
    decreases ops
  {
    if ops == [] then order else Run(Apply(order, ops[0]), ops[1..])
  }

  predicate Hits(op: Op, key: string) {
    (op.Upsert? && Key(op.sub) == key) || (op.Remove? && SubKey(op.callId, op.fromTag) == key)
  }

  /** Some later operation replaced or removed the subscription with this key. */
  predicate Superseded(key: string, ops: seq<Op>) { exists i :: 0 <= i < |ops| && Hits(ops[i], key) }

  /** The upserted subscriptions that nothing replaced or removed since, in upsert order. */
  function Current(ops: seq<Op>): seq<Subscription> {
    if ops == [] then []
    else (if ops[0].Upsert? && !Superseded(Key(ops[0].sub), ops[1..]) then [ops[0].sub] else []) + Current(ops[1..])
  }

  predicate PrunedBy(ops: seq<Op>, now: int) { forall i :: 0 <= i < |ops| && ops[i].Prune? ==> ops[i].time <= now }

  function Lasting(order: seq<Subscription>, ops: seq<Op>): seq<Subscription> {
    Filter(order, (s: Subscription) => !Superseded(Key(s), ops))
  }

  lemma SupersededCons(key: string, ops: seq<Op>)
    requires ops != []
    ensures Superseded(key, ops) <==> Hits(ops[0], key) || Superseded(key, ops[1..])
  {}

  lemma {:induction false} FilterBoth<T>(s: seq<T>, p: T -> bool, q: T -> bool, r: T -> bool)
    requires forall x :: x in s ==> (r(x) <==> p(x) && q(x))
    ensures Filter(Filter(s, p), q) == Filter(s, r)
  {
    if s != [] {
      assert s[0] in s;
      FilterBoth(s[1..], p, q, r);
      FilterAppend(if p(s[0]) then [s[0]] else [], Filter(s[1..], p), q);
      assert [s[0]][1..] == [];
    }
  }

  lemma LastingThrough(order: seq<Subscription>, key: string, ops: seq<Op>)
    requires ops != [] && Hits(ops[0], key)
    ensures Lasting(Without(order, key), ops[1..]) == Lasting(order, ops)
  {
    forall s | s in order ensures !Superseded(Key(s), ops) <==> Key(s) != key && !Superseded(Key(s), ops[1..]) {
      SupersededCons(Key(s), ops);
    }
    FilterBoth(order, (s: Subscription) => Key(s) != key, (s: Subscription) => !Superseded(Key(s), ops[1..]),
               (s: Subscription) => !Superseded(Key(s), ops));
  }

  /** Whether a subscription just added lasts depends on what follows. */
  lemma LastingAdded(order: seq<Subscription>, sub: Subscription, rest: seq<Op>)
    ensures Lasting(order + [sub], rest) == Lasting(order, rest) + if Superseded(Key(sub), rest) then [] else [sub]
  {
    FilterAppend(order, [sub], (s: Subscription) => !Superseded(Key(s), rest));
    assert [sub][1..] == [];
  }

  lemma {:induction false} CurrentUpsert(sub: Subscription, ops: seq<Op>)
    requires ops != [] && ops[0] == Upsert(sub)
    ensures Current(ops) == (if Superseded(Key(sub), ops[1..]) then [] else [sub]) + Current(ops[1..])
  {}

  lemma {:induction false} LastingUpsert(order: seq<Subscription>, sub: Subscription, ops: seq<Op>)
    requires ops != [] && ops[0] == Upsert(sub)
    ensures Lasting(Upserted(order, sub), ops[1..]) + Current(ops[1..]) == Lasting(order, ops) + Current(ops)
  {
    LastingThrough(order, Key(sub), ops);
    LastingAdded(Without(order, Key(sub)), sub, ops[1..]);
    CurrentUpsert(sub, ops);
    Regroup(Lasting(order, ops), if Superseded(Key(sub), ops[1..]) then [] else [sub], Current(ops[1..]));
  }

  lemma AnswerAppend(a: seq<Subscription>, b: seq<Subscription>, ext: string, now: int)
    ensures Answer(a + b, ext, now) == Answer(a, ext, now) + Answer(b, ext, now)
  {
    FilterAppend(a, b, (s: Subscription) => s.watched == ext);
    FilterAppend(Watching(a, ext), Watching(b, ext), (s: Subscription) => s.expires > now);
  }

  lemma {:induction false} AnswerOfRun(order: seq<Subscription>, ops: seq<Op>, ext: string, now: int)
    requires PrunedBy(ops, now)
    ensures Answer(Run(order, ops), ext, now) == Answer(Lasting(order, ops) + Current(ops), ext, now)
    decreases ops
  {
    if ops == [] {
      FilterAll(order, (s: Subscription) => !Superseded(Key(s), ops));
      assert order + [] == order;
    } else {
      var next, rest := Apply(order, ops[0]), ops[1..];
      assert PrunedBy(rest, now) by { assert forall i :: 0 <= i < |rest| ==> rest[i] == ops[i + 1]; }
      AnswerOfRun(next, rest, ext, now);
      match ops[0]
      case Upsert(sub) =>
        LastingUpsert(order, sub, ops);
      case Remove(callId, fromTag) =>
        LastingThrough(order, SubKey(callId, fromTag), ops);
        assert [] + Current(rest) == Current(rest);
      case Prune(time) =>
        LastingPrune(order, time, ops, ext, now);
        AnswerAppend(Lasting(next, rest), Current(rest), ext, now);
        AnswerAppend(Lasting(order, ops), Current(rest), ext, now);
        assert [] + Current(rest) == Current(rest);
    }
  }

  lemma LastingPrune(order: seq<Subscription>, time: int, ops: seq<Op>, ext: string, now: int)
    requires ops != [] && ops[0] == Prune(time) && time <= now
    ensures Answer(Lasting(Unexpired(order, time), ops[1..]), ext, now) == Answer(Lasting(order, ops), ext, now)
  {
    forall s | s in order ensures Superseded(Key(s), ops) <==> Superseded(Key(s), ops[1..]) {
      SupersededCons(Key(s), ops);
    }
    FilterSame(order, (s: Subscription) => !Superseded(Key(s), ops),
               (s: Subscription) => !Superseded(Key(s), ops[1..]));
    FiltersCommute(order, (s: Subscription) => s.expires > time, (s: Subscription) => !Superseded(Key(s), ops[1..]));
    PruneIsInvisible(Lasting(order, ops[1..]), time, ext, now);
  }

  /** After any operations, the answer for an extension is exactly its unexpired subscriptions that nothing
      replaced or removed, in upsert order: pruning done up to now cannot be seen. */
  lemma {:induction false} AnswerIsCurrent(ops: seq<Op>, ext: string, now: int)
    requires PrunedBy(ops, now)
    ensures Answer(Run([], ops), ext, now) == Answer(Current(ops), ext, now)
  {
    AnswerOfRun([], ops, ext, now);
    assert [] + Current(ops) == Current(ops);
  }

  // ---- The answer by dialog

  /** The call-id and tag of the dialog an operation names. */
  function Dialog(op: Op): Option<(string, string)> {
    match op
    case Upsert(sub) => Some((sub.callId, sub.fromTag))
    case Remove(callId, fromTag) => Some((callId, fromTag))
    case Prune(_) => None
  }

  predicate Concerns(op: Op, callId: string, fromTag: string) { Dialog(op) == Some((callId, fromTag)) }

  /** An operation on another dialog whose joined text is the same. */
  predicate Clashes(op: Op, callId: string, fromTag: string) {
    && Dialog(op).Some? && !Concerns(op, callId, fromTag)
    && Dialog(op).value.0 + "|" + Dialog(op).value.1 == callId + "|" + fromTag
  }

  predicate Touched(ops: seq<Op>, callId: string, fromTag: string) {
    exists i :: 0 <= i < |ops| && Concerns(ops[i], callId, fromTag)
  }

  predicate Clashing(ops: seq<Op>, callId: string, fromTag: string) {
    exists i :: 0 <= i < |ops| && Clashes(ops[i], callId, fromTag)
  }

  /** The upserted subscriptions whose own dialog was not upserted or removed since, in upsert order. */
  function Latest(ops: seq<Op>): seq<Subscription> {
    if ops == [] then []
    else
      (if ops[0].Upsert? && !Touched(ops[1..], ops[0].sub.callId, ops[0].sub.fromTag) then [ops[0].sub] else [])
      + Latest(ops[1..])
  }

  /** A subscription due to be notified whose key another dialog has taken in the meantime. */
  predicate Lost(op: Op, rest: seq<Op>, ext: string, now: int) {
    && op.Upsert? && op.sub.watched == ext && op.sub.expires > now
    && !Touched(rest, op.sub.callId, op.sub.fromTag) && Clashing(rest, op.sub.callId, op.sub.fromTag)
  }

  predicate AnyLost(ops: seq<Op>, ext: string, now: int) {
    exists i :: 0 <= i < |ops| && Lost(ops[i], ops[i + 1..], ext, now)
  }

  lemma AnyLostCons(ops: seq<Op>, ext: string, now: int)
    requires ops != []
    ensures AnyLost(ops, ext, now) <==> Lost(ops[0], ops[1..], ext, now) || AnyLost(ops[1..], ext, now)
  {
    var rest := ops[1..];
    forall i | 0 <= i < |rest|
      ensures Lost(rest[i], rest[i + 1..], ext, now) <==> Lost(ops[i + 1], ops[i + 1 + 1..], ext, now)
    {
      assert rest[i + 1..] == ops[i + 1 + 1..];
    }
    if i :| 0 <= i < |ops| && Lost(ops[i], ops[i + 1..], ext, now) {
      if i > 0 { assert Lost(rest[i - 1], rest[i - 1 + 1..], ext, now); }
    }
    if AnyLost(rest, ext, now) {
      var i :| 0 <= i < |rest| && Lost(rest[i], rest[i + 1..], ext, now);
      assert Lost(ops[i + 1], ops[i + 1 + 1..], ext, now);
    }
  }

  /** A key is superseded through its own dialog or through one it clashes with. */
  lemma SupersededExactly(ops: seq<Op>, callId: string, fromTag: string)
    ensures Superseded(SubKey(callId, fromTag), ops)
            <==> Touched(ops, callId, fromTag) || Clashing(ops, callId, fromTag)
  {
    forall i | 0 <= i < |ops|
      ensures Hits(ops[i], SubKey(callId, fromTag))
              <==> Concerns(ops[i], callId, fromTag) || Clashes(ops[i], callId, fromTag)
    {}
  }

  lemma AnswerOfOne(s: Subscription, ext: string, now: int)
    ensures Answer([s], ext, now) == if s.watched == ext && s.expires > now then [s] else []
    ensures Answer([], ext, now) == []
  {
    FilterOne(s, (x: Subscription) => x.watched == ext);
    FilterOne(s, (x: Subscription) => x.expires > now);
  }

  lemma {:induction false} AnswerLoses(ops: seq<Op>, ext: string, now: int)
    ensures |Answer(Current(ops), ext, now)| <= |Answer(Latest(ops), ext, now)|
    ensures !AnyLost(ops, ext, now) ==> Answer(Current(ops), ext, now) == Answer(Latest(ops), ext, now)
    ensures AnyLost(ops, ext, now) ==> |Answer(Current(ops), ext, now)| < |Answer(Latest(ops), ext, now)|
  {
    if ops != [] {
      var op, rest := ops[0], ops[1..];
      AnswerLoses(rest, ext, now);
      AnyLostCons(ops, ext, now);
      if op.Upsert? {
        SupersededExactly(rest, op.sub.callId, op.sub.fromTag);
        AnswerOfOne(op.sub, ext, now);
        AnswerAppend(if Superseded(Key(op.sub), rest) then [] else [op.sub], Current(rest), ext, now);
        AnswerAppend(if Touched(rest, op.sub.callId, op.sub.fromTag) then [] else [op.sub], Latest(rest), ext, now);
      } else {
        assert [] + Current(rest) == Current(rest) && [] + Latest(rest) == Latest(rest);
      }
    }
  }

  /** After any operations, the phones to notify are the latest subscription of each dialog, exactly when no other
      dialog with the same joined call-id and tag has taken the place of one of them. */
  lemma {:induction false} AnswerByDialogExactly(ops: seq<Op>, ext: string, now: int)
    requires PrunedBy(ops, now)
    ensures Answer(Run([], ops), ext, now) == Answer(Latest(ops), ext, now) <==> !AnyLost(ops, ext, now)
  {
    AnswerIsCurrent(ops, ext, now);
    AnswerLoses(ops, ext, now);
  }

  /** With no '|' in any call-id, or else in any tag, each dialog's latest subscription is notified, whatever the
      others do. */
  lemma {:induction false} AnswerByDialog(ops: seq<Op>, ext: string, now: int)
    requires PrunedBy(ops, now)
    requires || (forall i :: 0 <= i < |ops| && Dialog(ops[i]).Some? ==> '|' !in Dialog(ops[i]).value.0)
             || (forall i :: 0 <= i < |ops| && Dialog(ops[i]).Some? ==> '|' !in Dialog(ops[i]).value.1)
    ensures Answer(Run([], ops), ext, now) == Answer(Latest(ops), ext, now)
  {
    if i :| 0 <= i < |ops| && Lost(ops[i], ops[i + 1..], ext, now) {
      var rest, sub := ops[i + 1..], ops[i].sub;
      var j :| 0 <= j < |rest| && Clashes(rest[j], sub.callId, sub.fromTag);
      var other := Dialog(rest[j]).value;
      assert rest[j] == ops[i + 1 + j];
      PlainKeys(other.0, other.1, sub.callId, sub.fromTag);
      assert false;
    }
    AnswerByDialogExactly(ops, ext, now);
  }

  const first := Subscription(1, "a|b", "c", "100", 60)
  const second := Subscription(2, "a", "b|c", "101", 60)

  /** A phone watching extension 100 is forgotten when another with the same joined text subscribes to 101. */
  lemma ClashForgets()
    ensures Answer(Run([], [Upsert(first), Upsert(second)]), "100", 0) == []
    ensures Answer(Latest([Upsert(first), Upsert(second)]), "100", 0) == [first]
  {
    var ops, last := [Upsert(first), Upsert(second)], [Upsert(second)];
    assert ops[1..] == last && last[1..] == [];
    DialogsCanClash();
    assert Hits(last[0], Key(first));
    CurrentUpsert(first, ops);
    CurrentUpsert(second, last);
    assert Current(ops) == [second] && Latest(last) == [second] && Latest(ops) == [first] + [second];
    AnswerIsCurrent(ops, "100", 0);
    AnswerOfOne(second, "100", 0);
    AnswerOfOne(first, "100", 0);
    AnswerAppend([first], [second], "100", 0);
  }

  // ---- The two-map store

  function ListFor(byWatched: map<string, seq<Subscription>>, ext: string): seq<Subscription> {
    if ext in byWatched then byWatched[ext] else []
  }

  /** The index holds the subscriptions of the list, each under its own key. */
  ghost predicate IndexFits(byKey: map<string, Subscription>, order: seq<Subscription>) {
    && (forall s :: s in order ==> Key(s) in byKey && byKey[Key(s)] == s)
    && (forall k :: k in byKey ==> byKey[k] in order && Key(byKey[k]) == k)
  }

  /** Each per-watched list is the part of the list for that extension, and none is empty. */
  ghost predicate ListsFit(byWatched: map<string, seq<Subscription>>, order: seq<Subscription>) {
    && (forall w :: ListFor(byWatched, w) == Watching(order, w))
    && (forall w :: w in byWatched ==> byWatched[w] != [])
  }

  ghost predicate Represents(
      byKey: map<string, Subscription>, byWatched: map<string, seq<Subscription>>, order: seq<Subscription>) {
    DistinctKeys(order) && IndexFits(byKey, order) && ListsFit(byWatched, order)
  }

  lemma WatchingFacts(order: seq<Subscription>, ext: string)
    ensures forall s :: s in Watching(order, ext) <==> s in order && s.watched == ext
  {
    FilterMembers(order, (s: Subscription) => s.watched == ext);
  }

  ghost predicate NoDuplicates(list: seq<Subscription>) {
    forall i, j :: 0 <= i < j < |list| ==> list[i] != list[j]
  }

  /** Each per-watched list holds exactly the indexed subscriptions for its extension, once each, and is not empty. */
  lemma ListsMatchIndex(byKey: map<string, Subscription>, byWatched: map<string, seq<Subscription>>,
                        order: seq<Subscription>, ext: string, s: Subscription)
    requires Represents(byKey, byWatched, order)
    ensures (ext in byWatched && s in byWatched[ext]) <==> (Key(s) in byKey && byKey[Key(s)] == s && s.watched == ext)
    ensures ext in byWatched ==> byWatched[ext] != [] && NoDuplicates(byWatched[ext])
  {
    WatchingFacts(order, ext);
    assert ListFor(byWatched, ext) == Watching(order, ext);
    FilterPairwise(order, (x: Subscription) => x.watched == ext,
                   (a: Subscription, b: Subscription) => Key(a) != Key(b));
  }

  lemma WithoutNothing(order: seq<Subscription>, key: string)
    requires forall s :: s in order ==> Key(s) != key
    ensures Without(order, key) == order
  {
    FilterAll(order, (s: Subscription) => Key(s) != key);
  }

  lemma WatchingWithout(order: seq<Subscription>, sub: Subscription, w: string)
    requires DistinctKeys(order) && sub in order
    ensures Watching(Without(order, Key(sub)), w)
            == if w == sub.watched then Filter(Watching(order, w), item => item != sub) else Watching(order, w)
  {
    FiltersCommute(order, (s: Subscription) => Key(s) != Key(sub), (s: Subscription) => s.watched == w);
    WatchingFacts(order, w);
    KeyIsIdentity(order, sub);
    if w == sub.watched {
      forall s | s in Watching(order, w) ensures (Key(s) != Key(sub)) == (s != sub) {}
      FilterSame(Watching(order, w), (s: Subscription) => Key(s) != Key(sub), item => item != sub);
    } else {
      forall s | s in Watching(order, w) ensures Key(s) != Key(sub) { assert s.watched != sub.watched; }
      FilterAll(Watching(order, w), (s: Subscription) => Key(s) != Key(sub));
    }
  }

  lemma KeyIsIdentity(order: seq<Subscription>, sub: Subscription)
    requires DistinctKeys(order) && sub in order
    ensures forall s :: s in order ==> (Key(s) == Key(sub) <==> s == sub)
  {}

  function DropItem(byWatched: map<string, seq<Subscription>>, sub: Subscription): map<string, seq<Subscription>> {
    var out := Filter(ListFor(byWatched, sub.watched), item => item != sub);
    if out == [] then byWatched - {sub.watched} else byWatched[sub.watched := out]
  }

  function AddItem(byWatched: map<string, seq<Subscription>>, sub: Subscription): map<string, seq<Subscription>> {
    byWatched[sub.watched := ListFor(byWatched, sub.watched) + [sub]]
  }

  lemma DropFromLists(byWatched: map<string, seq<Subscription>>, order: seq<Subscription>, sub: Subscription)
    requires DistinctKeys(order) && ListsFit(byWatched, order) && sub in order
    ensures ListsFit(DropItem(byWatched, sub), Without(order, Key(sub)))
  {
    var kept, lists := Without(order, Key(sub)), DropItem(byWatched, sub);
    forall w ensures ListFor(lists, w) == Watching(kept, w) {
      WatchingWithout(order, sub, w);
      assert ListFor(byWatched, w) == Watching(order, w);
    }
  }

  lemma DropFromIndex(byKey: map<string, Subscription>, order: seq<Subscription>, sub: Subscription)
    requires DistinctKeys(order) && IndexFits(byKey, order)
    ensures DistinctKeys(Without(order, Key(sub))) && IndexFits(byKey - {Key(sub)}, Without(order, Key(sub)))
  {
    WithoutFacts(order, Key(sub));
  }

  lemma AddToLists(byWatched: map<string, seq<Subscription>>, order: seq<Subscription>, sub: Subscription)
    requires ListsFit(byWatched, order)
    ensures ListsFit(AddItem(byWatched, sub), order + [sub])
  {
    var lists := AddItem(byWatched, sub);
    forall w ensures ListFor(lists, w) == Watching(order + [sub], w) {
      FilterAppend(order, [sub], (s: Subscription) => s.watched == w);
      assert [sub][1..] == [];
      assert ListFor(byWatched, w) == Watching(order, w);
    }
  }

  lemma AddToIndex(byKey: map<string, Subscription>, order: seq<Subscription>, sub: Subscription)
    requires DistinctKeys(order) && IndexFits(byKey, order) && Key(sub) !in byKey
    ensures DistinctKeys(order + [sub]) && IndexFits(byKey[Key(sub) := sub], order + [sub])
  {}

  lemma StoreRepresents(byKey: map<string, Subscription>, byWatched: map<string, seq<Subscription>>,
                        order: seq<Subscription>, sub: Subscription)
    requires Represents(byKey - {Key(sub)}, byWatched, order)
    ensures Represents(byKey[Key(sub) := sub], AddItem(byWatched, sub), order + [sub])
  {
    AddToLists(byWatched, order, sub);
    AddToIndex(byKey - {Key(sub)}, order, sub);
    assert (byKey - {Key(sub)})[Key(sub) := sub] == byKey[Key(sub) := sub];
  }

  class Store {
    var byKey: map<string, Subscription>
    var byWatched: map<string, seq<Subscription>>
    ghost var order: seq<Subscription>

    ghost predicate Valid()
      reads this
    {
      Represents(byKey, byWatched, order)
    }

    constructor ()
      ensures Valid() && order == []
    {
      byKey, byWatched, order := map[], map[], [];
    }

    method RemoveItem(list: seq<Subscription>, sub: Subscription) returns (out: seq<Subscription>)
      ensures out == Filter(list, item => item != sub)
    {
      out := [];
      for i := 0 to |list|
        invariant out == Filter(list[..i], item => item != sub)
      {
        FilterNext(list, i, item => item != sub);
        if list[i] != sub { out := out + [list[i]]; }
      }
      assert list[..|list|] == list;
    }

    /** Takes `sub` out of its per-watched list; the index is left to the caller. */
    method RemoveLocked(sub: Subscription)
      requires Valid() && sub in order
      modifies this
      ensures byKey == old(byKey) && order == Without(old(order), Key(sub))
      ensures Represents(byKey - {Key(sub)}, byWatched, order)
    {
      DropFromLists(byWatched, order, sub);
      DropFromIndex(byKey, order, sub);
      var list := if sub.watched in byWatched then byWatched[sub.watched] else [];
      var out := RemoveItem(list, sub);
      byWatched := if |out| == 0 then byWatched - {sub.watched} else byWatched[sub.watched := out];
      order := Without(order, Key(sub));
    }

    method Upsert(sub: Subscription)
      requires Valid()
      modifies this
      ensures Valid() && order == Upserted(old(order), sub)
      ensures order != [] && order[|order| - 1] == sub
      ensures forall s :: s in order[..|order| - 1]
                <==> s in old(order) && s.callId + "|" + s.fromTag != sub.callId + "|" + sub.fromTag
      ensures Plain(old(order), sub.callId, sub.fromTag) ==>
                forall s :: s in order[..|order| - 1]
                  <==> s in old(order) && !(s.callId == sub.callId && s.fromTag == sub.fromTag)
    {
      WithoutExactly(order, sub.callId, sub.fromTag);
      var key := SubKey(sub.callId, sub.fromTag);
      if key in byKey {
        RemoveLocked(byKey[key]);
      } else {
        WithoutNothing(order, key);
        assert byKey - {key} == byKey;
      }
      StoreRepresents(byKey, byWatched, order, sub);
      byKey := byKey[key := sub];
      byWatched := byWatched[sub.watched := (if sub.watched in byWatched then byWatched[sub.watched] else []) + [sub]];
      ghost var kept := order;
      order := order + [sub];
      assert order[..|order| - 1] == kept;
    }

    /** Takes one subscription out of both maps. */
    method Drop(key: string)
      requires Valid() && key in byKey
      modifies this
      ensures Valid() && order == Without(old(order), key) && byKey == old(byKey) - {key} && |byKey| == |old(byKey)| - 1
    {
      RemoveLocked(byKey[key]);
      ghost var keys := byKey.Keys;
      byKey := byKey - {key};
      assert byKey.Keys == keys - {key};
    }

    method Remove(callId: string, fromTag: string) returns (removed: Option<Subscription>)
      requires Valid()
      modifies this
      ensures Valid() && order == Without(old(order), SubKey(callId, fromTag))
      ensures removed.Some? <==> SubKey(callId, fromTag) in old(byKey)
      ensures removed.Some? ==> removed.value in old(order) && Key(removed.value) == SubKey(callId, fromTag)
      ensures removed == None ==> order == old(order)
      ensures forall s :: s in order
                <==> s in old(order) && s.callId + "|" + s.fromTag != callId + "|" + fromTag
      ensures Plain(old(order), callId, fromTag) ==>
                && (forall s :: s in order <==> s in old(order) && !(s.callId == callId && s.fromTag == fromTag))
                && (removed.Some? ==> removed.value.callId == callId && removed.value.fromTag == fromTag)
                && (removed == None ==> forall s :: s in old(order) ==> s.callId != callId || s.fromTag != fromTag)
    {
      WithoutExactly(order, callId, fromTag);
      var key := SubKey(callId, fromTag);
      if key !in byKey {
        WithoutNothing(order, key);
        return None;
      }
      var sub := byKey[key];
      Drop(key);
      return Some(sub);
    }

    method ForWatched(ext: string, now: int) returns (out: seq<Subscription>)
      requires Valid()
      ensures out == Answer(order, ext, now)
      ensures forall s :: s in out <==> s in order && s.watched == ext && s.expires > now
    {
      FilterMembers(order, (s: Subscription) => s.watched == ext);
      FilterMembers(Watching(order, ext), (s: Subscription) => s.expires > now);
      var list := if ext in byWatched then byWatched[ext] else [];
      out := [];
      for i := 0 to |list|
        invariant out == Unexpired(list[..i], now)
      {
        FilterNext(list, i, (s: Subscription) => s.expires > now);
        if list[i].expires > now { out := out + [list[i]]; }
      }
      assert list[..|list|] == list;
    }

    /** Drops every expired subscription, visiting the index in any order. */
    method PruneExpired(now: int) returns (removed: nat)
      requires Valid()
      modifies this
      ensures Valid() && order == Unexpired(old(order), now)
      ensures forall s :: s in order <==> s in old(order) && s.expires > now
      ensures removed == |old(byKey)| - |byKey|
    {
      FilterMembers(order, (s: Subscription) => s.expires > now);
      removed := 0;
      ghost var goal, size := Unexpired(order, now), |byKey|;
      var todo := byKey.Keys;
      while todo != {}
        invariant Valid() && todo <= byKey.Keys
        invariant forall k :: k in byKey && k !in todo ==> byKey[k].expires > now
        invariant Unexpired(order, now) == goal
        invariant removed + |byKey| == size
        decreases todo
      {
        var key :| key in todo;
        todo := todo - {key};
        var sub := byKey[key];
        if sub.expires > now {
          continue;
        }
        PruneWithout(order, sub, now);
        Drop(key);
        removed := removed + 1;
      }
      forall s | s in order ensures s.expires > now { assert byKey[Key(s)] == s; }
      FilterAll(order, (s: Subscription) => s.expires > now);
    }
  }

  lemma PruneWithout(order: seq<Subscription>, sub: Subscription, now: int)
    requires DistinctKeys(order) && sub in order && sub.expires <= now
    ensures Unexpired(Without(order, Key(sub)), now) == Unexpired(order, now)
  {
    KeyIsIdentity(order, sub);
    FilterTwice(order, (s: Subscription) => Key(s) != Key(sub), (s: Subscription) => s.expires > now);
  }
}
