/** Keeping part of a list in order, which the indexes do in place (`list[:0]`). */
module Lists {

  function Filter<T>(s: seq<T>, keep: T -> bool): seq<T> {
    if s == [] then [] else (if keep(s[0]) then [s[0]] else []) + Filter(s[1..], keep)
  }

  predicate Pairwise<T>(s: seq<T>, r: (T, T) -> bool) {
    forall i, j :: 0 <= i < j < |s| ==> r(s[i], s[j])
  }

  lemma {:induction false} FilterMembers<T>(s: seq<T>, keep: T -> bool)
    ensures forall x :: x in Filter(s, keep) <==> x in s && keep(x)
  {
    if s != [] {
      FilterMembers(s[1..], keep);
      assert forall x :: x in s <==> x == s[0] || x in s[1..];
    }
  }

  lemma {:induction false} FilterElement<T>(s: seq<T>, keep: T -> bool, j: nat) returns (i: nat)
    requires j < |Filter(s, keep)|
    ensures i < |s| && Filter(s, keep)[j] == s[i] && keep(s[i])
  {
    if keep(s[0]) && j == 0 {
      i := 0;
    } else {
      i := FilterElement(s[1..], keep, if keep(s[0]) then j - 1 else j);
      i := i + 1;
    }
  }

  lemma {:induction false} FilterPairwise<T>(s: seq<T>, keep: T -> bool, r: (T, T) -> bool)
    requires Pairwise(s, r)
    ensures Pairwise(Filter(s, keep), r)
  {
    if s != [] {
      FilterPairwise(s[1..], keep, r);
      var rest := Filter(s[1..], keep);
      forall j | 0 <= j < |rest| ensures r(s[0], rest[j]) {
        var i := FilterElement(s[1..], keep, j);
        assert s[i + 1] == rest[j];
      }
    }
  }

  lemma {:induction false} FilterAppend<T>(a: seq<T>, b: seq<T>, keep: T -> bool)
    ensures Filter(a + b, keep) == Filter(a, keep) + Filter(b, keep)
  {
    if a == [] {
      assert a + b == b;
    } else {
      var head := if keep(a[0]) then [a[0]] else [];
      assert (a + b)[0] == a[0] && (a + b)[1..] == a[1..] + b;
      FilterAppend(a[1..], b, keep);
      assert head + (Filter(a[1..], keep) + Filter(b, keep)) == (head + Filter(a[1..], keep)) + Filter(b, keep);
    }
  }

  /** Dropping some elements first changes nothing if the second pass drops them anyway. */
  lemma {:induction false} FilterTwice<T>(s: seq<T>, first: T -> bool, second: T -> bool)
    requires forall x :: x in s && second(x) ==> first(x)
    ensures Filter(Filter(s, first), second) == Filter(s, second)
  {
    if s != [] {
      FilterTwice(s[1..], first, second);
      var rest := Filter(s[1..], first);
      if first(s[0]) {
        assert ([s[0]] + rest)[0] == s[0] && ([s[0]] + rest)[1..] == rest;
      } else {
        assert s[0] in s;
        assert [] + rest == rest;
      }
    }
  }

  lemma {:induction false} FilterSame<T>(s: seq<T>, p: T -> bool, q: T -> bool)
    requires forall x :: x in s ==> p(x) == q(x)
    ensures Filter(s, p) == Filter(s, q)
  {
    if s != [] {
      assert s[0] in s;
      FilterSame(s[1..], p, q);
    }
  }

  lemma {:induction false} FilterAll<T>(s: seq<T>, keep: T -> bool)
    requires forall x :: x in s ==> keep(x)
    ensures Filter(s, keep) == s
  {
    if s != [] {
      assert s[0] in s;
      FilterAll(s[1..], keep);
    }
  }

  lemma FilterOne<T>(x: T, keep: T -> bool)
    ensures Filter([x], keep) == if keep(x) then [x] else []
  {
    assert [x][1..] == [];
  }

  /** One more element looked at by a filtering loop. */
  lemma FilterNext<T>(s: seq<T>, i: nat, keep: T -> bool)
    requires i < |s|
    ensures Filter(s[..i + 1], keep) == Filter(s[..i], keep) + if keep(s[i]) then [s[i]] else []
  {
    assert s[..i + 1] == s[..i] + [s[i]];
    FilterAppend(s[..i], [s[i]], keep);
    assert [s[i]][1..] == [];
  }

  /** The first element that fits, replaced. */
  function UpdateFirst<T>(s: seq<T>, fits: T -> bool, f: T -> T): seq<T> {
    if s == [] then [] else if fits(s[0]) then [f(s[0])] + s[1..] else [s[0]] + UpdateFirst(s[1..], fits, f)
  }

  lemma {:induction false} UpdateFirstMember<T>(s: seq<T>, fits: T -> bool, f: T -> T, x: T)
    requires x in UpdateFirst(s, fits, f)
    ensures x in s || exists y :: y in s && x == f(y)
  {
    if !fits(s[0]) && x != s[0] {
      assert x in UpdateFirst(s[1..], fits, f);
      UpdateFirstMember(s[1..], fits, f, x);
    }
  }

  /** The index of the first element that fits, or the length. */
  method FirstWhere<T>(s: seq<T>, fits: T -> bool) returns (i: nat)
    ensures i <= |s| && (i < |s| ==> fits(s[i])) && forall j :: 0 <= j < i ==> !fits(s[j])
  {
    i := 0;
    while i < |s|
      invariant i <= |s| && forall j :: 0 <= j < i ==> !fits(s[j])
    {
      if fits(s[i]) { return; }
      i := i + 1;
    }
  }

  lemma {:induction false} UpdateFirstAt<T>(s: seq<T>, fits: T -> bool, f: T -> T, i: nat)
    requires i <= |s| && forall j :: 0 <= j < i ==> !fits(s[j])
    requires i < |s| ==> fits(s[i])
    ensures UpdateFirst(s, fits, f) == if i < |s| then s[i := f(s[i])] else s
  {
    if 0 < i {
      var rest := s[1..];
      UpdateFirstAt(rest, fits, f, i - 1);
      assert s == [s[0]] + rest;
    }
  }

  lemma Regroup<T>(a: seq<T>, b: seq<T>, c: seq<T>)
    ensures a + (b + c) == (a + b) + c
  {}

  /** Pieces put end to end. */
  function Flatten<T>(chunks: seq<seq<T>>): seq<T> {
    if chunks == [] then [] else Flatten(chunks[..|chunks| - 1]) + chunks[|chunks| - 1]
  }

  lemma {:induction false} FlattenCons<T>(first: seq<T>, chunks: seq<seq<T>>)
    ensures Flatten([first] + chunks) == first + Flatten(chunks)
    decreases |chunks|
  {
    if chunks == [] {
      assert [first] + chunks == [first] && [first][..0] == [];
      assert Flatten([first]) == Flatten([]) + first;
    } else {
      var init, last := chunks[..|chunks| - 1], chunks[|chunks| - 1];
      assert ([first] + chunks)[..|chunks|] == [first] + init;
      FlattenCons(first, init);
      assert (first + Flatten(init)) + last == first + (Flatten(init) + last);
    }
  }

  /** A list taken apart by two opposite tests. */
  lemma {:induction false} FilterParts<T>(s: seq<T>, p: T -> bool, q: T -> bool)
    requires forall x :: x in s ==> p(x) != q(x)
    ensures multiset(Filter(s, p)) + multiset(Filter(s, q)) == multiset(s)
  {
    if s != [] {
      assert s == [s[0]] + s[1..] && s[0] in s;
      FilterParts(s[1..], p, q);
    }
  }
}
