/** Slash-separated paths, as the backup archive and the directories it is made from name their files. */
module ArchivePaths {
  import opened SipText

  predicate HasPrefix(s: string, prefix: string) { |prefix| <= |s| && s[..|prefix|] == prefix }

  function TrimPrefix(s: string, prefix: string): string { if HasPrefix(s, prefix) then s[|prefix|..] else s }

  predicate HasSuffix(s: string, suffix: string) { |suffix| <= |s| && s[|s| - |suffix|..] == suffix }

  predicate Contains(s: string, part: string) { exists i :: 0 <= i <= |s| && HasPrefix(s[i..], part) }

  /** The suffix test behind every choice of files. */
  predicate HasExt(name: string, ext: string) { HasSuffix(Lower(name), ext) }

  function Join(dir: string, rel: string): string { dir + "/" + rel }

  predicate Beneath(dir: string, path: string) { HasPrefix(path, dir + "/") }

  function RelTo(dir: string, path: string): string
    requires Beneath(dir, path)
  {
    path[|dir| + 1..]
  }

  function Base(path: string): string { path[LastIndex(path, '/') + 1..] }

  /** A text holds another exactly when it is that one with something before and after it. */
  lemma ContainsExactly(s: string, part: string)
    ensures Contains(s, part) <==> exists a: string, b: string :: s == a + part + b
  {
    if Contains(s, part) {
      var i :| 0 <= i <= |s| && HasPrefix(s[i..], part);
      assert s == s[..i] + part + s[i + |part|..];
    }
    if a: string, b: string :| s == a + part + b {
      assert HasPrefix(s[|a|..], part);
    }
  }

  lemma JoinRel(dir: string, rel: string)
    ensures Beneath(dir, Join(dir, rel)) && RelTo(dir, Join(dir, rel)) == rel
  {}

  lemma RelJoin(dir: string, path: string)
    requires Beneath(dir, path)
    ensures Join(dir, RelTo(dir, path)) == path
  {}

  lemma JoinInjective(dir: string, a: string, b: string)
    requires Join(dir, a) == Join(dir, b)
    ensures a == b
  {
    JoinRel(dir, a);
    JoinRel(dir, b);
  }

  /** An extension is decided by what follows a slash. */
  lemma ExtAfterSlash(x: string, y: string, ext: string)
    requires '/' !in ext
    ensures HasExt(Join(x, y), ext) <==> HasExt(y, ext)
  {
    var all, low := Join(x, y), Lower(y);
    LowerAppend(x + "/", y);
    assert Lower(all) == Lower(x + "/") + low;
    if |ext| <= |y| {
      assert Lower(all)[|all| - |ext|..] == low[|y| - |ext|..];
    } else if |ext| <= |all| {
      var at := |ext| - |y| - 1;
      assert Lower(all)[|all| - |ext|..][at] == Lower(all)[|x|] == '/';
      assert ext[at] in ext;
    }
  }

  lemma ExtOfBase(path: string, ext: string)
    requires '/' !in ext
    ensures HasExt(Base(path), ext) <==> HasExt(path, ext)
  {
    var i := LastIndex(path, '/');
    if i >= 0 {
      LastIndexIs(path, '/');
      assert path == Join(path[..i], Base(path));
      ExtAfterSlash(path[..i], Base(path), ext);
    }
  }

  lemma {:induction false} LastIndexIs(s: string, c: char)
    requires LastIndex(s, c) >= 0
    ensures s[LastIndex(s, c)] == c
  {
    if s[|s| - 1] != c { LastIndexIs(s[..|s| - 1], c); }
  }

  /** Neither directory is the other or lies beneath it. */
  predicate Apart(a: string, b: string) { a != b && !Beneath(a, b) && !Beneath(b, a) }

  lemma NothingBeneathBoth(a: string, b: string, path: string)
    requires Apart(a, b) && Beneath(a, path)
    ensures !Beneath(b, path)
  {
    if Beneath(b, path) { OneHoldsTheOther(a, b, path); }
  }

  lemma OneHoldsTheOther(a: string, b: string, path: string)
    requires Beneath(a, path) && Beneath(b, path)
    ensures !Apart(a, b)
  {
    if |a| < |b| { PrefixOfPrefix(a, b, path); }
    if |b| < |a| { PrefixOfPrefix(b, a, path); }
    assert a == (a + "/")[..|a|] == path[..|a|] && b == (b + "/")[..|b|] == path[..|b|];
  }

  lemma PrefixOfPrefix(a: string, b: string, path: string)
    requires |a| < |b| && Beneath(a, path) && Beneath(b, path)
    ensures Beneath(a, b)
  {}
}
