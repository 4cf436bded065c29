/** The string operations the registrar builds contact keys and destinations with.
    Characters outside ASCII are left alone by `Lower`; whitespace is space, tab, newline and return. */
module SipText {
  import opened Wrappers

  function LowerChar(c: char): char {
    if 'A' <= c <= 'Z' then c - 'A' + 'a' else c
  }

  function Lower(s: string): string {
    seq(|s|, i requires 0 <= i < |s| => LowerChar(s[i]))
  }

  predicate EqualFold(a: string, b: string) { Lower(a) == Lower(b) }

  predicate IsSpace(c: char) { c == ' ' || c == '\t' || c == '\n' || c == '\r' }

  function TrimSpace(s: string): string
    decreases s
  {
    if s == [] then []
    else if IsSpace(s[0]) then TrimSpace(s[1..])
    else if IsSpace(s[|s| - 1]) then TrimSpace(s[..|s| - 1])
    else s
  }

  function Itoa(n: int): string
    decreases n < 0, if n < 0 then -n else n
  {
    if n < 0 then "-" + Itoa(-n)
    else if n < 10 then [DigitChar(n)]
    else Itoa(n / 10) + [DigitChar(n % 10)]
  }

  function DigitChar(d: int): char
    requires 0 <= d < 10
  {
    '0' + d as char
  }

  predicate IsDigit(c: char) { '0' <= c <= '9' }

  function Digits(s: string): Option<nat> {
    if s == [] || !IsDigit(s[|s| - 1]) then None
    else var last := (s[|s| - 1] - '0') as nat;
         if |s| == 1 then Some(last)
         else match Digits(s[..|s| - 1]) { case None => None case Some(n) => Some(10 * n + last) }
  }

  /** Decimal integers with an optional sign. */
  function Atoi(s: string): Option<int> {
    if s != [] && (s[0] == '-' || s[0] == '+') then
      match Digits(s[1..]) { case None => None case Some(n) => Some(if s[0] == '-' then 0 - n as int else n as int) }
    else
      match Digits(s) { case None => None case Some(n) => Some(n) }
  }

  function LastIndex(s: string, c: char): int
    ensures -1 <= LastIndex(s, c) < |s|
  {
    if s == [] then -1 else if s[|s| - 1] == c then |s| - 1 else LastIndex(s[..|s| - 1], c)
  }

  function FirstIndex(s: string, c: char): int
    ensures -1 <= FirstIndex(s, c) < |s|
  {
    if s == [] then -1 else if s[0] == c then 0
    else var i := FirstIndex(s[1..], c); if i < 0 then -1 else i + 1
  }

  datatype HostPort = HostPort(host: string, port: string)

  /** net.SplitHostPort: "host:port" or "[host]:port"; anything else is an error. */
  function SplitHostPort(s: string): Option<HostPort> {
    var i := LastIndex(s, ':');
    if i < 0 then None
    else if s[0] == '[' then
      var e := FirstIndex(s, ']');
      if e < 1 || e + 1 != i || '[' in s[1..] || ']' in s[e + 1..] then None
      else Some(HostPort(s[1..e], s[i + 1..]))
    else if ':' in s[..i] || '[' in s || ']' in s then None
    else Some(HostPort(s[..i], s[i + 1..]))
  }

  // ---- Facts

  lemma LowerAppend(a: string, b: string)
    ensures Lower(a + b) == Lower(a) + Lower(b)
  {}

  lemma {:induction false} ItoaDigits(n: int)
    requires n >= 0
    ensures Itoa(n) != [] && (forall i :: 0 <= i < |Itoa(n)| ==> IsDigit(Itoa(n)[i]))
    ensures Digits(Itoa(n)) == Some(n)
    decreases n
  {
    if n >= 10 {
      ItoaDigits(n / 10);
      assert Itoa(n)[..|Itoa(n)| - 1] == Itoa(n / 10);
    }
  }

  lemma {:induction false} AtoiItoa(n: nat)
    ensures Atoi(Itoa(n)) == Some(n)
  {
    ItoaDigits(n);
    assert IsDigit(Itoa(n)[0]);
  }

  lemma {:induction false} LastIndexSplit(a: string, c: char, b: string)
    requires c !in b
    ensures LastIndex(a + [c] + b, c) == |a|
    decreases |b|
  {
    var s := a + [c] + b;
    if b == [] {
      assert s[|s| - 1] == c;
    } else {
      assert s[|s| - 1] == b[|b| - 1];
      assert s[..|s| - 1] == a + [c] + b[..|b| - 1];
      LastIndexSplit(a, c, b[..|b| - 1]);
    }
  }

  /** Two texts split at the same last separator agree on both sides. */
  lemma SplitUnique(a: string, b: string, a': string, b': string, c: char)
    requires c !in b && c !in b' && a + [c] + b == a' + [c] + b'
    ensures a == a' && b == b'
  {
    LastIndexSplit(a, c, b);
    LastIndexSplit(a', c, b');
    var s := a + [c] + b;
    assert a == s[..|a|] && a' == s[..|a'|] && b == s[|a| + 1..] && b' == s[|a'| + 1..];
  }
}
