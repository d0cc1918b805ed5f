/** String helpers shared by the store and the client: JavaScript's `trim`,
    ASCII `toLowerCase`, `includes`, code-point ordering of names and the
    decimal rendering of integers used in template strings. */
module Text {

  /** The characters `String.prototype.trim` strips: the ECMAScript
      `WhiteSpace` (tab, vertical tab, form feed, space, no-break space, BOM
      and the space separators) and `LineTerminator` code points. */
  predicate IsSpace(c: char) {
    OneOf(c, SpaceChars)
  }

  /** `c` occurs in `cs`, written recursively so that a proof unfolds the
      table only as far as it needs to. */
  predicate OneOf(c: char, cs: seq<char>) {
    cs != [] && (c == cs[0] || OneOf(c, cs[1..]))
  }

  const SpaceChars: seq<char> := [
    '\t', '\n', '\U{000B}', '\U{000C}', '\r', ' ', '\U{00A0}', '\U{1680}',
    '\U{2000}', '\U{2001}', '\U{2002}', '\U{2003}', '\U{2004}', '\U{2005}', '\U{2006}',
    '\U{2007}', '\U{2008}', '\U{2009}', '\U{200A}', '\U{2028}', '\U{2029}', '\U{202F}',
    '\U{205F}', '\U{3000}', '\U{FEFF}']

  predicate AllSpace(s: string) {
    forall i :: 0 <= i < |s| ==> IsSpace(s[i])
  }

  /** No white space at either end. */
  predicate IsTrimmed(s: string) {
    s == [] || (!IsSpace(s[0]) && !IsSpace(s[|s| - 1]))
  }

  function TrimStart(s: string): (r: string)
    ensures |r| <= |s| && r == s[|s| - |r|..]
    ensures AllSpace(s[..|s| - |r|])
    ensures r == [] || !IsSpace(r[0])
  {
    if s != [] && IsSpace(s[0]) then TrimStart(s[1..]) else s
  }

  function TrimEnd(s: string): (r: string)
    ensures |r| <= |s| && r == s[..|r|]
    ensures AllSpace(s[|r|..])
    ensures r == [] || !IsSpace(r[|r| - 1])
  {
    if s != [] && IsSpace(s[|s| - 1]) then
      var r := TrimEnd(s[..|s| - 1]);
      assert s[|r|..] == s[..|s| - 1][|r|..] + [s[|s| - 1]];
      r
    else s
  }

  /** `r` is the infix of `s` starting at `i`, and everything before and
      after it is white space. */
  predicate SpaceBounded(s: string, r: string, i: int) {
    0 <= i <= |s| - |r| && r == s[i..i + |r|] && AllSpace(s[..i]) && AllSpace(s[i + |r|..])
  }

  /** Trimming the front and then the back leaves no white space at
      either end. */
  lemma TrimmedBothEnds(s: string)
    ensures IsTrimmed(TrimEnd(TrimStart(s)))
  {
    var t := TrimStart(s);
    var r := TrimEnd(t);
    if r != [] {
      assert r[0] == t[0];
    }
  }

  /** Cutting white space off the front of `s`, giving `t`, and then off
      the back of `t`, giving `r`, leaves `r` bounded by white space in `s`. */
  lemma SpaceBoundedInfix(s: string, t: string, r: string)
    requires |t| <= |s| && t == s[|s| - |t|..] && AllSpace(s[..|s| - |t|])
    requires |r| <= |t| && r == t[..|r|] && AllSpace(t[|r|..])
    ensures SpaceBounded(s, r, |s| - |t|)
  {
    var i := |s| - |t|;
    assert r == s[i..i + |r|];
    assert s[i + |r|..] == t[|r|..];
  }

  /** Trimming the front and then the back cuts white space off both ends of
      an infix. */
  lemma TrimBothEnds(s: string)
    ensures SpaceBounded(s, TrimEnd(TrimStart(s)), |s| - |TrimStart(s)|)
  {
    SpaceBoundedInfix(s, TrimStart(s), TrimEnd(TrimStart(s)));
  }

  /** `s.trim()`: the longest infix of `s` that starts and ends with a
      non-space character; everything cut off is white space. */
  function Trim(s: string): (r: string)
    ensures IsTrimmed(r)
  {
    TrimmedBothEnds(s);
    TrimEnd(TrimStart(s))
  }

  /** What `trim` keeps is an infix of its input, and it cuts away nothing
      but white space. */
  lemma TrimCutsOnlySpace(s: string)
    ensures exists i :: SpaceBounded(s, Trim(s), i)
  {
    TrimBothEnds(s);
    assert SpaceBounded(s, Trim(s), |s| - |TrimStart(s)|);
  }

  /** `!s || !s.trim()`: absent, empty or only white space. */
  predicate IsBlank(s: string) {
    Trim(s) == []
  }

  lemma {:induction false} TrimStartOfTrimmed(s: string)
    requires s == [] || !IsSpace(s[0])
    ensures TrimStart(s) == s
  {
  }

  lemma {:induction false} TrimEndOfTrimmed(s: string)
    requires s == [] || !IsSpace(s[|s| - 1])
    ensures TrimEnd(s) == s
  {
  }

  /** Trimming a trimmed string changes nothing, so `trim` is idempotent. */
  lemma TrimOfTrimmed(s: string)
    requires IsTrimmed(s)
    ensures Trim(s) == s
  {
    TrimStartOfTrimmed(s);
    TrimEndOfTrimmed(s);
  }

  lemma TrimIdempotent(s: string)
    ensures Trim(Trim(s)) == Trim(s)
  {
    TrimOfTrimmed(Trim(s));
  }

  lemma {:induction false} TrimStartAllSpace(s: string)
    ensures TrimStart(s) == [] <==> AllSpace(s)
  {
    if s != [] && IsSpace(s[0]) {
      TrimStartAllSpace(s[1..]);
      if AllSpace(s[1..]) {
        assert AllSpace(s) by {
          forall i | 0 <= i < |s| ensures IsSpace(s[i]) {
            if i > 0 { assert s[i] == s[1..][i - 1]; }
          }
        }
      }
      if AllSpace(s) {
        assert AllSpace(s[1..]) by {
          forall i | 0 <= i < |s| - 1 ensures IsSpace(s[1..][i]) { assert s[1..][i] == s[i + 1]; }
        }
      }
    }
  }

  /** A string is blank exactly when every character is white space. */
  lemma BlankIffAllSpace(s: string)
    ensures IsBlank(s) <==> AllSpace(s)
  {
    TrimStartAllSpace(s);
    var t := TrimStart(s);
    assert TrimEnd(t) == [] ==> t == [] by {
      if t != [] { assert !IsSpace(t[0]); }
    }
  }

  lemma BlankOfTrimmed(s: string)
    requires IsTrimmed(s)
    ensures IsBlank(s) <==> s == []
  {
    TrimOfTrimmed(s);
  }

  /** `toLowerCase` on the ASCII letters. */
  function LowerChar(c: char): (d: char)
    ensures 'A' <= c <= 'Z' ==> d as int == c as int + 32
    ensures !('A' <= c <= 'Z') ==> d == c
  {
    if 'A' <= c <= 'Z' then (c as int + 32) as char else c
  }

  function Lower(s: string): (r: string)
    ensures |r| == |s|
    ensures forall i :: 0 <= i < |s| ==> r[i] == LowerChar(s[i])
  {
    seq(|s|, i requires 0 <= i < |s| => LowerChar(s[i]))
  }

  /** `sub` occurs in `s` starting at index `i`. */
  ghost predicate OccursAt(s: string, sub: string, i: int) {
    0 <= i && i + |sub| <= |s| && s[i..i + |sub|] == sub
  }

  function IsPrefix(p: string, s: string): (b: bool)
    ensures b <==> |p| <= |s| && s[..|p|] == p
  {
    |p| <= |s| && s[..|p|] == p
  }

  /** `s.includes(sub)`. */
  function Contains(s: string, sub: string): bool
    decreases |s|
  {
    IsPrefix(sub, s) || (s != [] && Contains(s[1..], sub))
  }

  /** `includes` agrees with the textbook definition: some occurrence exists. */
  lemma {:induction false} ContainsIffOccurs(s: string, sub: string)
    ensures Contains(s, sub) <==> exists i :: OccursAt(s, sub, i)
    decreases |s|
  {
    if IsPrefix(sub, s) {
      assert OccursAt(s, sub, 0);
    } else if s == [] {
    } else {
      ContainsIffOccurs(s[1..], sub);
      if exists i :: OccursAt(s[1..], sub, i) {
        var i :| OccursAt(s[1..], sub, i);
        assert s[1..][i..i + |sub|] == s[i + 1..i + 1 + |sub|];
        assert OccursAt(s, sub, i + 1);
      }
      if exists i :: OccursAt(s, sub, i) {
        var i :| OccursAt(s, sub, i);
        assert i != 0;
        assert s[1..][i - 1..i - 1 + |sub|] == s[i..i + |sub|];
        assert OccursAt(s[1..], sub, i - 1);
      }
    }
  }

  /** Every string includes the empty string. */
  lemma ContainsEmpty(s: string)
    ensures Contains(s, [])
  {
    assert IsPrefix([], s);
  }

  /** Case-insensitive substring test, as `a.toLowerCase().includes(b.toLowerCase())`
      and as the store's `contains` with `mode: 'insensitive'`. */
  function ContainsIgnoringCase(s: string, sub: string): bool {
    Contains(Lower(s), Lower(sub))
  }

  lemma ContainsIgnoringCaseEmpty(s: string)
    ensures ContainsIgnoringCase(s, "")
  {
    ContainsEmpty(Lower(s));
  }

  /** Code-point lexicographic order, used for `orderBy: { name: 'asc' }`. */
  predicate LexLeq(a: string, b: string) {
    a == [] || (b != [] && (a[0] < b[0] || (a[0] == b[0] && LexLeq(a[1..], b[1..]))))
  }

  lemma {:induction false} LexLeqTotal(a: string, b: string)
    ensures LexLeq(a, b) || LexLeq(b, a)
  {
    if a != [] && b != [] && a[0] == b[0] {
      LexLeqTotal(a[1..], b[1..]);
    }
  }

  lemma {:induction false} LexLeqAntisymmetric(a: string, b: string)
    requires LexLeq(a, b) && LexLeq(b, a)
    ensures a == b
  {
    if a != [] && b != [] {
      LexLeqAntisymmetric(a[1..], b[1..]);
      assert a == [a[0]] + a[1..] && b == [b[0]] + b[1..];
    }
  }

  lemma {:induction false} LexLeqTransitive(a: string, b: string, c: string)
    requires LexLeq(a, b) && LexLeq(b, c)
    ensures LexLeq(a, c)
  {
    if a != [] && b != [] && c != [] && a[0] == b[0] && b[0] == c[0] {
      LexLeqTransitive(a[1..], b[1..], c[1..]);
    }
  }

  /** Decimal digits of a natural number, as `${n}` renders it. */
  function NatToString(n: nat): (r: string)
    ensures |r| >= 1
    ensures forall i :: 0 <= i < |r| ==> '0' <= r[i] <= '9'
    ensures n > 0 ==> r[0] != '0'
  {
    if n < 10 then [('0' as int + n) as char]
    else NatToString(n / 10) + [('0' as int + n % 10) as char]
  }

  /** `${n}` for any integer: a minus sign before the digits of a negative one. */
  function IntToString(n: int): (r: string)
    ensures n >= 0 ==> r == NatToString(n)
    ensures n < 0 ==> r == "-" + NatToString(-n)
  {
    if n >= 0 then NatToString(n) else "-" + NatToString(-n)
  }

  /** Reads a string of decimal digits back; the partner of NatToString. */
  function DigitsValue(s: string): nat {
    if s == [] then 0
    else DigitsValue(s[..|s| - 1]) * 10 + (if '0' <= s[|s| - 1] <= '9' then s[|s| - 1] as int - '0' as int else 0)
  }

  lemma {:induction false} NatToStringRoundTrip(n: nat)
    ensures DigitsValue(NatToString(n)) == n
  {
    if n >= 10 {
      NatToStringRoundTrip(n / 10);
      var r := NatToString(n);
      assert r[..|r| - 1] == NatToString(n / 10);
    }
  }

  /** Distinct numbers render differently. */
  lemma NatToStringInjective(m: nat, n: nat)
    requires NatToString(m) == NatToString(n)
    ensures m == n
  {
    NatToStringRoundTrip(m);
    NatToStringRoundTrip(n);
  }

  /** An index clamped into `[0, n]`, as `substring` treats its arguments. */
  function Clamp(i: int, n: nat): (c: nat)
    ensures c <= n
    ensures 0 <= i <= n ==> c == i
    ensures i < 0 ==> c == 0
    ensures i > n ==> c == n
  {
    if i < 0 then 0 else if i > n then n else i
  }

  /** `s.substring(a, b)`: both ends clamped, and swapped when `a > b`. */
  function Substring(s: string, a: int, b: int): (r: string)
    ensures 0 <= a <= b <= |s| ==> r == s[a..b]
    ensures |r| <= |s|
  {
    var i, j := Clamp(a, |s|), Clamp(b, |s|);
    if i <= j then s[i..j] else s[j..i]
  }

  /** Cutting a string anywhere and joining the two substrings gives it back,
      whatever the cut, since out-of-range cuts are clamped. */
  lemma SubstringSplit(s: string, k: int)
    ensures Substring(s, 0, k) + Substring(s, k, |s|) == s
  {
    var c := Clamp(k, |s|);
    assert Substring(s, 0, k) == s[..c];
    assert Substring(s, k, |s|) == s[c..];
    assert s[..c] + s[c..] == s;
  }
}
