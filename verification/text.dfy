/**
 * String helpers with the meaning Python's `str` methods have in the source:
 * `lower`, `strip`, `find`, `in`, `' '.join`, `split('@')[-1]`, slicing `[:n]`
 * and `str(int)`.
 */
module Text {
  import opened Wrappers

  predicate IsDigit(c: char) { '0' <= c <= '9' }

  predicate IsAsciiLetter(c: char) { 'a' <= c <= 'z' || 'A' <= c <= 'Z' }

  /** ASCII case mapping; the only non-ASCII character that `str.lower` maps onto an
      ASCII letter is the Kelvin sign (onto 'k'), which no name compared here contains. */
  function LowerChar(c: char): (r: char)
    ensures 'A' <= c <= 'Z' ==> r as int == c as int + 32
    ensures !('A' <= c <= 'Z') ==> r == c
  {
    if 'A' <= c <= 'Z' then (c as int + 32) as char else c
  }

  /** `s.lower()` on ASCII: no upper-case letter is left, every other character is kept,
      and each upper-case letter becomes its lower-case partner. */
  function Lower(s: string): (r: string)
    ensures |r| == |s|
    ensures forall i :: 0 <= i < |r| ==> !('A' <= r[i] <= 'Z')
    ensures forall i :: 0 <= i < |s| && !('A' <= s[i] <= 'Z') ==> r[i] == s[i]
    ensures forall i :: 0 <= i < |s| && 'A' <= s[i] <= 'Z' ==> r[i] as int == s[i] as int + 32
  {
    seq(|s|, i requires 0 <= i < |s| => LowerChar(s[i]))
  }

  /** Lower-casing twice is lower-casing once. */
  lemma LowerIdempotent(s: string)
    ensures Lower(Lower(s)) == Lower(s)
  {
    var t := Lower(s);
    assert forall i :: 0 <= i < |t| ==> Lower(t)[i] == t[i];
  }

  /** Lower-casing works character by character, so it distributes over concatenation. */
  lemma LowerAppend(a: string, b: string)
    ensures Lower(a + b) == Lower(a) + Lower(b)
  {
    var l := Lower(a + b);
    assert forall i :: 0 <= i < |a| ==> (a + b)[i] == a[i];
    assert forall i :: |a| <= i < |a + b| ==> (a + b)[i] == b[i - |a|];
    assert forall i :: 0 <= i < |a| ==> l[i] == Lower(a)[i];
    assert forall i :: |a| <= i < |l| ==> l[i] == Lower(b)[i - |a|];
  }

  /** The characters for which Python's `str.isspace()` holds, i.e. what `strip()` removes. */
  predicate IsSpace(c: char)
  {
    c == ' ' || '\t' <= c <= '\r' || '\U{1C}' <= c <= '\U{1F}' || c == '\U{85}' || c == '\U{A0}'
    || c == '\U{1680}' || '\U{2000}' <= c <= '\U{200A}' || c == '\U{2028}' || c == '\U{2029}'
    || c == '\U{202F}' || c == '\U{205F}' || c == '\U{3000}'
  }

  /** Drops the leading characters satisfying `p`. */
  function TrimStart(s: string, p: char -> bool): (r: string)
    ensures |r| <= |s| && r == s[|s| - |r|..]
    ensures forall i :: 0 <= i < |s| - |r| ==> p(s[i])
    ensures r != [] ==> !p(r[0])
  {
    if s != [] && p(s[0]) then
      var t := TrimStart(s[1..], p);
      assert s[1..][|s| - 1 - |t|..] == s[|s| - |t|..];
      assert forall i :: 1 <= i < |s| - |t| ==> s[i] == s[1..][i - 1];
      t
    else s
  }

  /** Drops the trailing characters satisfying `p`. */
  function TrimEnd(s: string, p: char -> bool): (r: string)
    ensures |r| <= |s| && r == s[..|r|]
    ensures forall i :: |r| <= i < |s| ==> p(s[i])
    ensures r != [] ==> !p(r[|r| - 1])
  {
    if s != [] && p(s[|s| - 1]) then
      var t := TrimEnd(s[..|s| - 1], p);
      assert s[..|s| - 1][..|t|] == s[..|t|];
      assert forall i :: |t| <= i < |s| - 1 ==> s[i] == s[..|s| - 1][i];
      t
    else s
  }

  /** `t` is `s` with its leading and trailing run of characters satisfying `p` removed:
      a slice of `s`, everything outside it satisfies `p`, and its ends do not. */
  ghost predicate StrippedOf(t: string, s: string, p: char -> bool)
  {
    exists a :: StrippedAt(t, s, p, a)
  }

  /** ... with the slice starting at `a`. */
  predicate StrippedAt(t: string, s: string, p: char -> bool, a: int)
  {
    0 <= a <= |s| - |t| && t == s[a..a + |t|]
    && (forall i :: 0 <= i < a ==> p(s[i]))
    && (forall i :: a + |t| <= i < |s| ==> p(s[i]))
    && (t != [] ==> !p(t[0]) && !p(t[|t| - 1]))
  }

  /** `s.strip(chars)`, with the characters to strip given as a predicate. */
  function StripBy(s: string, p: char -> bool): (r: string)
    ensures StrippedOf(r, s, p)
  {
    StripByAt(s, p);
    TrimEnd(TrimStart(s, p), p)
  }

  lemma StripByAt(s: string, p: char -> bool)
    ensures StrippedAt(TrimEnd(TrimStart(s, p), p), s, p, |s| - |TrimStart(s, p)|)
  {
    var t := TrimStart(s, p);
    var r := TrimEnd(t, p);
    assert |t| <= |s| && t == s[|s| - |t|..];
    assert forall i :: 0 <= i < |s| - |t| ==> p(s[i]);
    assert t != [] ==> !p(t[0]);
    assert |r| <= |t| && r == t[..|r|];
    assert forall i :: |r| <= i < |t| ==> p(t[i]);
    assert r != [] ==> !p(r[|r| - 1]);
    TrimsStrip(s, p, t, r);
  }

  /** Trimming the front and then the back leaves the stripped slice. */
  lemma TrimsStrip(s: string, p: char -> bool, t: string, r: string)
    requires |t| <= |s| && t == s[|s| - |t|..]
    requires forall i :: 0 <= i < |s| - |t| ==> p(s[i])
    requires t != [] ==> !p(t[0])
    requires |r| <= |t| && r == t[..|r|]
    requires forall i :: |r| <= i < |t| ==> p(t[i])
    requires r != [] ==> !p(r[|r| - 1])
    ensures StrippedAt(r, s, p, |s| - |t|)
  {
    var a := |s| - |t|;
    assert r == s[a..a + |r|];
    forall i | a + |r| <= i < |s| ensures p(s[i]) {
      assert s[i] == t[i - a];
    }
    if r != [] {
      assert r[0] == t[0];
    }
  }

  /** A strip is determined by its argument: there is only one stripped form. */
  lemma StrippedUnique(t: string, u: string, s: string, p: char -> bool)
    requires StrippedOf(t, s, p) && StrippedOf(u, s, p)
    ensures t == u
  {
    var a :| StrippedAt(t, s, p, a);
    var b :| StrippedAt(u, s, p, b);
    if t != [] && u != [] {
      assert s[a] == t[0] && s[b] == u[0];
      assert a == b;
      assert s[a + |t| - 1] == t[|t| - 1] && s[b + |u| - 1] == u[|u| - 1];
      assert |t| == |u|;
    } else if t != [] {
      assert s[a] == t[0];
    }
  }

  /** `s.strip()`. */
  function Strip(s: string): string
  {
    StripBy(s, IsSpace)
  }

  predicate IsQuote(c: char) { c == '"' }

  /** `s.find(c, from)` as an option: the first index at or after `from` holding `c`. */
  function IndexOf(s: string, c: char, from: nat): (r: Option<nat>)
    decreases |s| - from
    ensures r.Some? ==> from <= r.value < |s| && s[r.value] == c
    ensures r.Some? ==> forall k :: from <= k < r.value ==> s[k] != c
    ensures r.None? ==> forall k :: from <= k < |s| ==> s[k] != c
  {
    if from >= |s| then None
    else if s[from] == c then Some(from)
    else IndexOf(s, c, from + 1)
  }

  predicate OccursAt(p: string, s: string, i: nat)
  {
    i + |p| <= |s| && s[i..i + |p|] == p
  }

  /** Python's `p in s` for strings. */
  function IsSubstringFrom(p: string, s: string, from: nat): (b: bool)
    decreases |s| - from
    ensures b <==> exists i :: from <= i && OccursAt(p, s, i)
  {
    if from + |p| > |s| then
      assert forall i :: from <= i ==> !OccursAt(p, s, i);
      false
    else if s[from..from + |p|] == p then
      assert OccursAt(p, s, from);
      true
    else
      IsSubstringFrom(p, s, from + 1)
  }

  function IsSubstring(p: string, s: string): bool
  {
    IsSubstringFrom(p, s, 0)
  }

  /** `s[:n]` for `n >= 0`. */
  function Prefix(s: string, n: nat): (r: string)
    ensures |r| == Min(n, |s|) && r == s[..|r|]
  {
    if |s| <= n then s else s[..n]
  }

  /** `sep.join(parts)`. */
  function Join(parts: seq<string>, sep: string): string
  {
    if parts == [] then ""
    else if |parts| == 1 then parts[0]
    else parts[0] + sep + Join(parts[1..], sep)
  }

  /** `' '.join(parts)`. */
  function JoinSpace(parts: seq<string>): string
  {
    Join(parts, " ")
  }

  /** `s.split(' ')`: the pieces between single spaces (never an empty list). */
  function SplitSpace(s: string): (r: seq<string>)
    decreases |s|
    ensures |r| >= 1
  {
    match IndexOf(s, ' ', 0)
    case None => [s]
    case Some(i) => [s[..i]] + SplitSpace(s[i + 1..])
  }

  lemma {:induction false} SplitJoin(parts: seq<string>)
    requires parts != []
    requires forall i :: 0 <= i < |parts| ==> ' ' !in parts[i]
    ensures SplitSpace(JoinSpace(parts)) == parts
  {
    if |parts| == 1 {
      assert forall k :: 0 <= k < |parts[0]| ==> parts[0][k] != ' ';
      assert IndexOf(parts[0], ' ', 0).None?;
    } else {
      var s := JoinSpace(parts);
      var p := parts[0];
      assert s == p + " " + JoinSpace(parts[1..]);
      assert forall k :: 0 <= k < |p| ==> s[k] == p[k] && s[k] != ' ';
      assert s[|p|] == ' ';
      assert IndexOf(s, ' ', 0) == Some(|p|);
      assert s[|p| + 1..] == JoinSpace(parts[1..]);
      SplitJoin(parts[1..]);
      assert s[..|p|] == p;
    }
  }

  /** `text.split(c)[-1]`: what follows the last `c`, or all of `s` when there is none. */
  function AfterLast(s: string, c: char): (r: string)
    decreases |s|
    ensures |r| <= |s| && r == s[|s| - |r|..]
    ensures c !in r
    ensures |r| < |s| ==> s[|s| - |r| - 1] == c
  {
    if s == [] then []
    else if s[|s| - 1] == c then []
    else
      var init := s[..|s| - 1];
      var t := AfterLast(init, c);
      assert init[|init| - |t|..] + [s[|s| - 1]] == s[|s| - |t| - 1..];
      assert |t| < |init| ==> init[|init| - |t| - 1] == s[|s| - |t| - 2];
      t + [s[|s| - 1]]
  }

  function DigitChar(d: nat): char
    requires d < 10
  {
    ('0' as int + d) as char
  }

  /** `str(n)` for a non-negative integer. */
  function NatToString(n: nat): (r: string)
    decreases n
    ensures |r| >= 1
    ensures forall i :: 0 <= i < |r| ==> IsDigit(r[i])
  {
    if n < 10 then [DigitChar(n)] else NatToString(n / 10) + [DigitChar(n % 10)]
  }

  function DigitsValue(s: string): nat
    requires forall i :: 0 <= i < |s| ==> IsDigit(s[i])
  {
    if s == [] then 0
    else
      assert IsDigit(s[|s| - 1]);
      10 * DigitsValue(s[..|s| - 1]) + (s[|s| - 1] as int - '0' as int)
  }

  /** `str(n)` is a decimal rendering: reading its digits back gives `n`. */
  lemma {:induction false} NatToStringValue(n: nat)
    ensures DigitsValue(NatToString(n)) == n
  {
    var r := NatToString(n);
    if n < 10 {
    } else {
      NatToStringValue(n / 10);
      assert r[..|r| - 1] == NatToString(n / 10);
    }
  }
}
