/** The Python string operations the anti-cheat heuristic relies on, over
    strings as sequences of Unicode scalar values: `str.strip()`,
    `str.lower()` (on ASCII letters), `str.replace(x, y)` for one character,
    and the substring test `p in s`. */
module Text {

  /** The characters `str.isspace()` accepts, which `str.strip()` removes. */
  predicate IsSpace(c: char) {
    || c == ' '
    || ('\t' <= c <= '\r')
    || ('\U{1C}' <= c <= '\U{1F}')
    || c == '\U{85}' || c == '\U{A0}' || c == '\U{1680}'
    || ('\U{2000}' <= c <= '\U{200A}')
    || c == '\U{2028}' || c == '\U{2029}' || c == '\U{202F}' || c == '\U{205F}'
    || c == '\U{3000}'
  }

  predicate IsUpper(c: char) {
    'A' <= c <= 'Z'
  }

  predicate IsLowerLetter(c: char) {
    'a' <= c <= 'z'
  }

  /** Drops the leading whitespace. */
  function TrimStart(s: string): (r: string)
    ensures |r| <= |s| && r == s[|s| - |r|..]
    ensures forall k :: 0 <= k < |s| - |r| ==> IsSpace(s[k])
    ensures r == [] || !IsSpace(r[0])
    decreases |s|
  {
    if |s| > 0 && IsSpace(s[0]) then TrimStart(s[1..]) else s
  }

  /** Drops the trailing whitespace. */
  function TrimEnd(s: string): (r: string)
    ensures |r| <= |s| && r == s[..|r|]
    ensures forall k :: |r| <= k < |s| ==> IsSpace(s[k])
    ensures r == [] || !IsSpace(r[|r| - 1])
    decreases |s|
  {
    if |s| > 0 && IsSpace(s[|s| - 1]) then TrimEnd(s[..|s| - 1]) else s
  }

  /** `s.strip()`: a piece of `s` that neither starts nor ends with
      whitespace (StripKeepsVisible: and that loses no other character). */
  function Strip(s: string): (r: string)
    ensures |r| <= |s|
    ensures forall c :: c in r ==> c in s
    ensures r == [] || (!IsSpace(r[0]) && !IsSpace(r[|r| - 1]))
  {
    var t := TrimStart(s);
    var r := TrimEnd(t);
    assert forall c :: c in r ==> c in t;
    assert forall c :: c in t ==> c in s;
    r
  }

  /** Only whitespace is lost by stripping. */
  lemma StripKeepsVisible(s: string, c: char)
    requires c in s && !IsSpace(c)
    ensures c in Strip(s)
  {
  }

  /** Lower-cases one ASCII letter; every other character is its own lower case. */
  function LowerChar(c: char): (d: char)
    ensures !IsUpper(d)
    ensures IsUpper(c) ==> IsLowerLetter(d) && d as int - 'a' as int == c as int - 'A' as int
    ensures !IsUpper(c) ==> d == c
  {
    if IsUpper(c) then (c as int + 32) as char else c
  }

  /** The lower-case form of `s`, character by character. */
  function Lower(s: string): (r: string)
    ensures |r| == |s|
    ensures forall k :: 0 <= k < |s| ==> r[k] == LowerChar(s[k])
  {
    if s == [] then [] else [LowerChar(s[0])] + Lower(s[1..])
  }

  /** `s.replace(x, "")`: every occurrence of `x` deleted (RemoveCharCounts:
      and every other character kept, as often as it occurred). */
  function RemoveChar(s: string, x: char): (r: string)
    ensures |r| <= |s|
    ensures x !in r
  {
    if s == [] then [] else (if s[0] == x then [] else [s[0]]) + RemoveChar(s[1..], x)
  }

  /** Text without `x` is left as it is. */
  lemma {:induction false} RemoveCharAbsent(s: string, x: char)
    requires x !in s
    ensures RemoveChar(s, x) == s
  {
    if s != [] {
      RemoveCharAbsent(s[1..], x);
    }
  }

  /** Deleting `x` keeps every other character exactly as often as it occurred. */
  lemma {:induction false} RemoveCharCounts(s: string, x: char)
    ensures multiset(RemoveChar(s, x)) == multiset(s)[x := 0]
  {
    if s != [] {
      assert s == [s[0]] + s[1..];
      RemoveCharCounts(s[1..], x);
    }
  }

  /** `s.replace(a, b)` for single characters: every `a` becomes `b`, the rest stays. */
  function ReplaceChar(s: string, a: char, b: char): (r: string)
    ensures |r| == |s|
    ensures forall k :: 0 <= k < |s| ==> r[k] == (if s[k] == a then b else s[k])
  {
    if s == [] then [] else [if s[0] == a then b else s[0]] + ReplaceChar(s[1..], a, b)
  }

  predicate StartsWith(s: string, p: string) {
    |p| <= |s| && s[..|p|] == p
  }

  /** Python's `p in s`: `p` occurs somewhere in `s` as a contiguous piece. */
  predicate Contains(s: string, p: string)
    decreases |s|
  {
    StartsWith(s, p) || (|s| > 0 && Contains(s[1..], p))
  }

  lemma {:induction false} ContainsAt(s: string, p: string, i: nat)
    requires i <= |s| && StartsWith(s[i..], p)
    ensures Contains(s, p)
    decreases i
  {
    if i > 0 {
      assert s[1..][i - 1..] == s[i..];
      ContainsAt(s[1..], p, i - 1);
    }
  }

  lemma {:induction false} ContainsWitness(s: string, p: string) returns (i: nat)
    requires Contains(s, p)
    ensures i <= |s| && StartsWith(s[i..], p)
    decreases |s|
  {
    if StartsWith(s, p) {
      i := 0;
    } else {
      var j := ContainsWitness(s[1..], p);
      assert s[1..][j..] == s[j + 1..];
      i := j + 1;
    }
  }

  /** The recursive substring test agrees with its reading as "there is a position of `s` where `p` starts". */
  lemma ContainsIff(s: string, p: string)
    ensures Contains(s, p) <==> exists i :: 0 <= i <= |s| && StartsWith(s[i..], p)
  {
    if Contains(s, p) {
      var i := ContainsWitness(s, p);
    }
    if exists i :: 0 <= i <= |s| && StartsWith(s[i..], p) {
      var i :| 0 <= i <= |s| && StartsWith(s[i..], p);
      ContainsAt(s, p, i);
    }
  }

  /** Every character of an occurring piece is a character of the whole. */
  lemma ContainsChars(s: string, p: string)
    requires Contains(s, p)
    ensures forall c :: c in p ==> c in s
  {
  }

  /** Both halves of an occurring piece occur. */
  lemma ContainsSplit(s: string, p: string, q: string)
    requires Contains(s, p + q)
    ensures Contains(s, p) && Contains(s, q)
  {
    var i := ContainsWitness(s, p + q);
    assert s[i..][..|p|] == p by {
      assert (p + q)[..|p|] == p;
    }
    ContainsAt(s, p, i);
    assert s[i + |p|..][..|q|] == q by {
      assert (p + q)[|p|..] == q;
      assert s[i + |p|..][..|q|] == s[i..][..|p| + |q|][|p|..];
    }
    ContainsAt(s, q, i + |p|);
  }

  lemma ContainsMiddle(a: string, m: string, b: string)
    ensures Contains(a + m + b, m)
  {
    var s := a + m + b;
    assert s[|a|..][..|m|] == m;
    ContainsAt(s, m, |a|);
  }

  lemma LowerConcat(a: string, b: string)
    ensures Lower(a + b) == Lower(a) + Lower(b)
  {
  }

  lemma {:induction false} RemoveCharConcat(a: string, b: string, x: char)
    ensures RemoveChar(a + b, x) == RemoveChar(a, x) + RemoveChar(b, x)
  {
    if a == [] {
      assert a + b == b;
    } else {
      var head := if a[0] == x then [] else [a[0]];
      assert (a + b)[0] == a[0] && (a + b)[1..] == a[1..] + b;
      assert RemoveChar(a + b, x) == head + RemoveChar(a[1..] + b, x);
      RemoveCharConcat(a[1..], b, x);
      assert RemoveChar(a, x) == head + RemoveChar(a[1..], x);
    }
  }

  /** Stripping text whose first non-trivial piece starts with a visible
      character only removes whitespace in front of it. */
  lemma {:induction false} TrimStartBefore(a: string, b: string) returns (i: nat)
    requires b != [] && !IsSpace(b[0])
    ensures i <= |a| && TrimStart(a + b) == a[i..] + b
  {
    if a == [] {
      assert a + b == b;
      i := 0;
    } else if IsSpace(a[0]) {
      assert (a + b)[1..] == a[1..] + b;
      var j := TrimStartBefore(a[1..], b);
      assert a[1..][j..] == a[j + 1..];
      i := j + 1;
    } else {
      assert (a + b)[0] == a[0];
      assert a[0..] == a;
      i := 0;
    }
  }

  lemma {:induction false} TrimEndAfter(b: string, c: string) returns (j: nat)
    requires b != [] && !IsSpace(b[|b| - 1])
    ensures j <= |c| && TrimEnd(b + c) == b + c[..j]
    decreases |c|
  {
    if c == [] {
      assert b + c == b;
      j := 0;
    } else if IsSpace(c[|c| - 1]) {
      assert (b + c)[..|b + c| - 1] == b + c[..|c| - 1];
      var k := TrimEndAfter(b, c[..|c| - 1]);
      assert c[..|c| - 1][..k] == c[..k];
      j := k;
    } else {
      assert c[..|c|] == c;
      j := |c|;
    }
  }

  /** `(a + m + b).strip()` keeps the whole of `m` when `m` starts and ends
      with visible characters. */
  lemma StripAround(a: string, m: string, b: string) returns (i: nat, j: nat)
    requires m != [] && !IsSpace(m[0]) && !IsSpace(m[|m| - 1])
    ensures i <= |a| && j <= |b|
    ensures Strip(a + m + b) == a[i..] + m + b[..j]
  {
    assert a + m + b == a + (m + b);
    i := TrimStartBefore(a, m + b);
    assert a[i..] + (m + b) == (a[i..] + m) + b;
    j := TrimEndAfter(a[i..] + m, b);
  }
}
