/** The few Python string operations the reply handling relies on:
    `str.strip()`, `str.lower()`, `startswith`, `in` and `sep.join(...)`. */
module Text {

  /** Python's `str.isspace()` set, which both `str.strip()` and the regex
      class `\s` use for `str` patterns. */
  predicate IsSpace(c: char)
  {
    c == ' ' || c == '\t' || c == '\n' || c == '\r' || c == '\U{0B}' || c == '\U{0C}'
    || ('\U{1C}' <= c <= '\U{1F}') || c == '\U{85}' || c == '\U{A0}' || c == '\U{1680}'
    || ('\U{2000}' <= c <= '\U{200A}') || c == '\U{2028}' || c == '\U{2029}'
    || c == '\U{202F}' || c == '\U{205F}' || c == '\U{3000}'
  }

  function LowerChar(c: char): char
  {
    if 'A' <= c <= 'Z' then (c as int + 32) as char else c
  }

  /** `s.lower()` on ASCII letters. */
  function Lower(s: string): (r: string)
    ensures |r| == |s|
    ensures forall i :: 0 <= i < |s| ==> r[i] == LowerChar(s[i])
  {
    seq(|s|, i requires 0 <= i < |s| => LowerChar(s[i]))
  }

  /** Number of whitespace characters `s` starts with. */
  function LeadingSpace(s: string): (n: nat)
    ensures n <= |s|
  {
    if s != [] && IsSpace(s[0]) then 1 + LeadingSpace(s[1..]) else 0
  }

  /** Length of `s` without the whitespace it ends with. */
  function TrailingEnd(s: string): (n: nat)
    ensures n <= |s|
  {
    if s != [] && IsSpace(s[|s| - 1]) then TrailingEnd(s[..|s| - 1]) else |s|
  }

  /** The leading whitespace is all whitespace, and what follows it is not. */
  lemma {:induction false} LeadingSpaceIsSpace(s: string)
    ensures forall k :: 0 <= k < LeadingSpace(s) ==> IsSpace(s[k])
    ensures LeadingSpace(s) < |s| ==> !IsSpace(s[LeadingSpace(s)])
  {
    if s != [] && IsSpace(s[0]) {
      var t := s[1..];
      LeadingSpaceIsSpace(t);
      assert forall k :: 1 <= k < |s| ==> s[k] == t[k - 1];
    }
  }

  /** The trailing whitespace is all whitespace, and what precedes it is not. */
  lemma {:induction false} TrailingEndIsSpace(s: string)
    ensures forall k :: TrailingEnd(s) <= k < |s| ==> IsSpace(s[k])
    ensures 0 < TrailingEnd(s) ==> !IsSpace(s[TrailingEnd(s) - 1])
  {
    if s != [] && IsSpace(s[|s| - 1]) {
      var t := s[..|s| - 1];
      TrailingEndIsSpace(t);
      assert forall k :: 0 <= k < |t| ==> s[k] == t[k];
    }
  }

  function TrimLeft(s: string): string
  {
    s[LeadingSpace(s)..]
  }

  function TrimRight(s: string): string
  {
    s[..TrailingEnd(s)]
  }

  /** `s.strip()`. */
  function Strip(s: string): string
  {
    TrimRight(TrimLeft(s))
  }

  /** `strip()` cuts a contiguous run out of `s`, dropping only whitespace,
      and leaves no whitespace at either end. */
  lemma StripSlice(s: string)
    ensures exists i, j :: 0 <= i <= j <= |s| && Strip(s) == s[i..j]
              && (forall k :: 0 <= k < i ==> IsSpace(s[k]))
              && (forall k :: j <= k < |s| ==> IsSpace(s[k]))
    ensures Strip(s) == [] || (!IsSpace(Strip(s)[0]) && !IsSpace(Strip(s)[|Strip(s)| - 1]))
  {
    var i := LeadingSpace(s);
    var t := s[i..];
    var j := TrailingEnd(t);
    LeadingSpaceIsSpace(s);
    TrailingEndIsSpace(t);
    assert Strip(s) == s[i..i + j];
    assert forall k :: i + j <= k < |s| ==> IsSpace(s[k]) by {
      forall k | i + j <= k < |s| ensures IsSpace(s[k]) {
        assert s[k] == t[k - i];
      }
    }
    if j > 0 {
      assert Strip(s)[0] == t[0] == s[i];
      assert Strip(s)[j - 1] == t[j - 1];
    }
  }

  /** `s.startswith(p)`. */
  predicate StartsWith(s: string, p: string)
  {
    |p| <= |s| && s[..|p|] == p
  }

  /** `p in s`. */
  predicate Contains(s: string, p: string)
    decreases |s|
  {
    StartsWith(s, p) || (s != [] && Contains(s[1..], p))
  }

  /** `p` occurs in `s` at offset `i`. */
  predicate OccursAt(s: string, p: string, i: int)
  {
    0 <= i <= |s| - |p| && s[i..i + |p|] == p
  }

  lemma {:induction false} OccursContains(s: string, p: string, i: int)
    requires OccursAt(s, p, i)
    ensures Contains(s, p)
    decreases i
  {
    if i == 0 {
      assert s[..|p|] == s[0..0 + |p|];
    } else {
      var t := s[1..];
      assert t[i - 1..i - 1 + |p|] == s[i..i + |p|];
      OccursContains(t, p, i - 1);
    }
  }

  lemma {:induction false} ContainsOccurs(s: string, p: string)
    requires Contains(s, p)
    ensures exists i :: OccursAt(s, p, i)
    decreases |s|
  {
    if StartsWith(s, p) {
      assert OccursAt(s, p, 0);
    } else {
      var t := s[1..];
      ContainsOccurs(t, p);
      var i :| OccursAt(t, p, i);
      assert s[i + 1..i + 1 + |p|] == t[i..i + |p|];
      assert OccursAt(s, p, i + 1);
    }
  }

  /** `p in s` holds exactly when `p` occurs at some offset of `s`. */
  lemma ContainsIff(s: string, p: string)
    ensures Contains(s, p) <==> exists i :: OccursAt(s, p, i)
  {
    if Contains(s, p) {
      ContainsOccurs(s, p);
    }
    if exists i :: OccursAt(s, p, i) {
      var i :| OccursAt(s, p, i);
      OccursContains(s, p, i);
    }
  }

  /** `sep.join(parts)`. */
  function Join(parts: seq<string>, sep: string): string
  {
    if |parts| == 0 then ""
    else if |parts| == 1 then parts[0]
    else parts[0] + sep + Join(parts[1..], sep)
  }
}
