/**
  The few ECMAScript string operations the edge function relies on, over
  strings modelled as sequences of `char`. A Dafny `char` is a Unicode
  scalar value, so a character outside the Basic Multilingual Plane counts
  once here where JavaScript counts its two UTF-16 code units:
  `indexOf` and `lastIndexOf` of one character, `substring`, and
  `replace` with a global regular expression whose pattern is a literal.
*/
module JsString {

  /** `p` occurs in `s` starting at index `i`. */
  predicate OccursAt(s: string, p: string, i: int) {
    0 <= i && i + |p| <= |s| && s[i..i + |p|] == p
  }

  /** `p` occurs somewhere in `s` (`s.includes(p)`). */
  ghost predicate Occurs(s: string, p: string) {
    exists i :: OccursAt(s, p, i)
  }

  /** `s.indexOf(c)`: the first index holding `c`, or -1 when there is none. */
  function IndexOf(s: string, c: char): (r: int)
    ensures r == -1 <==> c !in s
    ensures r != -1 ==> 0 <= r < |s| && s[r] == c && c !in s[..r]
  {
    if s == [] then -1
    else if s[0] == c then 0
    else
      var k := IndexOf(s[1..], c);
      if k == -1 then -1 else k + 1
  }

  /** `s.lastIndexOf(c)`: the last index holding `c`, or -1 when there is none. */
  function LastIndexOf(s: string, c: char): (r: int)
    ensures r == -1 <==> c !in s
    ensures r != -1 ==> 0 <= r < |s| && s[r] == c && c !in s[r + 1..]
  {
    if s == [] then -1
    else if s[|s| - 1] == c then |s| - 1
    else LastIndexOf(s[..|s| - 1], c)
  }

  /** ToIntegerOrInfinity of an index argument, clamped to `[0, len]`. */
  function Clamp(i: int, len: nat): (r: nat)
    ensures r <= len
    ensures 0 <= i <= len ==> r == i
  {
    if i < 0 then 0 else if i > len then len else i
  }

  /**
    `s.substring(start, end)` (section 22.1.3.25 of ECMA-262): both
    arguments are clamped to the string, and when the first exceeds the
    second the two are swapped.
  */
  function Substring(s: string, start: int, end: int): (r: string)
    ensures 0 <= start <= end <= |s| ==> r == s[start..end]
    ensures 0 <= end < start <= |s| ==> r == s[end..start]
    ensures 0 <= start <= |s| <= end ==> r == s[start..]
    ensures start < 0 && 0 <= end <= |s| ==> r == s[..end]
    ensures end < 0 && 0 <= start <= |s| ==> r == s[..start]
    ensures |r| <= |s|
  {
    var from, to := Clamp(start, |s|), Clamp(end, |s|);
    if from <= to then s[from..to] else s[to..from]
  }

  /**
    `s.replace(/p/g, '')` for a literal, non-empty pattern `p`: matches are
    found from left to right and do not overlap; each one is deleted.
  */
  function RemoveAll(s: string, p: string): (r: string)
    requires p != []
    ensures |r| <= |s|
    ensures p[0] !in s ==> r == s
    decreases |s|
  {
    if |s| < |p| then s
    else if s[..|p|] == p then RemoveAll(s[|p|..], p)
    else [s[0]] + RemoveAll(s[1..], p)
  }

  /** An occurrence inside a slice is an occurrence in the whole string. */
  lemma OccursInSlice(s: string, p: string, a: int, b: int, i: int)
    requires 0 <= a <= b <= |s|
    requires OccursAt(s[a..b], p, i)
    ensures OccursAt(s, p, a + i)
  {
    forall k | 0 <= k < |p| ensures s[a + i..a + i + |p|][k] == p[k] {
      assert s[a..b][i..i + |p|][k] == p[k];
    }
  }

  /** A slice of a string in which `p` does not occur does not contain `p` either. */
  lemma NoOccurrenceInSlice(s: string, p: string, a: int, b: int)
    requires 0 <= a <= b <= |s|
    requires !Occurs(s, p)
    ensures !Occurs(s[a..b], p)
  {
    if Occurs(s[a..b], p) {
      var i :| OccursAt(s[a..b], p, i);
      OccursInSlice(s, p, a, b, i);
    }
  }

  /** A pattern holding a character the string lacks does not occur in it. */
  lemma AbsentCharNoOccurrence(s: string, p: string, k: nat)
    requires k < |p| && p[k] !in s
    ensures !Occurs(s, p)
  {
    forall i ensures !OccursAt(s, p, i) {
      if 0 <= i && i + |p| <= |s| {
        assert s[i..i + |p|][k] == s[i + k];
      }
    }
  }

  /** Deleting a pattern that never occurs leaves the string as it was. */
  lemma {:induction false} RemoveAllAbsent(s: string, p: string)
    requires p != []
    requires !Occurs(s, p)
    ensures RemoveAll(s, p) == s
    decreases |s|
  {
    if |s| >= |p| {
      assert !OccursAt(s, p, 0);
      NoOccurrenceInSlice(s, p, 1, |s|);
      assert s[1..|s|] == s[1..];
      RemoveAllAbsent(s[1..], p);
    }
  }

  /**
    Deleting a pattern that starts with a character absent from `x`
    passes over `x` untouched.
  */
  lemma {:induction false} RemoveAllSkipsPrefix(x: string, y: string, p: string)
    requires p != [] && p[0] !in x
    ensures RemoveAll(x + y, p) == x + RemoveAll(y, p)
    decreases |x|
  {
    if x == [] {
      assert x + y == y;
    } else {
      var s := x + y;
      assert x == [x[0]] + x[1..];
      assert p[0] !in x[1..];
      RemoveAllSkipsPrefix(x[1..], y, p);
      assert s[0] == x[0] && s[1..] == x[1..] + y;
      if |s| < |p| {
        assert RemoveAll(s, p) == s;
        assert RemoveAll(y, p) == y;
      } else {
        assert s[..|p|] != p by { assert s[..|p|][0] == x[0]; }
        assert RemoveAll(s, p) == [x[0]] + RemoveAll(x[1..] + y, p);
      }
    }
  }
}
