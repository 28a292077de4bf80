/**
  The clean-up the edge function applies to the model's raw text before
  handing it to `JSON.parse`: delete every "```json" and then every "```",
  then keep the text from the first `{` to the last `}` (with the argument
  swap of `substring` when the last `}` comes before the first `{`).
*/
module ResponseRepair {
  import opened JsString

  const Fence: string := "```"
  const JsonFence: string := "```json"

  /** The model's text with every "```json" deleted, then every "```". */
  function StripFences(s: string): (r: string)
    ensures !Occurs(r, Fence)
    ensures |r| <= |s|
  {
    var t := RemoveAll(s, JsonFence);
    FenceRemovalLeavesNone(t);
    RemoveAll(t, Fence)
  }

  /**
    `s.substring(s.indexOf('{'), s.lastIndexOf('}') + 1)` when both braces
    are present, and `s` itself otherwise.
  */
  function SliceBraces(s: string): (r: string)
    ensures |r| <= |s|
    ensures '{' !in s || '}' !in s ==> r == s
  {
    var first := IndexOf(s, '{');
    var last := LastIndexOf(s, '}');
    if first != -1 && last != -1 then Substring(s, first, last + 1) else s
  }

  /** The whole repair: the text that reaches `JSON.parse`. */
  function Repair(s: string): (r: string)
    ensures !Occurs(r, Fence)
  {
    var stripped := StripFences(s);
    var r := SliceBraces(stripped);
    SliceHasNoFence(stripped);
    r
  }

  // ---------------------------------------------------------------------
  // No fence survives the stripping.

  /** Text that survives fence deletion starts with "`" only if the input does. */
  lemma LeadingBacktick(t: string)
    requires RemoveAll(t, Fence) != [] && RemoveAll(t, Fence)[0] == '`'
    ensures t != [] && t[0] == '`'
  {
  }

  /** Text that survives fence deletion starts with "``" only if the input does. */
  lemma LeadingTwoBackticks(t: string)
    requires |RemoveAll(t, Fence)| >= 2
    requires RemoveAll(t, Fence)[0] == '`' && RemoveAll(t, Fence)[1] == '`'
    ensures |t| >= 2 && t[0] == '`' && t[1] == '`'
  {
    if |t| >= 3 && t[..3] != Fence {
      assert RemoveAll(t, Fence) == [t[0]] + RemoveAll(t[1..], Fence);
      LeadingBacktick(t[1..]);
    }
  }

  /**
    After every "```" is deleted from left to right, no "```" remains: the
    text left on the two sides of a deleted fence never joins into a new one.
  */
  lemma {:induction false} FenceRemovalLeavesNone(s: string)
    ensures !Occurs(RemoveAll(s, Fence), Fence)
    decreases |s|
  {
    var r := RemoveAll(s, Fence);
    if |s| < 3 {
      assert forall i :: !OccursAt(r, Fence, i);
    } else if s[..3] == Fence {
      FenceRemovalLeavesNone(s[3..]);
    } else {
      var rest := RemoveAll(s[1..], Fence);
      FenceRemovalLeavesNone(s[1..]);
      assert r == [s[0]] + rest;
      forall i ensures !OccursAt(r, Fence, i) {
        if i == 0 {
          KeptCharStartsNoFence(s);
        } else if i > 0 {
          KeptCharShiftsWindows(s[0], rest, i);
        }
      }
    }
  }

  /**
    When `s` does not start with a fence, its first character is kept, and
    no fence starts there in the result.
  */
  lemma KeptCharStartsNoFence(s: string)
    requires |s| >= 3 && s[..3] != Fence
    ensures !OccursAt([s[0]] + RemoveAll(s[1..], Fence), Fence, 0)
  {
    var rest := RemoveAll(s[1..], Fence);
    if |rest| >= 2 && rest[0] == '`' && rest[1] == '`' {
      LeadingTwoBackticks(s[1..]);
      assert s[..3] == [s[0], s[1], s[2]];
      assert s[0] != '`';
    }
  }

  /** A fence after a kept character would be a fence in the rest. */
  lemma KeptCharShiftsWindows(c: char, rest: string, i: int)
    requires 1 <= i && !Occurs(rest, Fence)
    ensures !OccursAt([c] + rest, Fence, i)
  {
    var r := [c] + rest;
    if i + 3 <= |r| {
      assert r[i..i + 3] == rest[i - 1..i + 2];
      assert !OccursAt(rest, Fence, i - 1);
    }
  }

  /** A slice of fence-free text is fence-free. */
  lemma SliceHasNoFence(s: string)
    requires !Occurs(s, Fence)
    ensures !Occurs(SliceBraces(s), Fence)
  {
    var first, last := IndexOf(s, '{'), LastIndexOf(s, '}');
    if first != -1 && last != -1 {
      if first <= last + 1 {
        NoOccurrenceInSlice(s, Fence, first, last + 1);
      } else {
        NoOccurrenceInSlice(s, Fence, last + 1, first);
      }
    }
  }

  /**
    Only the exact lower-case tag goes with its fence: between two fences,
    backtick-free text that does not start with "json" (such as "JSON{}"
    after "```JSON", or "js" after "```js") is kept whole.
  */
  lemma OtherTagSurvives(rest: string)
    requires '`' !in rest && !(|rest| >= 4 && rest[..4] == "json")
    ensures StripFences(Fence + rest + Fence) == rest
  {
    var s := Fence + rest + Fence;
    forall i ensures !OccursAt(s, JsonFence, i) {
      if 0 <= i && i + 7 <= |s| {
        if i == 0 {
          if |rest| >= 4 {
            assert s[..7][3..7] == rest[..4];
          } else {
            assert s[..7][3 + |rest|] == s[3 + |rest|] == '`';
          }
        } else if i <= 2 {
          assert s[i..i + 7][2] == s[i + 2] == rest[i - 1];
        } else {
          assert s[i..i + 7][0] == s[i] == rest[i - 3];
        }
      }
    }
    RemoveAllAbsent(s, JsonFence);
    assert s[..3] == Fence && s[3..] == rest + Fence;
    RemoveAllSkipsPrefix(rest, Fence, Fence);
    assert RemoveAll(Fence, Fence) == [];
    assert rest + [] == rest;
  }

  // ---------------------------------------------------------------------
  // The brace slice.

  /** An index holding `c` with no `c` before it is what `indexOf` finds. */
  lemma IndexOfIsFirst(s: string, c: char, i: nat)
    requires i < |s| && s[i] == c && c !in s[..i]
    ensures IndexOf(s, c) == i
  {
    var r := IndexOf(s, c);
    forall k | 0 <= k < i ensures s[k] != c { assert s[..i][k] == s[k]; }
    forall k | 0 <= k < r ensures s[k] != c { assert s[..r][k] == s[k]; }
  }

  /** An index holding `c` with no `c` after it is what `lastIndexOf` finds. */
  lemma LastIndexOfIsLast(s: string, c: char, j: nat)
    requires j < |s| && s[j] == c && c !in s[j + 1..]
    ensures LastIndexOf(s, c) == j
  {
    var r := LastIndexOf(s, c);
    forall k | j < k < |s| ensures s[k] != c { assert s[j + 1..][k - j - 1] == s[k]; }
    forall k | r < k < |s| ensures s[k] != c { assert s[r + 1..][k - r - 1] == s[k]; }
  }

  /**
    When the first `{` comes before the last `}`, the candidate is exactly
    the inclusive span between them.
  */
  lemma SliceSpan(s: string, i: nat, j: nat)
    requires i < j < |s|
    requires s[i] == '{' && '{' !in s[..i]
    requires s[j] == '}' && '}' !in s[j + 1..]
    ensures SliceBraces(s) == s[i..j + 1]
    ensures SliceBraces(s)[0] == '{' && SliceBraces(s)[j - i] == '}'
  {
    IndexOfIsFirst(s, '{', i);
    LastIndexOfIsLast(s, '}', j);
  }

  /**
    When the last `}` comes before the first `{`, `substring` swaps its
    arguments and the candidate is the brace-free text strictly between them.
  */
  lemma SliceReversed(s: string, i: nat, j: nat)
    requires j < i < |s|
    requires s[i] == '{' && '{' !in s[..i]
    requires s[j] == '}' && '}' !in s[j + 1..]
    ensures SliceBraces(s) == s[j + 1..i]
    ensures '{' !in SliceBraces(s) && '}' !in SliceBraces(s)
  {
    IndexOfIsFirst(s, '{', i);
    LastIndexOfIsLast(s, '}', j);
    forall k | j + 1 <= k < i ensures s[k] != '{' && s[k] != '}' {
      assert s[..i][k] == s[k];
      assert s[j + 1..][k - j - 1] == s[k];
    }
  }

  /** Slicing a second time changes nothing, in all three cases. */
  lemma SliceIdempotent(s: string)
    ensures SliceBraces(SliceBraces(s)) == SliceBraces(s)
  {
    var first, last := IndexOf(s, '{'), LastIndexOf(s, '}');
    if first != -1 && last != -1 {
      if first < last {
        SliceSpan(s, first, last);
        var r := s[first..last + 1];
        forall k | 0 <= k < first ensures s[k] != '{' { assert s[..first][k] == s[k]; }
        forall k | last < k < |s| ensures s[k] != '}' { assert s[last + 1..][k - last - 1] == s[k]; }
        SliceSpan(r, 0, last - first);
      } else {
        SliceReversed(s, first, last);
      }
    }
  }

  // ---------------------------------------------------------------------
  // Properties of the whole repair.

  /** Repairing already repaired text changes nothing. */
  lemma RepairIdempotent(s: string)
    ensures Repair(Repair(s)) == Repair(s)
  {
    var r := Repair(s);
    RemoveAllAbsent(r, Fence);
    forall i ensures !OccursAt(r, JsonFence, i) {
      if 0 <= i && i + 7 <= |r| {
        assert r[i..i + 7][..3] == r[i..i + 3];
        assert !OccursAt(r, Fence, i);
      }
    }
    RemoveAllAbsent(r, JsonFence);
    assert StripFences(r) == r;
    SliceIdempotent(StripFences(s));
  }

  /**
    Wrapping backtick-free text in a "```json" ... "```" fence does not
    change what the repair yields.
  */
  lemma FenceInsensitive(x: string)
    requires '`' !in x
    ensures Repair(JsonFence + x + Fence) == Repair(x)
  {
    var s := JsonFence + x + Fence;
    assert s[..7] == JsonFence;
    assert s[7..] == x + Fence;
    RemoveAllSkipsPrefix(x, Fence, JsonFence);
    assert RemoveAll(s, JsonFence) == x + Fence;
    RemoveAllSkipsPrefix(x, Fence, Fence);
    assert RemoveAll(Fence, Fence) == [];
    RemoveAllSkipsPrefix(x, [], JsonFence);
    RemoveAllSkipsPrefix(x, [], Fence);
    assert x + [] == x;
    assert StripFences(s) == x == StripFences(x);
  }

  /**
    Prose before and after a single object, with no fence characters, is
    cut away and exactly the object is left.
  */
  lemma IsolatesObject(before: string, obj: string, after: string)
    requires |obj| >= 2 && obj[0] == '{' && obj[|obj| - 1] == '}'
    requires '{' !in before && '}' !in after
    requires '`' !in before + obj + after
    ensures Repair(before + obj + after) == obj
  {
    var s := before + obj + after;
    RemoveAllSkipsPrefix(s, [], JsonFence);
    RemoveAllSkipsPrefix(s, [], Fence);
    assert s + [] == s;
    assert StripFences(s) == s;
    var i, j := |before|, |before| + |obj| - 1;
    assert s[..i] == before;
    assert s[j + 1..] == after;
    SliceSpan(s, i, j);
    assert s[i..j + 1] == obj;
  }
}
