/** Searching, counting, replacing and deleting a piece of text, as Python's byte strings do. */
module Bytes {

  predicate OccursAt(s: string, needle: string, i: nat) {
    i + |needle| <= |s| && forall k :: 0 <= k < |needle| ==> s[i + k] == needle[k]
  }

  /** `needle in s` */
  ghost predicate Contains(s: string, needle: string) {
    exists i: nat :: OccursAt(s, needle, i)
  }

  /** `s.count(needle)`: occurrences that do not overlap, from the left. */
  function Count(s: string, needle: string): nat
    requires needle != ""
  {
    if |s| < |needle| then 0
    else if OccursAt(s, needle, 0) then 1 + Count(s[|needle|..], needle)
    else Count(s[1..], needle)
  }

  /** `s.replace(needle, by, 1)` */
  function ReplaceFirst(s: string, needle: string, other: string): string
    requires needle != ""
  {
    if |s| < |needle| then s
    else if OccursAt(s, needle, 0) then other + s[|needle|..]
    else [s[0]] + ReplaceFirst(s[1..], needle, other)
  }

  /** `s.replace(needle, b"")` */
  function Delete(s: string, needle: string): string
    requires needle != ""
  {
    if |s| < |needle| then s
    else if OccursAt(s, needle, 0) then Delete(s[|needle|..], needle)
    else [s[0]] + Delete(s[1..], needle)
  }

  lemma {:induction false} OccursChar(s: string, needle: string, i: nat, k: int)
    ensures OccursAt(s, needle, i) && 0 <= k < |needle| ==> s[i + k] == needle[k]
  {
  }

  /** No occurrence of `needle` can reach over into a text that starts with `c`. */
  predicate StopsBefore(needle: string, c: char) {
    needle != "" && forall k :: 1 <= k < |needle| ==> needle[k] != c
  }

  /** An occurrence in two texts is in one of them. */
  lemma {:induction false} OccursInOne(a: string, b: string, needle: string, i: nat)
    requires b != "" && StopsBefore(needle, b[0]) && OccursAt(a + b, needle, i)
    ensures if i < |a| then OccursAt(a, needle, i) else OccursAt(b, needle, i - |a|)
  {
    OccursChar(a + b, needle, i, |a| - i);
  }

  lemma {:induction false} OccursInLonger(a: string, b: string, c: string, needle: string, i: nat)
    requires OccursAt(b, needle, i)
    ensures OccursAt(a + b + c, needle, |a| + i)
  {
  }

  lemma {:induction false} ContainsConcat(a: string, b: string, needle: string)
    requires b != "" && StopsBefore(needle, b[0])
    ensures Contains(a + b, needle) <==> Contains(a, needle) || Contains(b, needle)
  {
    if i: nat :| OccursAt(a + b, needle, i) {
      OccursInOne(a, b, needle, i);
    }
    if i: nat :| OccursAt(a, needle, i) {
      OccursInLonger("", a, b, needle, i);
      assert "" + a + b == a + b;
    }
    if i: nat :| OccursAt(b, needle, i) {
      OccursInLonger(a, b, "", needle, i);
      assert a + b + "" == a + b;
    }
  }

  lemma {:induction false} OccursLater(s: string, needle: string, n: nat, i: nat)
    requires n <= |s|
    ensures OccursAt(s[n..], needle, i) <==> OccursAt(s, needle, n + i)
  {
    if OccursAt(s, needle, n + i) {
      forall k | 0 <= k < |needle|
        ensures s[n..][i + k] == needle[k]
      {
        assert s[n + i + k] == needle[k];
      }
    }
  }

  lemma {:induction false} CountConcat(a: string, b: string, needle: string)
    requires b != "" && StopsBefore(needle, b[0])
    ensures Count(a + b, needle) == Count(a, needle) + Count(b, needle)
    decreases |a|
  {
    var s := a + b;
    if a == "" {
      assert s == b;
    } else if OccursAt(s, needle, 0) {
      OccursInOne(a, b, needle, 0);
      assert s[|needle|..] == a[|needle|..] + b;
      CountConcat(a[|needle|..], b, needle);
    } else {
      if |a| >= |needle| {
        OccursMeansPrefix(a, b, needle);
      }
      assert s[1..] == a[1..] + b;
      CountConcat(a[1..], b, needle);
      ShortHasNone(a, needle);
      if |s| < |needle| {
        ShortHasNone(s, needle);
        ShortHasNone(b, needle);
      }
    }
  }

  lemma {:induction false} OccursMeansPrefix(a: string, b: string, needle: string)
    ensures OccursAt(a, needle, 0) ==> OccursAt(a + b, needle, 0)
  {
  }

  lemma {:induction false} ShortHasNone(s: string, needle: string)
    requires needle != ""
    ensures |s| < |needle| ==> Count(s, needle) == 0
    ensures s != "" && |s| < |needle| ==> Count(s[1..], needle) == 0
  {
  }

  lemma {:induction false} CountedIsContained(s: string, needle: string)
    requires needle != ""
    ensures Count(s, needle) == 0 <==> !Contains(s, needle)
  {
    if |s| < |needle| {
    } else if OccursAt(s, needle, 0) {
    } else {
      CountedIsContained(s[1..], needle);
      if i: nat :| OccursAt(s, needle, i) {
        OccursLater(s, needle, 1, i - 1);
      }
      if i: nat :| OccursAt(s[1..], needle, i) {
        OccursLater(s, needle, 1, i);
      }
    }
  }

  /** The first occurrence splits a text that has one. */
  lemma {:induction false} FirstOccurrence(s: string, needle: string) returns (left: string, right: string)
    requires needle != "" && Count(s, needle) > 0
    ensures s == left + needle + right
  {
    if OccursAt(s, needle, 0) {
      left, right := "", s[|needle|..];
    } else {
      left, right := FirstOccurrence(s[1..], needle);
      left := [s[0]] + left;
      assert s == [s[0]] + s[1..];
    }
  }

  /** The first place of a needle in a text that has it. */
  lemma {:induction false} FirstPlace(s: string, needle: string) returns (left: string, right: string)
    requires needle != "" && Contains(s, needle)
    ensures s == left + needle + right
    ensures forall i: nat :: i < |left| ==> !OccursAt(s, needle, i)
  {
    var i: nat :| OccursAt(s, needle, i);
    i := LeastPlace(s, needle, i);
    left, right := s[..i], s[i + |needle|..];
  }

  lemma {:induction false} LeastPlace(s: string, needle: string, from: nat) returns (i: nat)
    requires OccursAt(s, needle, from)
    ensures OccursAt(s, needle, i) && forall j: nat :: j < i ==> !OccursAt(s, needle, j)
    decreases from
  {
    if j: nat :| j < from && OccursAt(s, needle, j) {
      i := LeastPlace(s, needle, j);
    } else {
      i := from;
    }
  }

  /** The first occurrence counts one, and the rest is counted after it; `replace` with a limit of one
      writes in its place. */
  lemma {:induction false} FirstCounts(left: string, needle: string, right: string, other: string)
    requires needle != ""
    requires forall i: nat :: i < |left| ==> !OccursAt(left + needle + right, needle, i)
    ensures Count(left + needle + right, needle) == 1 + Count(right, needle)
    ensures ReplaceFirst(left + needle + right, needle, other) == left + other + right
    decreases |left|
  {
    var s := left + needle + right;
    if left == "" {
      assert s == needle + right && s[|needle|..] == right;
      assert OccursAt(s, needle, 0);
      assert left + other + right == other + right;
    } else {
      assert !OccursAt(s, needle, 0);
      assert s[1..] == left[1..] + needle + right;
      forall i: nat | i < |left[1..]|
        ensures !OccursAt(left[1..] + needle + right, needle, i)
      {
        OccursLater(s, needle, 1, i);
      }
      FirstCounts(left[1..], needle, right, other);
      assert [s[0]] + (left[1..] + other + right) == left + other + right;
    }
  }

  lemma {:induction false} ReplaceAt(a: string, needle: string, right: string, other: string)
    requires needle != "" && StopsBefore(needle, needle[0]) && !Contains(a, needle)
    ensures ReplaceFirst(a + needle + right, needle, other) == a + other + right
    decreases |a|
  {
    var s := a + needle + right;
    if a == "" {
      assert OccursAt(s, needle, 0);
      assert s[|needle|..] == right;
    } else {
      assert s == a + (needle + right);
      if OccursAt(s, needle, 0) {
        OccursInOne(a, needle + right, needle, 0);
      }
      if i: nat :| OccursAt(a[1..], needle, i) {
        OccursLater(a, needle, 1, i);
      }
      assert s[1..] == a[1..] + needle + right;
      ReplaceAt(a[1..], needle, right, other);
      assert [s[0]] + (a[1..] + other + right) == a + other + right;
    }
  }

  lemma {:induction false} DeleteNothing(s: string, needle: string)
    requires needle != "" && !Contains(s, needle)
    ensures Delete(s, needle) == s
  {
    if |s| >= |needle| {
      if i: nat :| OccursAt(s[1..], needle, i) {
        OccursLater(s, needle, 1, i);
      }
      DeleteNothing(s[1..], needle);
    }
  }

  /** Deleting a text that occurs at one place only takes it out there. */
  lemma {:induction false} DeleteOnly(a: string, needle: string, b: string)
    requires needle != ""
    requires forall i: nat :: OccursAt(a + needle + b, needle, i) ==> i == |a|
    ensures Delete(a + needle + b, needle) == a + b
    decreases |a|
  {
    var s := a + needle + b;
    if a == "" {
      assert OccursAt(s, needle, 0);
      assert s[|needle|..] == b;
      if i: nat :| OccursAt(b, needle, i) {
        OccursLater(s, needle, |needle|, i);
      }
      DeleteNothing(b, needle);
      assert a + b == b;
    } else {
      assert !OccursAt(s, needle, 0);
      assert s[1..] == a[1..] + needle + b;
      forall i: nat | OccursAt(a[1..] + needle + b, needle, i)
        ensures i == |a[1..]|
      {
        OccursLater(s, needle, 1, i);
      }
      DeleteOnly(a[1..], needle, b);
      assert [s[0]] + (a[1..] + b) == a + b;
    }
  }

  /** A text without one of the needle's characters does not contain it. */
  lemma {:induction false} LacksCharacter(s: string, needle: string, at: nat)
    requires at < |needle| && forall k :: 0 <= k < |s| ==> s[k] != needle[at]
    ensures !Contains(s, needle)
  {
    forall i: nat
      ensures !OccursAt(s, needle, i)
    {
      OccursChar(s, needle, i, at);
    }
  }
}
