/**
 `differences`, the rolling-row Levenshtein distance shared by R03 and R17, against the theory it
 stands for: the full recursive table, edit scripts, and the laws of a metric.
 */
module EditDistance {

  function Min(a: nat, b: nat): nat {
    if a <= b then a else b
  }

  function Front<T>(s: seq<T>): seq<T>
    requires s != []
  {
    s[..|s| - 1]
  }

  function Last<T>(s: seq<T>): T
    requires s != []
  {
    s[|s| - 1]
  }

  /** The cost of writing `b` where `a` stands. */
  function Change(a: char, b: char): nat {
    if a != b then 1 else 0
  }

  /** The full table: the entry of every pair of prefixes. */
  function Lev(a: string, b: string): nat
    decreases |a| + |b|
  {
    if a == [] then |b|
    else if b == [] then |a|
    else
      Min(Min(Lev(Front(a), b) + 1, Lev(a, Front(b)) + 1),
          Lev(Front(a), Front(b)) + Change(Last(a), Last(b)))
  }

  /** The two-row loop. */
  method Differences(one: string, other: string) returns (edits: nat)
    ensures edits == Lev(one, other)
  {
    if one == other {
      LevSelf(one);
      return 0;
    }
    var previous: seq<nat> := seq(|other| + 1, (j: nat) => j);
    for i := 1 to |one| + 1
      invariant IsRow(previous, one[..i - 1], other)
    {
      previous := NextRow(one, other, i, previous);
    }
    assert one[..|one|] == one && other[..|other|] == other;
    return previous[|previous| - 1];
  }

  /** Row `prefix` of the table: its entries for every prefix of `other`. */
  ghost predicate IsRow(row: seq<nat>, prefix: string, other: string) {
    |row| == |other| + 1 && forall j :: 0 <= j <= |other| ==> row[j] == Lev(prefix, other[..j])
  }

  /** The inner loop: row `i` from the row before it. */
  method NextRow(one: string, other: string, i: nat, previous: seq<nat>) returns (current: seq<nat>)
    requires 1 <= i <= |one| && IsRow(previous, one[..i - 1], other)
    ensures IsRow(current, one[..i], other)
  {
    hide Lev;
    FirstColumn(one, other, i);
    current := [i];
    for j := 1 to |other| + 1
      invariant |current| == j
      invariant forall k :: 0 <= k < j ==> current[k] == Lev(one[..i], other[..k])
    {
      TableEntry(one, other, i, j);
      current := current + [Min(Min(previous[j] + 1, current[j - 1] + 1),
                                previous[j - 1] + Change(one[i - 1], other[j - 1]))];
    }
  }

  lemma {:induction false} FirstColumn(one: string, other: string, i: nat)
    requires i <= |one|
    ensures Lev(one[..i], other[..0]) == i
  {
  }

  /** One inner step of the loop is one entry of the table. */
  lemma {:induction false} TableEntry(one: string, other: string, i: nat, j: nat)
    requires 1 <= i <= |one| && 1 <= j <= |other|
    ensures Lev(one[..i], other[..j])
         == Min(Min(Lev(one[..i - 1], other[..j]) + 1, Lev(one[..i], other[..j - 1]) + 1),
                Lev(one[..i - 1], other[..j - 1]) + Change(one[i - 1], other[j - 1]))
  {
    hide Lev;
    LevUnfolds(one[..i], other[..j]);
    assert Front(one[..i]) == one[..i - 1];
    assert Front(other[..j]) == other[..j - 1];
  }

  lemma {:induction false} LevUnfolds(a: string, b: string)
    requires a != [] && b != []
    ensures Lev(a, b)
         == Min(Min(Lev(Front(a), b) + 1, Lev(a, Front(b)) + 1),
                Lev(Front(a), Front(b)) + Change(Last(a), Last(b)))
  {
  }

  // ----- bounds

  lemma {:induction false} LevSelf(a: string)
    ensures Lev(a, a) == 0
  {
    if a != [] {
      LevSelf(Front(a));
    }
  }

  lemma {:induction false} AtLeastLengthGap(a: string, b: string)
    ensures |a| <= |b| + Lev(a, b)
    ensures |b| <= |a| + Lev(a, b)
    decreases |a| + |b|
  {
    if a != [] && b != [] {
      AtLeastLengthGap(Front(a), b);
      AtLeastLengthGap(a, Front(b));
      AtLeastLengthGap(Front(a), Front(b));
    }
  }

  lemma {:induction false} AtMostLongerLength(a: string, b: string)
    ensures Lev(a, b) <= if |a| <= |b| then |b| else |a|
    decreases |a| + |b|
  {
    if a != [] && b != [] {
      AtMostLongerLength(Front(a), Front(b));
    }
  }

  /** Positions at which two texts of one length disagree. */
  function Hamming(a: string, b: string): nat
    requires |a| == |b|
  {
    if a == [] then 0 else Hamming(a[1..], b[1..]) + Change(a[0], b[0])
  }

  lemma {:induction false} HammingFromTheEnd(a: string, b: string)
    requires |a| == |b| > 0
    ensures Hamming(a, b) == Hamming(Front(a), Front(b)) + Change(Last(a), Last(b))
  {
    if |a| > 1 {
      HammingFromTheEnd(a[1..], b[1..]);
      assert Front(a)[1..] == Front(a[1..]) && Front(b)[1..] == Front(b[1..]);
    }
  }

  /** The positions at which two texts of one length disagree. */
  function Disagreeing(a: string, b: string): set<nat>
    requires |a| == |b|
  {
    set i: nat | i < |a| && a[i] != b[i]
  }

  lemma {:induction false} HammingIs(a: string, b: string)
    requires |a| == |b|
    ensures Hamming(a, b) == |Disagreeing(a, b)|
  {
    if a == [] {
      assert Disagreeing(a, b) == {};
    } else {
      HammingIs(a[1..], b[1..]);
      var rest := Disagreeing(a[1..], b[1..]);
      MovedByOne(rest);
      forall i: nat
        ensures i in Disagreeing(a, b) <==> i in Moved(rest) || (i == 0 && a[0] != b[0])
      {
        assert i > 0 ==> (i in Moved(rest) <==> i - 1 in rest);
      }
      assert Disagreeing(a, b) == Moved(rest) + if a[0] != b[0] then {0} else {};
    }
  }

  function Moved(s: set<nat>): set<nat> {
    set i | i in s :: i + 1
  }

  lemma {:induction false} MovedByOne(s: set<nat>)
    ensures |Moved(s)| == |s|
  {
    if s != {} {
      var x :| x in s;
      MovedByOne(s - {x});
      forall y: nat
        ensures y in Moved(s) <==> y in Moved(s - {x}) || y == x + 1
      {
        assert y > 0 ==> (y in Moved(s) <==> y - 1 in s) && (y in Moved(s - {x}) <==> y - 1 in s - {x});
      }
      assert Moved(s) == Moved(s - {x}) + {x + 1} && x + 1 !in Moved(s - {x});
    }
  }

  lemma {:induction false} AtMostHamming(a: string, b: string)
    requires |a| == |b|
    ensures Lev(a, b) <= Hamming(a, b)
  {
    if a != [] {
      HammingFromTheEnd(a, b);
      AtMostHamming(Front(a), Front(b));
    }
  }

  // ----- a metric

  lemma {:induction false} ZeroIffEqual(a: string, b: string)
    ensures Lev(a, b) == 0 <==> a == b
  {
    if a == b {
      LevSelf(a);
    } else if Lev(a, b) == 0 && a != [] && b != [] {
      ZeroIffEqual(Front(a), Front(b));
    }
  }

  lemma {:induction false} Symmetric(a: string, b: string)
    ensures Lev(a, b) == Lev(b, a)
    decreases |a| + |b|
  {
    if a != [] && b != [] {
      Symmetric(Front(a), b);
      Symmetric(a, Front(b));
      Symmetric(Front(a), Front(b));
    }
  }

  lemma {:induction false} Triangle(a: string, b: string, c: string)
    ensures Lev(a, c) <= Lev(a, b) + Lev(b, c)
    decreases |a| + |b| + |c|
  {
    if a == [] || b == [] || c == [] {
      AtLeastLengthGap(a, b);
      AtLeastLengthGap(b, c);
      AtMostLongerLength(a, c);
      if b == [] {
        assert Lev(a, b) + Lev(b, c) == |a| + |c|;
      }
    } else {
      Triangle(Front(a), b, c);
      Triangle(a, b, Front(c));
      Triangle(a, Front(b), c);
      Triangle(Front(a), Front(b), c);
      Triangle(a, Front(b), Front(c));
      Triangle(Front(a), Front(b), Front(c));
    }
  }

  // ----- edit scripts

  /** One single-character edit, at a position of the text it is applied to. */
  datatype Edit = Insert(at: nat, c: char) | Delete(at: nat) | Substitute(at: nat, c: char)

  predicate Fits(e: Edit, s: string) {
    if e.Insert? then e.at <= |s| else e.at < |s|
  }

  function Apply(e: Edit, s: string): string
    requires Fits(e, s)
  {
    match e
    case Insert(at, c) => s[..at] + [c] + s[at..]
    case Delete(at) => s[..at] + s[at + 1..]
    case Substitute(at, c) => s[..at] + [c] + s[at + 1..]
  }

  /** `script` applies, edit after edit, to `a` and leaves `b`. */
  predicate Turns(script: seq<Edit>, a: string, b: string) {
    if script == [] then a == b
    else Fits(script[0], a) && Turns(script[1..], Apply(script[0], a), b)
  }

  lemma {:induction false} TurnsFirst(e: Edit, rest: seq<Edit>, a: string, b: string)
    requires Fits(e, a) && Turns(rest, Apply(e, a), b)
    ensures Turns([e] + rest, a, b)
  {
    assert ([e] + rest)[1..] == rest;
  }

  lemma {:induction false} TurnsConcat(s: seq<Edit>, t: seq<Edit>, a: string, b: string, c: string)
    requires Turns(s, a, b) && Turns(t, b, c)
    ensures Turns(s + t, a, c)
  {
    hide Apply, Fits;
    if s == [] {
      assert s + t == t;
    } else {
      TurnsConcat(s[1..], t, Apply(s[0], a), b, c);
      TurnsFirst(s[0], s[1..] + t, a, c);
      assert s + t == [s[0]] + (s[1..] + t);
    }
  }

  /** A script for two prefixes still applies when both are followed by the same character. */
  lemma {:induction false} TurnsBefore(s: seq<Edit>, a: string, b: string, c: char)
    requires Turns(s, a, b)
    ensures Turns(s, a + [c], b + [c])
  {
    hide Apply, Fits;
    if s != [] {
      ApplyBefore(s[0], a, c);
      TurnsBefore(s[1..], Apply(s[0], a), b, c);
    }
  }

  lemma {:induction false} ApplyBefore(e: Edit, a: string, c: char)
    requires Fits(e, a)
    ensures Fits(e, a + [c]) && Apply(e, a + [c]) == Apply(e, a) + [c]
  {
  }

  /** One more edit at the end of a script. */
  lemma {:induction false} TurnsLast(s: seq<Edit>, e: Edit, a: string, b: string, c: string)
    requires Turns(s, a, b) && Fits(e, b) && Apply(e, b) == c
    ensures Turns(s + [e], a, c)
  {
    assert Turns([], c, c);
    TurnsFirst(e, [], b, c);
    assert [e] + [] == [e];
    TurnsConcat(s, [e], a, b, c);
  }

  /** A script as short as the distance exists. */
  lemma {:induction false} ScriptExists(a: string, b: string) returns (script: seq<Edit>)
    ensures Turns(script, a, b) && |script| == Lev(a, b)
    decreases |a| + |b|
  {
    if a == [] && b == [] {
      script := [];
    } else if b != [] && (a == [] || Lev(a, b) == Lev(a, Front(b)) + 1) {
      var s := ScriptExists(a, Front(b));
      script := EndInsertion(s, a, b);
    } else if b == [] || Lev(a, b) == Lev(Front(a), b) + 1 {
      var s := ScriptExists(Front(a), b);
      script := StartDeletion(s, a, b);
    } else {
      var s := ScriptExists(Front(a), Front(b));
      script := ChangeLast(s, a, b);
    }
  }

  lemma {:induction false} EndInsertion(s: seq<Edit>, a: string, b: string) returns (script: seq<Edit>)
    requires b != [] && Turns(s, a, Front(b))
    ensures Turns(script, a, b) && |script| == |s| + 1
  {
    var e := Insert(|b| - 1, Last(b));
    assert Apply(e, Front(b)) == b;
    TurnsLast(s, e, a, Front(b), b);
    script := s + [e];
  }

  lemma {:induction false} StartDeletion(s: seq<Edit>, a: string, b: string) returns (script: seq<Edit>)
    requires a != [] && Turns(s, Front(a), b)
    ensures Turns(script, a, b) && |script| == |s| + 1
  {
    var e := Delete(|a| - 1);
    assert Apply(e, a) == Front(a);
    TurnsFirst(e, s, a, b);
    script := [e] + s;
  }

  lemma {:induction false} ChangeLast(s: seq<Edit>, a: string, b: string) returns (script: seq<Edit>)
    requires a != [] && b != [] && Turns(s, Front(a), Front(b))
    ensures Turns(script, a, b) && |script| == |s| + Change(Last(a), Last(b))
  {
    hide Apply, Fits, Turns;
    TurnsBefore(s, Front(a), Front(b), Last(a));
    assert a == Front(a) + [Last(a)] && b == Front(b) + [Last(b)];
    if Last(a) == Last(b) {
      script := s;
    } else {
      var e := Substitute(|b| - 1, Last(b));
      SubstituteLast(Front(b), Last(a), Last(b));
      TurnsLast(s, e, a, Front(b) + [Last(a)], b);
      script := s + [e];
    }
  }

  lemma {:induction false} SubstituteLast(s: string, c: char, d: char)
    ensures Fits(Substitute(|s|, d), s + [c])
    ensures Apply(Substitute(|s|, d), s + [c]) == s + [d]
  {
  }

  /** Appending one common character never adds to the distance. */
  lemma {:induction false} LevBefore(a: string, b: string, c: char)
    ensures Lev(a + [c], b + [c]) <= Lev(a, b)
  {
    assert Front(a + [c]) == a && Front(b + [c]) == b;
  }

  lemma {:induction false} LevCommonTail(a: string, b: string, tail: string)
    ensures Lev(a + tail, b + tail) <= Lev(a, b)
  {
    hide Lev;
    if tail == [] {
      assert a + tail == a && b + tail == b;
    } else {
      LevCommonTail(a, b, Front(tail));
      LevBefore(a + Front(tail), b + Front(tail), Last(tail));
      assert a + tail == a + Front(tail) + [Last(tail)];
      assert b + tail == b + Front(tail) + [Last(tail)];
    }
  }

  lemma {:induction false} LevOneStep(a: string, b: string)
    ensures b != [] ==> Lev(a, b) <= Lev(a, Front(b)) + 1
    ensures a != [] ==> Lev(a, b) <= Lev(Front(a), b) + 1
    ensures a != [] && b != [] ==> Lev(a, b) <= Lev(Front(a), Front(b)) + 1
  {
  }

  /** Between a common head and a common tail, at most one character on each side. */
  lemma {:induction false} MiddleMovesByOne(head: string, x: string, y: string, tail: string)
    requires |x| <= 1 && |y| <= 1
    ensures Lev(head + x + tail, head + y + tail) <= 1
  {
    hide Lev;
    LevSelf(head);
    LevCommonTail(head + x, head + y, tail);
    LevOneStep(head + x, head + y);
    if x == [] && y == [] {
      assert head + x == head && head + y == head;
    } else if x == [] {
      assert head + x == head && Front(head + y) == head;
    } else if y == [] {
      assert head + y == head && Front(head + x) == head;
    } else {
      assert Front(head + x) == head && Front(head + y) == head;
    }
  }

  /** A single edit moves a text by at most one. */
  lemma {:induction false} EditMovesByOne(e: Edit, a: string)
    requires Fits(e, a)
    ensures Lev(a, Apply(e, a)) <= 1
  {
    var at := e.at;
    var x := if e.Insert? then [] else [a[at]];
    var y := if e.Delete? then [] else [e.c];
    var tail := if e.Insert? then a[at..] else a[at + 1..];
    assert a == a[..at] + x + tail;
    assert Apply(e, a) == a[..at] + y + tail;
    MiddleMovesByOne(a[..at], x, y, tail);
  }

  /** No script is shorter than the distance. */
  lemma {:induction false} NoShorterScript(script: seq<Edit>, a: string, b: string)
    requires Turns(script, a, b)
    ensures Lev(a, b) <= |script|
  {
    if script == [] {
      LevSelf(a);
    } else {
      var next := Apply(script[0], a);
      NoShorterScript(script[1..], next, b);
      EditMovesByOne(script[0], a);
      Triangle(a, next, b);
    }
  }

  /** `differences` is exactly the least number of single-character edits: some script of that
      length turns `a` into `b`, and a shorter one never does. */
  lemma {:induction false} DistanceIsLeastScript(a: string, b: string, n: nat)
    ensures n == Lev(a, b) <==>
            && (exists s :: Turns(s, a, b) && |s| == n)
            && (forall s :: Turns(s, a, b) ==> n <= |s|)
  {
    var least := ScriptExists(a, b);
    forall s | Turns(s, a, b)
      ensures Lev(a, b) <= |s|
    {
      NoShorterScript(s, a, b);
    }
  }
}
