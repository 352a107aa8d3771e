/**
 The comparable strings of the payment rules (`text`, `key` and `iban` at the head of every rule
 file) and the string operations they are made of. The alphabet is ASCII-like: the only
 whitespace is the space and the only letters with two cases are a-z.
 */
module Text {

  datatype Option<+T> = None | Some(value: T)

  /** A value of a source row or of an instance, already passed through `str`; None is absent. */
  type Field = Option<string>

  function UpperChar(c: char): char {
    if 'a' <= c <= 'z' then (c as int - 32) as char else c
  }

  function Upper(s: string): (r: string)
    ensures |r| == |s|
  {
    if s == "" then "" else [UpperChar(s[0])] + Upper(s[1..])
  }

  function LowerChar(c: char): char {
    if 'A' <= c <= 'Z' then (c as int + 32) as char else c
  }

  function Lower(s: string): (r: string)
    ensures |r| == |s|
  {
    if s == "" then "" else [LowerChar(s[0])] + Lower(s[1..])
  }

  /** `s.replace(c, "")` for every c of `drop`. */
  function Without(s: string, drop: set<char>): string {
    if s == "" then "" else (if s[0] in drop then "" else [s[0]]) + Without(s[1..], drop)
  }

  function StripLeft(s: string): string {
    if s != "" && s[0] == ' ' then StripLeft(s[1..]) else s
  }

  function StripRight(s: string): string {
    if s != "" && s[|s| - 1] == ' ' then StripRight(s[..|s| - 1]) else s
  }

  /** `s.strip()` */
  function Strip(s: string): string {
    StripRight(StripLeft(s))
  }

  function TextOf(value: Field): string {
    if value.None? then "" else Strip(value.value)
  }

  predicate Empty(value: Field) {
    TextOf(value) == ""
  }

  /** NIFs and order references compare uppercase, without separators. */
  function Key(value: Field): string {
    Without(Upper(TextOf(value)), {' ', '-', '.'})
  }

  function Iban(value: Field): string {
    Without(Upper(TextOf(value)), {' '})
  }

  // ----- how the operations meet concatenation

  lemma {:induction false} WithoutConcat(a: string, b: string, drop: set<char>)
    ensures Without(a + b, drop) == Without(a, drop) + Without(b, drop)
  {
    if a == "" {
      assert a + b == b;
    } else {
      assert (a + b)[1..] == a[1..] + b;
      WithoutConcat(a[1..], b, drop);
    }
  }

  lemma {:induction false} WithoutNothing(s: string, drop: set<char>)
    requires forall c :: c in s ==> c !in drop
    ensures Without(s, drop) == s
  {
    if s != "" {
      WithoutNothing(s[1..], drop);
    }
  }

  lemma {:induction false} UpperConcat(a: string, b: string)
    ensures Upper(a + b) == Upper(a) + Upper(b)
  {
    if a == "" {
      assert a + b == b;
    } else {
      assert (a + b)[1..] == a[1..] + b;
      UpperConcat(a[1..], b);
    }
  }

  lemma {:induction false} UpperAt(s: string, i: nat)
    requires i < |s|
    ensures Upper(s)[i] == UpperChar(s[i])
  {
    if i > 0 {
      UpperAt(s[1..], i - 1);
    }
  }

  lemma {:induction false} LowerConcat(a: string, b: string)
    ensures Lower(a + b) == Lower(a) + Lower(b)
  {
    if a == "" {
      assert a + b == b;
    } else {
      assert (a + b)[1..] == a[1..] + b;
      LowerConcat(a[1..], b);
    }
  }

  lemma {:induction false} StripLeftDropsSpaces(s: string, drop: set<char>)
    requires ' ' in drop
    ensures Without(Upper(StripLeft(s)), drop) == Without(Upper(s), drop)
  {
    if s != "" && s[0] == ' ' {
      StripLeftDropsSpaces(s[1..], drop);
      assert Upper(s)[1..] == Upper(s[1..]);
    }
  }

  lemma {:induction false} StripRightDropsSpaces(s: string, drop: set<char>)
    requires ' ' in drop
    ensures Without(Upper(StripRight(s)), drop) == Without(Upper(s), drop)
  {
    if s != "" && s[|s| - 1] == ' ' {
      var front := s[..|s| - 1];
      StripRightDropsSpaces(front, drop);
      assert s == front + " ";
      UpperConcat(front, " ");
      WithoutConcat(Upper(front), Upper(" "), drop);
    }
  }

  /** The strip that opens `key` is absorbed by the removal of spaces. */
  lemma {:induction false} KeyIgnoresStrip(s: string)
    ensures Key(Some(s)) == Without(Upper(s), {' ', '-', '.'})
  {
    StripRightDropsSpaces(StripLeft(s), {' ', '-', '.'});
    StripLeftDropsSpaces(s, {' ', '-', '.'});
  }

  /** On this alphabet `key` is a homomorphism: the key of a text is the text of its keys. */
  lemma {:induction false} KeyConcat(a: string, b: string)
    ensures Key(Some(a + b)) == Key(Some(a)) + Key(Some(b))
  {
    KeyIgnoresStrip(a);
    KeyIgnoresStrip(b);
    KeyIgnoresStrip(a + b);
    UpperConcat(a, b);
    WithoutConcat(Upper(a), Upper(b), {' ', '-', '.'});
  }

  // ----- `s.split(c)`

  function Split(s: string, c: char): (parts: seq<string>)
    ensures |parts| >= 1
  {
    if s == "" then [""]
    else
      var parts := Split(s[1..], c);
      if s[0] == c then [""] + parts else [[s[0]] + parts[0]] + parts[1..]
  }

  predicate Lacks(s: string, c: char) {
    forall i :: 0 <= i < |s| ==> s[i] != c
  }

  lemma {:induction false} SplitNothing(s: string, c: char)
    requires Lacks(s, c)
    ensures Split(s, c) == [s]
  {
    if s != "" {
      SplitNothing(s[1..], c);
      assert s == [s[0]] + s[1..];
    }
  }

  lemma {:induction false} SplitFirst(a: string, c: char, rest: string)
    requires Lacks(a, c)
    ensures Split(a + [c] + rest, c) == [a] + Split(rest, c)
  {
    var s := a + [c] + rest;
    if a == "" {
      assert s[1..] == rest;
    } else {
      assert s[1..] == a[1..] + [c] + rest;
      SplitFirst(a[1..], c, rest);
      assert a == [a[0]] + a[1..];
    }
  }

  lemma {:induction false} SplitThree(a: string, b: string, d: string, c: char)
    requires Lacks(a, c) && Lacks(b, c) && Lacks(d, c)
    ensures Split(a + [c] + b + [c] + d, c) == [a, b, d]
  {
    assert a + [c] + b + [c] + d == a + [c] + (b + [c] + d);
    SplitFirst(a, c, b + [c] + d);
    SplitFirst(b, c, d);
    SplitNothing(d, c);
  }

  /** A split put together again. */
  function Joined(parts: seq<string>, c: char): string
    requires parts != []
  {
    if |parts| == 1 then parts[0] else parts[0] + [c] + Joined(parts[1..], c)
  }

  lemma {:induction false} SplitJoins(s: string, c: char)
    ensures Joined(Split(s, c), c) == s
  {
    if s != "" {
      var rest := Split(s[1..], c);
      SplitJoins(s[1..], c);
      assert s == [s[0]] + s[1..];
      if s[0] == c {
        assert ([""] + rest)[1..] == rest;
      } else {
        var parts := [[s[0]] + rest[0]] + rest[1..];
        assert parts[1..] == rest[1..];
      }
    }
  }

  /** No part of a split contains the separator: with SplitJoins, there is no other way to split. */
  lemma {:induction false} PartsLack(s: string, c: char)
    ensures forall i :: 0 <= i < |Split(s, c)| ==> Lacks(Split(s, c)[i], c)
  {
    if s != "" {
      PartsLack(s[1..], c);
    }
  }

  // ----- letters, spaces and separators, one character at a time

  const SMALL := "abcdefghijklmnopqrstuvwxyz"
  const CAPITALS := "ABCDEFGHIJKLMNOPQRSTUVWXYZ"

  predicate IsSmall(c: char) {
    'a' <= c <= 'z'
  }

  predicate IsCapital(c: char) {
    'A' <= c <= 'Z'
  }

  /** A small letter and its capital. */
  predicate LetterPair(small: char, capital: char) {
    exists k :: 0 <= k < 26 && small == SMALL[k] && capital == CAPITALS[k]
  }

  lemma {:induction false} AlphabetAt(k: nat)
    requires k < 26
    ensures SMALL[k] as int == 'a' as int + k && CAPITALS[k] as int == 'A' as int + k
  {
  }

  /** Upper and lower case exchange the letters of the two alphabets and leave the rest. */
  lemma {:induction false} CaseOfLetters(c: char)
    ensures IsSmall(c) ==> LetterPair(c, UpperChar(c)) && LowerChar(c) == c
    ensures IsCapital(c) ==> LetterPair(LowerChar(c), c) && UpperChar(c) == c
    ensures !IsSmall(c) && !IsCapital(c) ==> UpperChar(c) == c && LowerChar(c) == c
  {
    if IsSmall(c) {
      AlphabetAt(c as int - 'a' as int);
    } else if IsCapital(c) {
      AlphabetAt(c as int - 'A' as int);
    }
  }

  lemma {:induction false} PairedLetters(small: char, capital: char)
    requires LetterPair(small, capital)
    ensures IsSmall(small) && IsCapital(capital)
    ensures UpperChar(small) == capital && LowerChar(capital) == small
  {
    var k :| 0 <= k < 26 && small == SMALL[k] && capital == CAPITALS[k];
    AlphabetAt(k);
  }

  lemma {:induction false} LowerAt(s: string, i: nat)
    requires i < |s|
    ensures Lower(s)[i] == LowerChar(s[i])
  {
    if i > 0 {
      LowerAt(s[1..], i - 1);
    }
  }

  predicate AllBlank(s: string) {
    forall i :: 0 <= i < |s| ==> s[i] == ' '
  }

  lemma {:induction false} StripLeftIs(s: string) returns (before: string)
    ensures AllBlank(before) && s == before + StripLeft(s)
    ensures StripLeft(s) != "" ==> StripLeft(s)[0] != ' '
  {
    if s != "" && s[0] == ' ' {
      var rest := StripLeftIs(s[1..]);
      before := " " + rest;
      assert s == " " + s[1..];
    } else {
      before := "";
    }
  }

  lemma {:induction false} StripRightIs(s: string) returns (after: string)
    ensures AllBlank(after) && s == StripRight(s) + after
    ensures StripRight(s) != "" ==> StripRight(s)[|StripRight(s)| - 1] != ' '
  {
    if s != "" && s[|s| - 1] == ' ' {
      var rest := StripRightIs(s[..|s| - 1]);
      after := rest + " ";
      assert s == s[..|s| - 1] + " ";
    } else {
      after := "";
    }
  }

  /** What is stripped are the spaces at both ends, all of them and nothing else. */
  lemma {:induction false} StripIs(s: string) returns (before: string, after: string)
    ensures AllBlank(before) && AllBlank(after) && s == before + Strip(s) + after
    ensures Strip(s) != "" ==> Strip(s)[0] != ' ' && Strip(s)[|Strip(s)| - 1] != ' '
  {
    before := StripLeftIs(s);
    after := StripRightIs(StripLeft(s));
  }

  lemma {:induction false} BlankStrips(s: string)
    requires AllBlank(s)
    ensures Strip(s) == ""
  {
    if s != "" {
      BlankStrips(s[1..]);
      assert StripLeft(s) == StripLeft(s[1..]);
    }
  }

  /** The comparable text of a value: what stands between the spaces at its ends, and nothing for an
      absent value or one of spaces only. */
  lemma {:induction false} TextOfIs(s: string) returns (before: string, after: string)
    ensures AllBlank(before) && AllBlank(after) && s == before + TextOf(Some(s)) + after
    ensures var t := TextOf(Some(s)); t != "" ==> t[0] != ' ' && t[|t| - 1] != ' '
    ensures TextOf(None) == ""
    ensures Empty(None) && (Empty(Some(s)) <==> AllBlank(s))
  {
    before, after := StripIs(s);
    if AllBlank(s) {
      BlankStrips(s);
    }
    assert TextOf(Some(s)) == "" ==> s == before + after;
  }

  /** `key` of one character: with KeyConcat, of any text. */
  lemma {:induction false} KeyOfOne(c: char)
    ensures Key(Some([c])) == if c == ' ' || c == '-' || c == '.' then "" else [UpperChar(c)]
  {
    KeyIgnoresStrip([c]);
    CaseOfLetters(c);
    OneCharacter(c, {' ', '-', '.'});
  }

  lemma {:induction false} OneCharacter(c: char, drop: set<char>)
    ensures Without(Upper([c]), drop) == if UpperChar(c) in drop then "" else [UpperChar(c)]
  {
    assert [c][1..] == "";
    assert Upper([c]) == [UpperChar(c)];
    assert [UpperChar(c)][1..] == "";
  }

  lemma {:induction false} IbanIgnoresStrip(s: string)
    ensures Iban(Some(s)) == Without(Upper(s), {' '})
  {
    StripRightDropsSpaces(StripLeft(s), {' '});
    StripLeftDropsSpaces(s, {' '});
  }

  /** Two accounts written together are their `iban` written together... */
  lemma {:induction false} IbanConcat(a: string, b: string)
    ensures Iban(Some(a + b)) == Iban(Some(a)) + Iban(Some(b))
  {
    IbanIgnoresStrip(a);
    IbanIgnoresStrip(b);
    IbanIgnoresStrip(a + b);
    UpperConcat(a, b);
    WithoutConcat(Upper(a), Upper(b), {' '});
  }

  /** ...and one character is dropped if it is a space and capital otherwise. */
  lemma {:induction false} IbanOfOne(c: char)
    ensures Iban(Some([c])) == if c == ' ' then "" else [UpperChar(c)]
    ensures Iban(Some("")) == ""
  {
    IbanIgnoresStrip([c]);
    CaseOfLetters(c);
    OneCharacter(c, {' '});
  }

  predicate SameLetter(c: char, d: char) {
    c == d || LetterPair(c, d) || LetterPair(d, c)
  }

  /** Two texts that differ in spaces and in the case of letters only. */
  predicate SameButSpacing(a: string, b: string)
    decreases |a| + |b|
  {
    if a != "" && a[0] == ' ' then SameButSpacing(a[1..], b)
    else if b != "" && b[0] == ' ' then SameButSpacing(a, b[1..])
    else if a == "" || b == "" then a == b
    else SameLetter(a[0], b[0]) && SameButSpacing(a[1..], b[1..])
  }

  lemma {:induction false} SameLetterIff(c: char, d: char)
    ensures SameLetter(c, d) <==> UpperChar(c) == UpperChar(d)
  {
    CaseOfLetters(c);
    CaseOfLetters(d);
    if LetterPair(c, d) {
      PairedLetters(c, d);
    }
    if LetterPair(d, c) {
      PairedLetters(d, c);
    }
  }

  lemma {:induction false} IbanOfHead(s: string)
    requires s != ""
    ensures Iban(Some(s)) == (if s[0] == ' ' then "" else [UpperChar(s[0])]) + Iban(Some(s[1..]))
  {
    assert s == [s[0]] + s[1..];
    IbanConcat([s[0]], s[1..]);
    IbanOfOne(s[0]);
  }

  /** Two accounts are one to the rules exactly when they differ in spaces and case only. */
  lemma {:induction false} SameIbanIff(a: string, b: string)
    ensures Iban(Some(a)) == Iban(Some(b)) <==> SameButSpacing(a, b)
    decreases |a| + |b|
  {
    hide Iban, SameLetter;
    IbanOfOne(' ');
    if a != "" {
      IbanOfHead(a);
    }
    if b != "" {
      IbanOfHead(b);
    }
    if a != "" && a[0] == ' ' {
      SameIbanIff(a[1..], b);
    } else if b != "" && b[0] == ' ' {
      SameIbanIff(a, b[1..]);
    } else if a != "" && b != "" {
      SameLetterIff(a[0], b[0]);
      SameIbanIff(a[1..], b[1..]);
      assert Iban(Some(a))[1..] == Iban(Some(a[1..])) && Iban(Some(b))[1..] == Iban(Some(b[1..]));
    }
  }
}
