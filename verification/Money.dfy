/**
 `money` of `backend/app/common/normalization.py`: a printed amount becomes a canonical decimal with
 two places, or is refused when its separators could be read in two ways.
 */
module Money {
  import opened Text
  import opened Numerals

  datatype Result = Ok(amount: string) | Invalid

  // ----- the parser

  /** `re.sub(r"[^\S\n]+", " ", value)` on an alphabet whose only whitespace is the space. */
  function Squeeze(s: string): string {
    if |s| < 2 then s
    else if s[0] == ' ' && s[1] == ' ' then Squeeze(s[1..])
    else [s[0]] + Squeeze(s[1..])
  }

  function CleanText(s: string): string {
    Strip(Squeeze(s))
  }

  const MINUS_SIGN: char := '\U{2212}'

  /** `value.replace(MINUS_SIGN, "-")` */
  function PlainMinus(s: string): string {
    if s == "" then "" else [if s[0] == MINUS_SIGN then '-' else s[0]] + PlainMinus(s[1..])
  }

  predicate IsSymbol(c: char) {
    c == '\U{20AC}' || c == '$' || c == '\U{A3}'
  }

  predicate IsCode(s: string) {
    Upper(s) == "EUR" || Upper(s) == "USD" || Upper(s) == "GBP"
  }

  /** `re.sub(r"(?i)EUR|USD|GBP|[...]", "", value)`: codes in any case, and currency symbols. */
  function WithoutMarks(s: string): string {
    if s == "" then ""
    else if |s| >= 3 && IsCode(s[..3]) then WithoutMarks(s[3..])
    else if IsSymbol(s[0]) then WithoutMarks(s[1..])
    else [s[0]] + WithoutMarks(s[1..])
  }

  /** Accounting parentheses are a minus. */
  function Unparenthesised(s: string): string {
    if |s| >= 2 && s[0] == '(' && s[|s| - 1] == ')' then "-" + s[1..|s| - 1] else s
  }

  predicate IsSign(c: char) {
    c == '+' || c == '-'
  }

  predicate InAmount(c: char) {
    IsDigit(c) || c == '.' || c == ','
  }

  /** `\d[\d.,]*` */
  predicate IsBody(s: string) {
    s != "" && IsDigit(s[0]) && forall i :: 0 <= i < |s| ==> InAmount(s[i])
  }

  function Unsigned(s: string): string {
    if s != "" && IsSign(s[0]) then s[1..] else s
  }

  /** `s.rfind(c)` */
  function LastOf(s: string, c: char): (i: int)
    ensures -1 <= i < |s|
    ensures i >= 0 ==> s[i] == c
    ensures forall j :: i < j < |s| ==> s[j] != c
  {
    if s == "" then -1 else if s[|s| - 1] == c then |s| - 1 else LastOf(s[..|s| - 1], c)
  }

  predicate IsHead(s: string) {
    1 <= |s| <= 3 && AllDigits(s)
  }

  /** `\d{1,3}(?:sep\d{3})+` */
  predicate IsGrouped(s: string, sep: char) {
    && |s| >= 5
    && s[|s| - 4] == sep && AllDigits(s[|s| - 3..])
    && (IsHead(s[..|s| - 4]) || IsGrouped(s[..|s| - 4], sep))
  }

  /** The digits before and after the decimal separator, or Ambiguous when the separators do not say
      which one it is. */
  datatype Parts = Ambiguous | Parts(whole: string, fraction: string)

  function Split(body: string): Parts {
    if ',' in body && '.' in body then
      var decimal := if LastOf(body, ',') > LastOf(body, '.') then ',' else '.';
      var thousands := if decimal == ',' then '.' else ',';
      var at := LastOf(body, decimal);
      var left, right := body[..at], body[at + 1..];
      if IsGrouped(left, thousands) && |right| == 2 then Parts(Without(left, {thousands}), right)
      else Ambiguous
    else if ',' in body || '.' in body then
      var sep := if ',' in body then ',' else '.';
      var at := LastOf(body, sep);
      var left, right := body[..at], body[at + 1..];
      if sep !in left && 1 <= |right| <= 2 then Parts(left, right) else Ambiguous
    else Parts(body, "")
  }

  function Trim(s: string): string {
    if |s| > 1 && s[0] == '0' then Trim(s[1..]) else s
  }

  /** `format(Decimal(...).quantize(Decimal("0.01")), "f")`; a coefficient of more than 28 digits is
      an invalid operation of the decimal context. */
  function Quantized(sign: string, whole: string, fraction: string): Result
    requires |fraction| <= 2
  {
    var coefficient := Trim(whole + fraction + Zeros(2 - |fraction|));
    if |coefficient| > 28 then Invalid
    else
      var padded := if |coefficient| < 3 then Zeros(3 - |coefficient|) + coefficient else coefficient;
      Ok(sign + padded[..|padded| - 2] + "." + padded[|padded| - 2..])
  }

  function ReadBody(sign: string, body: string): Result {
    match Split(body)
    case Ambiguous => Invalid
    case Parts(whole, fraction) => Quantized(sign, whole, fraction)
  }

  function Money(value: string): Result {
    var value := PlainMinus(CleanText(value));
    var value := Strip(WithoutMarks(value));
    var value := Without(Unparenthesised(value), {' '});
    if !IsBody(Unsigned(value)) then Invalid
    else ReadBody(if value[0] == '-' then "-" else "", Unsigned(value))
  }

  // ----- printing

  /** Digits in threes from the right. */
  function Grouped(digits: string, sep: char): string {
    if |digits| <= 3 then digits
    else Grouped(digits[..|digits| - 3], sep) + [sep] + digits[|digits| - 3..]
  }

  datatype Notation = SPANISH | ENGLISH | COMMA | POINT

  /** The amount of `n` cents, printed. */
  function Body(n: nat, notation: Notation): string {
    match notation
    case SPANISH => Grouped(Digits(n / 100), '.') + "," + Pad(n % 100, 2)
    case ENGLISH => Grouped(Digits(n / 100), ',') + "." + Pad(n % 100, 2)
    case COMMA => Digits(n / 100) + "," + Pad(n % 100, 2)
    case POINT => Digits(n / 100) + "." + Pad(n % 100, 2)
  }

  /** How a sign is printed; the last three are a minus. */
  datatype Sign = UNSIGNED | PLUS | HYPHEN | MINUS | PARENTHESES

  predicate Owes(sign: Sign) {
    sign == HYPHEN || sign == MINUS || sign == PARENTHESES
  }

  /** Where the currency mark stands: outside the sign or the parentheses, or between them and the
      digits. */
  datatype Place = NOWHERE | BEFORE | AFTER | INNER_BEFORE | INNER_AFTER

  /** How an invoice dresses an amount: its sign and its currency mark. */
  datatype Dress = Dress(sign: Sign, place: Place, mark: string, spaced: bool)

  predicate IsMark(mark: string) {
    || mark == ['\U{20AC}'] || mark == "$" || mark == ['\U{A3}']
    || Upper(mark) == "EUR" || Upper(mark) == "USD" || Upper(mark) == "GBP"
  }

  function Signed(body: string, sign: Sign): string {
    match sign
    case UNSIGNED => body
    case PLUS => "+" + body
    case HYPHEN => "-" + body
    case MINUS => [MINUS_SIGN] + body
    case PARENTHESES => "(" + body + ")"
  }

  function Dressed(body: string, dress: Dress): string {
    var gap := if dress.spaced then " " else "";
    var core := Signed(body, dress.sign);
    match dress.place
    case NOWHERE => core
    case BEFORE => dress.mark + gap + core
    case AFTER => core + gap + dress.mark
    case INNER_BEFORE => Signed(dress.mark + gap + body, dress.sign)
    case INNER_AFTER => Signed(body + gap + dress.mark, dress.sign)
  }

  function Canonical(negative: bool, n: nat): string {
    (if negative then "-" else "") + Body(n, POINT)
  }

  // ----- reading what was printed: the dress comes off

  /** Characters of a printed number and its sign: none of them is a space or starts a mark. */
  predicate InCore(c: char) {
    InAmount(c) || c == '-' || c == '+' || c == MINUS_SIGN || c == '(' || c == ')'
  }

  predicate AllCore(s: string) {
    forall i :: 0 <= i < |s| ==> InCore(s[i])
  }

  predicate Spaceless(s: string) {
    forall i :: 0 <= i < |s| ==> s[i] != ' '
  }

  predicate SingleSpaces(s: string) {
    forall i :: 0 < i < |s| ==> s[i - 1] != ' ' || s[i] != ' '
  }

  lemma {:induction false} SqueezeNothing(s: string)
    requires SingleSpaces(s)
    ensures Squeeze(s) == s
  {
    if |s| >= 2 {
      assert s[1] != ' ' || s[0] != ' ';
      assert SingleSpaces(s[1..]) by {
        forall i | 0 < i < |s[1..]|
          ensures s[1..][i - 1] != ' ' || s[1..][i] != ' '
        {
          assert s[i + 1 - 1] != ' ' || s[i + 1] != ' ';
        }
      }
      SqueezeNothing(s[1..]);
    }
  }

  lemma {:induction false} StripNothing(s: string)
    requires s != "" && s[0] != ' ' && s[|s| - 1] != ' '
    ensures Strip(s) == s
  {
  }

  lemma {:induction false} StripOne(s: string)
    requires s != "" && s[0] != ' ' && s[|s| - 1] != ' '
    ensures Strip(" " + s) == s && Strip(s + " ") == s
  {
    assert StripLeft(" " + s) == StripLeft((" " + s)[1..]) == StripLeft(s);
    assert StripLeft(s + " ") == s + " ";
    assert (s + " ")[..|s + " "| - 1] == s;
  }

  lemma {:induction false} MarksAfterCore(core: string, rest: string)
    requires forall i :: 0 <= i < |core| ==> InCore(core[i]) || core[i] == ' '
    ensures WithoutMarks(core + rest) == core + WithoutMarks(rest)
  {
    if core == "" {
      assert core + rest == rest;
    } else {
      var s := core + rest;
      assert s[1..] == core[1..] + rest;
      if |s| >= 3 {
        NoCodeStartsInCore(s[..3]);
      }
      MarksAfterCore(core[1..], rest);
    }
  }

  lemma {:induction false} NoCodeStartsInCore(s: string)
    requires |s| == 3 && (InCore(s[0]) || s[0] == ' ')
    ensures !IsCode(s)
  {
    UpperAt(s, 0);
    assert Upper(s)[0] == UpperChar(s[0]);
  }

  lemma {:induction false} MarkComesOff(mark: string, rest: string)
    requires IsMark(mark)
    ensures WithoutMarks(mark + rest) == WithoutMarks(rest)
  {
    var s := mark + rest;
    if |mark| == 1 {
      assert s[0] == mark[0] && s[1..] == rest;
      if |s| >= 3 {
        UpperAt(s[..3], 0);
      }
    } else {
      assert s[..3] == mark && s[3..] == rest;
    }
  }

  lemma {:induction false} MarkIsPlain(mark: string)
    requires IsMark(mark)
    ensures Spaceless(mark) && mark != "" && PlainMinus(mark) == mark
  {
    if |mark| == 3 {
      forall i | 0 <= i < 3
        ensures mark[i] != ' ' && mark[i] != MINUS_SIGN
      {
        UpperAt(mark, i);
      }
    }
    PlainMinusNothing(mark);
  }

  lemma {:induction false} PlainMinusConcat(a: string, b: string)
    ensures PlainMinus(a + b) == PlainMinus(a) + PlainMinus(b)
  {
    if a == "" {
      assert a + b == b;
    } else {
      assert (a + b)[1..] == a[1..] + b;
      PlainMinusConcat(a[1..], b);
    }
  }

  lemma {:induction false} PlainMinusNothing(s: string)
    requires forall i :: 0 <= i < |s| ==> s[i] != MINUS_SIGN
    ensures PlainMinus(s) == s
  {
    if s != "" {
      PlainMinusNothing(s[1..]);
    }
  }

  lemma {:induction false} PlainCore(core: string)
    requires AllCore(core)
    ensures |PlainMinus(core)| == |core| && AllCore(PlainMinus(core))
  {
    if core != "" {
      PlainCore(core[1..]);
    }
  }

  lemma {:induction false} CleanDressed(a: string, gap: string, b: string)
    requires a != "" && b != "" && (gap == "" || gap == " ") && Spaceless(a) && Spaceless(b)
    ensures CleanText(a + gap + b) == a + gap + b
  {
    var s := a + gap + b;
    assert forall i :: 0 <= i < |s| ==>
      s[i] == if i < |a| then a[i] else if i < |a| + |gap| then ' ' else b[i - |a| - |gap|];
    SqueezeNothing(s);
    StripNothing(s);
  }

  lemma {:induction false} CleanUnchanged(s: string)
    requires s != "" && Spaceless(s)
    ensures CleanText(s) == s
  {
    SqueezeNothing(s);
    StripNothing(s);
  }

  // ----- words and the spaces between them

  function Blanks(n: nat): (s: string)
    ensures |s| == n && forall i :: 0 <= i < n ==> s[i] == ' '
  {
    seq(n, _ => ' ')
  }

  /** The words, each followed by so many spaces. */
  function Spaced(words: seq<string>, gaps: seq<nat>): string
    requires |words| == |gaps|
  {
    if words == [] then "" else words[0] + Blanks(gaps[0]) + Spaced(words[1..], gaps[1..])
  }

  function SingleSpaced(words: seq<string>): string {
    if words == [] then ""
    else if |words| == 1 then words[0]
    else words[0] + " " + SingleSpaced(words[1..])
  }

  /** Words without spaces, and at least one space between any two. */
  predicate WellSpaced(words: seq<string>, gaps: seq<nat>) {
    && |words| == |gaps|
    && (forall i :: 0 <= i < |words| ==> words[i] != "" && Spaceless(words[i]))
    && (forall i :: 0 <= i < |words| - 1 ==> gaps[i] > 0)
  }

  lemma {:induction false} SqueezeWord(word: string, rest: string)
    requires Spaceless(word)
    ensures Squeeze(word + rest) == word + Squeeze(rest)
  {
    if word == "" {
      assert word + rest == rest;
    } else {
      assert (word + rest)[1..] == word[1..] + rest;
      SqueezeWord(word[1..], rest);
    }
  }

  lemma {:induction false} SqueezeBlanks(n: nat, rest: string)
    requires rest == "" || rest[0] != ' '
    ensures Squeeze(Blanks(n) + rest) == (if n > 0 then " " else "") + Squeeze(rest)
  {
    var s := Blanks(n) + rest;
    if n == 0 {
      assert s == rest;
    } else {
      assert s[1..] == Blanks(n - 1) + rest;
      SqueezeBlanks(n - 1, rest);
    }
  }

  lemma {:induction false} SqueezeSpaced(words: seq<string>, gaps: seq<nat>)
    requires words != [] && WellSpaced(words, gaps)
    ensures Spaced(words, gaps) != "" && Spaced(words, gaps)[0] != ' '
    ensures Squeeze(Spaced(words, gaps))
         == SingleSpaced(words) + if gaps[|gaps| - 1] > 0 then " " else ""
  {
    hide Squeeze;
    var rest := Spaced(words[1..], gaps[1..]);
    if |words| > 1 {
      SqueezeSpaced(words[1..], gaps[1..]);
    } else {
      NothingToSqueeze();
    }
    assert Spaced(words, gaps) == words[0] + (Blanks(gaps[0]) + rest);
    SqueezeWord(words[0], Blanks(gaps[0]) + rest);
    SqueezeBlanks(gaps[0], rest);
  }

  lemma {:induction false} NothingToSqueeze()
    ensures Squeeze("") == ""
  {
  }

  lemma {:induction false} SingleSpacedEnds(words: seq<string>)
    requires words != [] && forall i :: 0 <= i < |words| ==> words[i] != "" && Spaceless(words[i])
    ensures var s := SingleSpaced(words); s != "" && s[0] != ' ' && s[|s| - 1] != ' '
  {
    if |words| > 1 {
      SingleSpacedEnds(words[1..]);
    }
  }

  /** `clean_text` leaves words with single spaces between them, however they were spaced. */
  lemma {:induction false} CleanSpaced(lead: nat, words: seq<string>, gaps: seq<nat>)
    requires words != [] && WellSpaced(words, gaps)
    ensures CleanText(Blanks(lead) + Spaced(words, gaps)) == SingleSpaced(words)
  {
    hide Squeeze, Strip;
    SqueezeSpaced(words, gaps);
    SqueezeBlanks(lead, Spaced(words, gaps));
    SingleSpacedEnds(words);
    var s := SingleSpaced(words);
    StripEnds(if lead > 0 then " " else "", s, if gaps[|gaps| - 1] > 0 then " " else "");
  }

  lemma {:induction false} StripEnds(before: string, s: string, after: string)
    requires before in {"", " "} && after in {"", " "}
    requires s != "" && s[0] != ' ' && s[|s| - 1] != ' '
    ensures Strip(before + (s + after)) == s
  {
    var rest := s + after;
    assert StripLeft(before + rest) == rest by {
      if before == " " {
        assert (before + rest)[1..] == rest;
      } else {
        assert before + rest == rest;
      }
    }
    if after == " " {
      assert rest[..|rest| - 1] == s && StripRight(rest) == StripRight(s);
    } else {
      assert rest == s;
    }
  }

  lemma {:induction false} NothingRemoved(core: string)
    requires AllCore(core)
    ensures WithoutMarks(core) == core
  {
    MarksAfterCore(core, "");
    assert core + "" == core;
  }

  /** What is left of an amount once the clean-up is through and the marks are off. */
  function Undressed(s: string): string {
    Strip(WithoutMarks(PlainMinus(CleanText(s))))
  }

  lemma {:induction false} MarkBefore(mark: string, gap: string, core: string)
    requires core != "" && AllCore(core) && IsMark(mark) && (gap == "" || gap == " ")
    ensures Undressed(mark + gap + core) == PlainMinus(core)
  {
    hide CleanText, Strip, WithoutMarks, PlainMinus;
    MarkIsPlain(mark);
    PlainCore(core);
    var plain := PlainMinus(core);
    CleanDressed(mark, gap, core);
    PlainMinusConcat(mark + gap, core);
    PlainMinusConcat(mark, gap);
    PlainMinusNothing(gap);
    assert mark + gap + plain == mark + (gap + plain);
    MarkComesOff(mark, gap + plain);
    MarksAfterCore(gap, plain);
    NothingRemoved(plain);
    StripOne(plain);
    StripNothing(plain);
    assert gap == "" ==> gap + plain == plain;
  }

  lemma {:induction false} MarkAfter(core: string, gap: string, mark: string)
    requires core != "" && AllCore(core) && IsMark(mark) && (gap == "" || gap == " ")
    ensures Undressed(core + gap + mark) == PlainMinus(core)
  {
    hide CleanText, Strip, WithoutMarks, PlainMinus;
    MarkIsPlain(mark);
    PlainCore(core);
    var plain := PlainMinus(core);
    CleanDressed(core, gap, mark);
    PlainMinusConcat(core + gap, mark);
    PlainMinusConcat(core, gap);
    PlainMinusNothing(gap);
    MarksAfterCore(plain + gap, mark);
    MarkComesOff(mark, "");
    NothingRemoved("");
    assert mark + "" == mark && plain + gap + "" == plain + gap;
    StripOne(plain);
    StripNothing(plain);
    assert gap == "" ==> plain + gap == plain;
  }

  /** The sign as it is read, once a minus is plain and parentheses are off. */
  function Prefix(sign: Sign): string {
    if Owes(sign) then "-" else if sign == PLUS then "+" else ""
  }

  lemma {:induction false} SignedCore(body: string, sign: Sign)
    requires IsBody(body)
    ensures var core := Signed(body, sign);
            && core != "" && AllCore(core)
            && Unparenthesised(PlainMinus(core)) == Prefix(sign) + body
  {
    var core := Signed(body, sign);
    PlainMinusNothing(body);
    match sign {
      case UNSIGNED =>
      case PLUS => PlainMinusNothing(core);
      case HYPHEN => PlainMinusNothing(core);
      case MINUS =>
        PlainMinusConcat([MINUS_SIGN], body);
        assert PlainMinus([MINUS_SIGN]) == "-" by {
          assert [MINUS_SIGN][1..] == "";
        }
      case PARENTHESES =>
        PlainMinusNothing(core);
        assert core[1..|core| - 1] == body;
    }
  }

  /** A mark between what comes before and after it, at most one space being in the whole. */
  lemma {:induction false} MarkInside(a: string, gap: string, b: string, pre: string, mark: string, post: string)
    requires a != "" && b != "" && (gap == "" || gap == " ") && Spaceless(a) && Spaceless(b)
    requires a + gap + b == pre + mark + post && IsMark(mark)
    requires forall i :: 0 <= i < |pre| ==> InCore(pre[i]) || pre[i] == ' '
    requires forall i :: 0 <= i < |post| ==> InCore(post[i]) || post[i] == ' '
    ensures Undressed(pre + mark + post) == Strip(PlainMinus(pre) + PlainMinus(post))
  {
    hide CleanText, Strip, WithoutMarks, PlainMinus, IsMark;
    CleanDressed(a, gap, b);
    MarkIsPlain(mark);
    PlainMinusConcat(pre + mark, post);
    PlainMinusConcat(pre, mark);
    PlainSpaced(pre);
    PlainSpaced(post);
    var first, last := PlainMinus(pre), PlainMinus(post);
    assert first + mark + last == first + (mark + last);
    MarksAfterCore(first, mark + last);
    MarkComesOff(mark, last);
    MarksAfterCore(last, "");
    NothingRemoved("");
    assert last + "" == last;
  }

  lemma {:induction false} PlainSpaced(s: string)
    requires forall i :: 0 <= i < |s| ==> InCore(s[i]) || s[i] == ' '
    ensures forall i :: 0 <= i < |PlainMinus(s)| ==> InCore(PlainMinus(s)[i]) || PlainMinus(s)[i] == ' '
  {
    if s != "" {
      PlainSpaced(s[1..]);
    }
  }

  /** What stands around the digits. */
  function Opening(sign: Sign): string {
    match sign
    case UNSIGNED => "" case PLUS => "+" case HYPHEN => "-" case MINUS => [MINUS_SIGN] case PARENTHESES => "("
  }

  function Closing(sign: Sign): string {
    if sign == PARENTHESES then ")" else ""
  }

  lemma {:induction false} SignedIs(body: string, sign: Sign)
    ensures Signed(body, sign) == Opening(sign) + body + Closing(sign)
  {
  }

  lemma {:induction false} PlainOpening(sign: Sign)
    ensures PlainMinus(Opening(sign))
         == if sign == PARENTHESES then "(" else Prefix(sign)
    ensures PlainMinus(Closing(sign)) == Closing(sign)
  {
    assert "-"[1..] == "" && "+"[1..] == "" && "("[1..] == "" && ")"[1..] == "" && [MINUS_SIGN][1..] == "";
    assert PlainMinus("") == "";
  }

  /** `money` past the parentheses and the spaces. */
  function Bare(s: string): string {
    Without(Unparenthesised(s), {' '})
  }

  /** A body in its sign or parentheses, with a space before or after it or none. */
  lemma {:induction false} BareInner(body: string, sign: Sign, before: string, after: string)
    requires IsBody(body) && before in {"", " "} && after in {"", " "} && (before == "" || after == "")
    ensures Bare(Strip(PlainMinus(Opening(sign)) + before + body + after
                       + PlainMinus(Closing(sign))))
         == Prefix(sign) + body
  {
    hide Strip, Without, PlainMinus, IsBody;
    PlainOpening(sign);
    BodyIsPlain(body);
    if sign == UNSIGNED {
      StripNothing(body);
      StripOne(body);
      assert "" + before + body + after + "" == if before == " " then " " + body
                                                else if after == " " then body + " " else body;
    } else if sign == PARENTHESES {
      BareParentheses(body, before, after);
    } else {
      BarePrefixed(body, Prefix(sign), before, after);
      assert Prefix(sign) + before + body + after + "" == Prefix(sign) + before + body + after;
    }
  }

  lemma {:induction false} BareParentheses(body: string, before: string, after: string)
    requires IsBody(body) && before in {"", " "} && after in {"", " "}
    ensures Bare(Strip("(" + before + body + after + ")")) == "-" + body
  {
    hide Strip, Without, IsBody;
    var s := "(" + before + body + after + ")";
    StripNothing(s);
    assert s[1..|s| - 1] == before + body + after;
    SignedSpaces("-", before, body, after);
  }

  lemma {:induction false} BarePrefixed(body: string, prefix: string, before: string, after: string)
    requires IsBody(body) && prefix in {"-", "+"} && before in {"", " "} && after in {"", " "}
    ensures Bare(Strip(prefix + before + body + after)) == prefix + body
  {
    hide Strip, Without, IsBody;
    BodyIsPlain(body);
    var s := prefix + before + body;
    assert s[0] != ' ' && s[|s| - 1] == body[|body| - 1] != ' ';
    StripNothing(s);
    StripOne(s);
    assert s + "" == s;
    PlainPrefix(prefix, before, body, s);
  }

  lemma {:induction false} PlainPrefix(prefix: string, before: string, body: string, s: string)
    requires IsBody(body) && prefix in {"-", "+"} && before in {"", " "} && s == prefix + before + body
    ensures Bare(s) == prefix + body
  {
    hide Without, IsBody;
    SignedSpaces(prefix, before, body, "");
    assert prefix + (before + body + "") == s;
  }

  lemma {:induction false} SpaceDropped()
    ensures Without("", {' '}) == "" && Without(" ", {' '}) == ""
    ensures Without("-", {' '}) == "-" && Without("+", {' '}) == "+"
  {
    assert " "[1..] == "" && "-"[1..] == "" && "+"[1..] == "";
  }

  lemma {:induction false} SignedSpaces(prefix: string, before: string, body: string, after: string)
    requires IsBody(body) && before in {"", " "} && after in {"", " "} && prefix in {"-", "+"}
    ensures Without(prefix + (before + body + after), {' '}) == prefix + body
  {
    hide Without, IsBody;
    SpaceDropped();
    BodyIsPlain(body);
    WithoutConcat(prefix, before + body + after, {' '});
    WithoutConcat(before + body, after, {' '});
    WithoutConcat(before, body, {' '});
  }

  /** A mark outside: clean-up and removal leave the number and its sign. */
  lemma {:induction false} OuterMark(body: string, dress: Dress)
    requires IsBody(body) && !dress.place.INNER_BEFORE? && !dress.place.INNER_AFTER?
    requires dress.place != NOWHERE ==> IsMark(dress.mark)
    ensures Bare(Undressed(Dressed(body, dress))) == Prefix(dress.sign) + body
  {
    hide CleanText, Strip, WithoutMarks, Signed, Without, Unparenthesised;
    var gap := if dress.spaced then " " else "";
    SignedCore(body, dress.sign);
    var core := Signed(body, dress.sign);
    WithoutNothing(Prefix(dress.sign) + body, {' '});
    match dress.place {
      case NOWHERE =>
        PlainCore(core);
        CleanUnchanged(core);
        NothingRemoved(PlainMinus(core));
        StripNothing(PlainMinus(core));
      case BEFORE => MarkBefore(dress.mark, gap, core);
      case AFTER => MarkAfter(core, gap, dress.mark);
    }
  }

  /** A mark inside, before the digits: it may leave a space before them. */
  lemma {:induction false} InnerMarkBefore(body: string, sign: Sign, mark: string, gap: string)
    requires IsBody(body) && IsMark(mark) && (gap == "" || gap == " ")
    ensures Bare(Undressed(Signed(mark + gap + body, sign))) == Prefix(sign) + body
  {
    hide CleanText, Strip, WithoutMarks, Without, PlainMinus, Bare, Undressed, IsMark, IsBody, InCore,
         Signed, Opening, Closing;
    var open, close := Opening(sign), Closing(sign);
    InnerParts(body, sign, mark, gap);
    SignedIs(mark + gap + body, sign);
    assert open + (mark + gap + body) + close == (open + mark) + gap + (body + close)
        == open + mark + (gap + body + close);
    MarkInside(open + mark, gap, body + close, open, mark, gap + body + close);
    PlainMinusConcat(gap + body, close);
    PlainMinusConcat(gap, body);
    BareInner(body, sign, gap, "");
    assert PlainMinus(open) + (gap + body + PlainMinus(close))
        == PlainMinus(open) + gap + body + "" + PlainMinus(close);
  }

  /** And after the digits. */
  lemma {:induction false} InnerMarkAfter(body: string, sign: Sign, mark: string, gap: string)
    requires IsBody(body) && IsMark(mark) && (gap == "" || gap == " ")
    ensures Bare(Undressed(Signed(body + gap + mark, sign))) == Prefix(sign) + body
  {
    hide CleanText, Strip, WithoutMarks, Without, PlainMinus, Bare, Undressed, IsMark, IsBody, InCore,
         Signed, Opening, Closing;
    var open, close := Opening(sign), Closing(sign);
    InnerParts(body, sign, mark, gap);
    SignedIs(body + gap + mark, sign);
    assert open + (body + gap + mark) + close == (open + body) + gap + (mark + close)
        == (open + body + gap) + mark + close;
    MarkInside(open + body, gap, mark + close, open + body + gap, mark, close);
    PlainMinusConcat(open + body, gap);
    PlainMinusConcat(open, body);
    BareInner(body, sign, "", gap);
    assert PlainMinus(open) + body + gap + PlainMinus(close)
        == PlainMinus(open) + "" + body + gap + PlainMinus(close);
  }

  /** The pieces are made of the characters of a number and its sign, and of one space at most. */
  lemma {:induction false} InnerParts(body: string, sign: Sign, mark: string, gap: string)
    requires IsBody(body) && IsMark(mark) && (gap == "" || gap == " ")
    ensures var open, close := Opening(sign), Closing(sign);
            && (forall i :: 0 <= i < |open| ==> InCore(open[i]) && open[i] != ' ')
            && (forall i :: 0 <= i < |close| ==> InCore(close[i]) && close[i] != ' ')
            && (forall i :: 0 <= i < |gap + body + close| ==>
                  InCore((gap + body + close)[i]) || (gap + body + close)[i] == ' ')
            && (forall i :: 0 <= i < |open + body + gap| ==>
                  InCore((open + body + gap)[i]) || (open + body + gap)[i] == ' ')
            && Spaceless(open + mark) && Spaceless(body + close)
            && Spaceless(open + body) && Spaceless(mark + close)
    ensures body != "" && mark != "" && PlainMinus(body) == body && PlainMinus(gap) == gap
  {
    BodyIsPlain(body);
    MarkIsPlain(mark);
    PlainGap(gap);
  }

  lemma {:induction false} BodyIsPlain(body: string)
    requires IsBody(body)
    ensures body != "" && AllCore(body) && Spaceless(body) && PlainMinus(body) == body
    ensures Without(body, {' '}) == body && body[0] != '('
  {
    PlainMinusNothing(body);
    WithoutNothing(body, {' '});
  }

  lemma {:induction false} PlainGap(gap: string)
    requires gap == "" || gap == " "
    ensures PlainMinus(gap) == gap
  {
    PlainMinusNothing(gap);
  }

  /** Whatever the dress, `money` reads the body under its sign. */
  lemma {:induction false} DressIsIrrelevant(body: string, dress: Dress)
    requires IsBody(body) && (dress.place != NOWHERE ==> IsMark(dress.mark))
    ensures Money(Dressed(body, dress)) == ReadBody(if Owes(dress.sign) then "-" else "", body)
  {
    hide CleanText, Strip, WithoutMarks, Unparenthesised, PlainMinus, ReadBody, Signed, Without;
    if dress.place.INNER_BEFORE? || dress.place.INNER_AFTER? {
      var gap := if dress.spaced then " " else "";
      InnerMarkBefore(body, dress.sign, dress.mark, gap);
      InnerMarkAfter(body, dress.sign, dress.mark, gap);
    } else {
      OuterMark(body, dress);
    }
    var signed := Prefix(dress.sign) + body;
    assert Unsigned(signed) == body;
  }

  // ----- reading what was printed: the number itself

  lemma {:induction false} GroupsMatch(digits: string, sep: char)
    requires AllDigits(digits) && |digits| > 3 && !IsDigit(sep)
    ensures IsGrouped(Grouped(digits, sep), sep)
  {
    var head, tail := digits[..|digits| - 3], digits[|digits| - 3..];
    var g := Grouped(digits, sep);
    if |head| > 3 {
      GroupsMatch(head, sep);
    } else {
      assert IsHead(Grouped(head, sep));
    }
    assert g == Grouped(head, sep) + [sep] + tail;
    assert g[..|g| - 4] == Grouped(head, sep);
    assert g[|g| - 3..] == tail;
  }

  lemma {:induction false} GroupsCollapse(digits: string, sep: char)
    requires AllDigits(digits) && !IsDigit(sep)
    ensures Without(Grouped(digits, sep), {sep}) == digits
  {
    hide Without;
    if |digits| <= 3 {
      WithoutNothing(digits, {sep});
    } else {
      var head, tail := digits[..|digits| - 3], digits[|digits| - 3..];
      GroupsCollapse(head, sep);
      var g := Grouped(head, sep);
      WithoutConcat(g + [sep], tail, {sep});
      WithoutConcat(g, [sep], {sep});
      WithoutNothing(tail, {sep});
      SeparatorDropped(sep);
      assert Grouped(digits, sep) == g + [sep] + tail;
      assert head + "" + tail == digits;
    }
  }

  lemma {:induction false} SeparatorDropped(sep: char)
    ensures Without([sep], {sep}) == ""
  {
    assert [sep][1..] == "";
  }

  lemma {:induction false} GroupsShape(digits: string, sep: char)
    requires AllDigits(digits)
    ensures forall i :: 0 <= i < |Grouped(digits, sep)| ==>
              IsDigit(Grouped(digits, sep)[i]) || Grouped(digits, sep)[i] == sep
    ensures digits != "" ==> Grouped(digits, sep) != "" && IsDigit(Grouped(digits, sep)[0])
    ensures |digits| > 3 ==> sep in Grouped(digits, sep)
  {
    if |digits| > 3 {
      GroupsShape(digits[..|digits| - 3], sep);
    }
  }

  lemma {:induction false} TwoDigits(m: nat)
    requires m < 100
    ensures Pad(m, 2) == [DigitChar(m / 10), DigitChar(m % 10)]
  {
    if m < 10 {
      assert Zeros(1) == ['0'] == [DigitChar(0)];
      assert Pad(m, 2) == Zeros(1) + Digits(m);
    } else {
      assert Digits(m / 10) == [DigitChar(m / 10)];
    }
  }

  /** The whole part and the two places, one after the other, are the numeral of the cents. */
  lemma {:induction false} CoefficientOf(n: nat)
    ensures Trim(Digits(n / 100) + Pad(n % 100, 2)) == Digits(n)
    ensures n >= 100 ==> Digits(n) == Digits(n / 100) + Pad(n % 100, 2)
    ensures n < 100 ==> Digits(n / 100) + Pad(n % 100, 2) == "0" + Pad(n, 2)
  {
    TwoDigits(n % 100);
    if n >= 100 {
      assert n / 10 / 10 == n / 100 && n / 10 % 10 == n % 100 / 10 && n % 100 % 10 == n % 10;
      assert Digits(n) == Digits(n / 10) + [DigitChar(n % 10)];
      assert Digits(n / 10) == Digits(n / 100) + [DigitChar(n / 10 % 10)];
    } else {
      var s := "0" + Pad(n, 2);
      assert s[1..] == Pad(n, 2);
      assert Trim(s) == Trim(Pad(n, 2));
      if n < 10 {
        assert Pad(n, 2)[1..] == Digits(n);
      }
    }
  }

  lemma {:induction false} QuantizedCents(sign: string, n: nat)
    ensures |Pad(n % 100, 2)| == 2
    ensures Quantized(sign, Digits(n / 100), Pad(n % 100, 2))
         == if |Digits(n)| <= 28 then Ok(sign + Body(n, POINT)) else Invalid
  {
    hide Trim, Digits, Pad;
    var whole, fraction := Digits(n / 100), Pad(n % 100, 2);
    TwoDigits(n % 100);
    CoefficientOf(n);
    assert whole + fraction + Zeros(2 - |fraction|) == whole + fraction;
    var all := whole + fraction;
    assert all[..|all| - 2] == whole && all[|all| - 2..] == fraction;
    var c := Digits(n);
    if n < 100 {
      ShortCoefficient(n);
    }
    assert sign + whole + "." + fraction == sign + Body(n, POINT);
  }

  lemma {:induction false} ShortCoefficient(n: nat)
    requires n < 100
    ensures |Digits(n)| < 3 && Zeros(3 - |Digits(n)|) + Digits(n) == "0" + Pad(n, 2)
  {
    if n < 10 {
      assert Zeros(2) + Digits(n) == "0" + (Zeros(1) + Digits(n));
    } else {
      TwoDigits(n);
    }
  }

  lemma {:induction false} SplitOne(whole: string, sep: char, fraction: string)
    requires AllDigits(whole) && AllDigits(fraction) && (sep == ',' || sep == '.')
    ensures Split(whole + [sep] + fraction)
         == if 1 <= |fraction| <= 2 then Parts(whole, fraction) else Ambiguous
  {
    var body := whole + [sep] + fraction;
    LastInMiddle(whole, sep, fraction);
    assert body[..|whole|] == whole && body[|whole| + 1..] == fraction;
    assert body[|whole|] == sep;
    assert forall c :: c in body ==> IsDigit(c) || c == sep;
  }

  lemma {:induction false} LastInMiddle(left: string, sep: char, right: string)
    requires sep !in right
    ensures LastOf(left + [sep] + right, sep) == |left|
  {
    hide LastOf;
    var s := left + [sep] + right;
    assert s[|left|] == sep;
  }

  /** With both separators in a body, the one that comes last is the decimal one. */
  lemma {:induction false} LastSeparatorDecides(left: string, decimal: char, thousands: char, fraction: string)
    requires (decimal == ',' && thousands == '.') || (decimal == '.' && thousands == ',')
    requires thousands in left && AllDigits(fraction) && |fraction| == 2 && IsGrouped(left, thousands)
    ensures Split(left + [decimal] + fraction) == Parts(Without(left, {thousands}), fraction)
  {
    hide LastOf, IsGrouped, Without;
    var body := left + [decimal] + fraction;
    LastInMiddle(left, decimal, fraction);
    assert body[..|left|] == left && body[|left| + 1..] == fraction && body[|left|] == decimal;
    var i :| 0 <= i < |left| && left[i] == thousands;
    assert body[i] == thousands;
    assert forall j :: |left| < j < |body| ==> body[j] == fraction[j - |left| - 1];
  }

  lemma {:induction false} SplitGrouped(digits: string, decimal: char, thousands: char, fraction: string)
    requires AllDigits(digits) && |digits| > 3 && AllDigits(fraction) && |fraction| == 2
    requires (decimal == ',' && thousands == '.') || (decimal == '.' && thousands == ',')
    ensures Split(Grouped(digits, thousands) + [decimal] + fraction) == Parts(digits, fraction)
  {
    hide LastOf, Grouped, IsGrouped, Without, Split;
    GroupsMatch(digits, thousands);
    GroupsCollapse(digits, thousands);
    GroupsShape(digits, thousands);
    LastSeparatorDecides(Grouped(digits, thousands), decimal, thousands, fraction);
  }

  lemma {:induction false} SplitBody(n: nat, notation: Notation)
    ensures Split(Body(n, notation)) == Parts(Digits(n / 100), Pad(n % 100, 2))
    ensures IsBody(Body(n, notation))
  {
    hide Split, Digits, Pad, Without;
    var whole, fraction := Digits(n / 100), Pad(n % 100, 2);
    TwoDigits(n % 100);
    var decimal := if notation == SPANISH || notation == COMMA then ',' else '.';
    if |whole| <= 3 || notation == COMMA || notation == POINT {
      assert Body(n, notation) == whole + [decimal] + fraction;
      SplitOne(whole, decimal, fraction);
    } else {
      var thousands := if notation == SPANISH then '.' else ',';
      assert Body(n, notation) == Grouped(whole, thousands) + [decimal] + fraction;
      GroupsShape(whole, thousands);
      SplitGrouped(whole, decimal, thousands, fraction);
    }
  }

  // ----- the laws

  /** Printing is undone: every signed amount of cents, in every notation and dress, is read as its
      canonical form when the number of cents fits 28 digits, and refused when it does not. */
  lemma {:induction false} MoneyUndoesPrinting(n: nat, notation: Notation, dress: Dress)
    requires dress.place != NOWHERE ==> IsMark(dress.mark)
    ensures Money(Dressed(Body(n, notation), dress))
         == if |Digits(n)| <= 28 then Ok(Canonical(Owes(dress.sign), n)) else Invalid
  {
    var sign := if Owes(dress.sign) then "-" else "";
    SplitBody(n, notation);
    DressIsIrrelevant(Body(n, notation), dress);
    QuantizedCents(sign, n);
  }

  /** A separator followed by three digits is always refused: it could be either separator. */
  lemma {:induction false} ThreeDigitsAreAmbiguous(whole: string, sep: char, three: string, dress: Dress)
    requires whole != "" && AllDigits(whole) && AllDigits(three) && |three| == 3
    requires sep == ',' || sep == '.'
    requires dress.place != NOWHERE ==> IsMark(dress.mark)
    ensures Money(Dressed(whole + [sep] + three, dress)) == Invalid
  {
    SplitOne(whole, sep, three);
    DressIsIrrelevant(whole + [sep] + three, dress);
  }

  lemma {:induction false} DigitsOfValue(s: string)
    requires s != "" && AllDigits(s) && (|s| > 1 ==> s[0] != '0')
    ensures Digits(Value(s)) == s
  {
    var front, last := s[..|s| - 1], s[|s| - 1];
    if front == "" {
      assert Value(front) == 0;
    } else {
      assert front[0] == s[0];
      DigitsOfValue(front);
      PositiveValue(front);
      assert Value(s) / 10 == Value(front) && Value(s) % 10 == DigitValue(last);
    }
  }

  lemma {:induction false} PositiveValue(s: string)
    requires s != "" && AllDigits(s) && s[0] != '0'
    ensures Value(s) > 0
  {
    if |s| > 1 {
      PositiveValue(s[..|s| - 1]);
    } else {
      assert DigitChar(DigitValue(s[0])) == s[0];
    }
  }

  lemma {:induction false} TrimIsNumeral(s: string)
    requires s != "" && AllDigits(s)
    ensures Trim(s) != "" && AllDigits(Trim(s)) && (|Trim(s)| > 1 ==> Trim(s)[0] != '0')
  {
    if |s| > 1 && s[0] == '0' {
      TrimIsNumeral(s[1..]);
    }
  }

  /** The cents of a whole part and at most two decimals. */
  function CentsOf(whole: string, fraction: string): nat
    requires AllDigits(whole) && AllDigits(fraction) && |fraction| <= 2
  {
    100 * Value(whole) + if |fraction| == 1 then 10 * Value(fraction) else Value(fraction)
  }

  lemma {:induction false} ValueOfTrim(s: string)
    requires AllDigits(s)
    ensures AllDigits(Trim(s)) && Value(Trim(s)) == Value(s)
  {
    if |s| > 1 && s[0] == '0' {
      ValueOfTrim(s[1..]);
      ValueOfZeros(1, s[1..]);
      assert Zeros(1) + s[1..] == s;
    }
  }

  lemma {:induction false} TwoPlaces(whole: string, x: char, y: char)
    requires AllDigits(whole) && IsDigit(x) && IsDigit(y)
    ensures AllDigits(whole + [x, y])
    ensures Value(whole + [x, y]) == 100 * Value(whole) + 10 * DigitValue(x) + DigitValue(y)
    ensures Value([x, y]) == 10 * DigitValue(x) + DigitValue(y) && Value([x]) == DigitValue(x)
  {
    assert (whole + [x, y])[..|whole| + 1] == whole + [x];
    assert (whole + [x])[..|whole|] == whole;
    assert [x, y][..1] == [x] && [x][..0] == "";
    assert Value([x]) == 10 * Value([x][..0]) + DigitValue(x) == DigitValue(x);
    assert Value([x, y]) == 10 * Value([x, y][..1]) + DigitValue(y);
  }

  lemma {:induction false} PaddedValue(whole: string, fraction: string)
    requires AllDigits(whole) && AllDigits(fraction) && |fraction| <= 2
    ensures var all := whole + fraction + Zeros(2 - |fraction|);
            AllDigits(all) && Value(all) == CentsOf(whole, fraction)
  {
    var all := whole + fraction + Zeros(2 - |fraction|);
    assert DigitValue('0') == 0;
    if fraction == "" {
      assert all == whole + ['0', '0'];
      TwoPlaces(whole, '0', '0');
    } else if |fraction| == 1 {
      assert all == whole + [fraction[0], '0'];
      TwoPlaces(whole, fraction[0], '0');
      assert fraction == [fraction[0]];
    } else {
      assert all == whole + [fraction[0], fraction[1]];
      TwoPlaces(whole, fraction[0], fraction[1]);
      assert fraction == [fraction[0], fraction[1]];
    }
  }

  /** What is quantised is the number its digits say, leading zeros and all, if it fits 28 digits. */
  lemma {:induction false} QuantizedIs(sign: string, whole: string, fraction: string)
    requires |fraction| <= 2 && AllDigits(whole) && AllDigits(fraction) && whole != ""
    ensures var n := CentsOf(whole, fraction);
            Quantized(sign, whole, fraction)
            == if |Digits(n)| <= 28 then Ok(sign + Body(n, POINT)) else Invalid
  {
    hide Body, Digits, Value;
    var n, all := CentsOf(whole, fraction), whole + fraction + Zeros(2 - |fraction|);
    PaddedValue(whole, fraction);
    TrimIsNumeral(all);
    ValueOfTrim(all);
    DigitsOfValue(Trim(all));
    QuantizedCents(sign, n);
    CoefficientOf(n);
    assert Quantized(sign, whole, fraction) == Quantized(sign, Digits(n / 100), Pad(n % 100, 2)) by {
      var pad := Pad(n % 100, 2);
      assert Digits(n / 100) + pad + Zeros(2 - |pad|) == Digits(n / 100) + pad;
    }
  }

  lemma {:induction false} GroupedHoldsDigits(s: string, sep: char)
    requires IsGrouped(s, sep) && !IsDigit(sep)
    ensures AllDigits(Without(s, {sep})) && Without(s, {sep}) != ""
  {
    var head, tail := s[..|s| - 4], s[|s| - 3..];
    assert s == head + [sep] + tail;
    WithoutConcat(head + [sep], tail, {sep});
    WithoutConcat(head, [sep], {sep});
    DigitsSurvive(tail, sep);
    if IsHead(head) {
      DigitsSurvive(head, sep);
    } else {
      GroupedHoldsDigits(head, sep);
    }
    SeparatorDropped(sep);
  }

  lemma {:induction false} DigitsSurvive(s: string, sep: char)
    requires AllDigits(s)
    ensures AllDigits(Without(s, {sep}))
    ensures !IsDigit(sep) ==> Without(s, {sep}) == s
  {
    if s != "" {
      DigitsSurvive(s[1..], sep);
    }
  }

  /** What a body splits into are digits. */
  lemma {:induction false} PartsAreDigits(body: string)
    requires IsBody(body) && Split(body).Parts?
    ensures var parts := Split(body);
            |parts.fraction| <= 2 && AllDigits(parts.whole) && AllDigits(parts.fraction)
            && parts.whole != ""
  {
    if ',' in body && '.' in body {
      var decimal := if LastOf(body, ',') > LastOf(body, '.') then ',' else '.';
      var thousands := if decimal == ',' then '.' else ',';
      var at := LastOf(body, decimal);
      GroupedHoldsDigits(body[..at], thousands);
      assert forall j :: at < j < |body| ==> body[j] in body && body[j] != ',' && body[j] != '.';
    } else if ',' in body || '.' in body {
      var sep := if ',' in body then ',' else '.';
      var at := LastOf(body, sep);
      assert forall c :: c in body[..at] ==> c in body;
      assert forall j :: at < j < |body| ==> body[j] in body && body[j] != sep;
      assert body[0] != sep;
    }
  }

  /** `money` is a fixpoint on its own results. */
  lemma {:induction false} MoneyIsAFixpoint(value: string)
    requires Money(value).Ok?
    ensures Money(Money(value).amount) == Money(value)
  {
    var v := Without(Unparenthesised(Strip(WithoutMarks(PlainMinus(CleanText(value))))), {' '});
    var body, negative := Unsigned(v), v[0] == '-';
    var sign := if negative then "-" else "";
    PartsAreDigits(body);
    var parts := Split(body);
    var n := CentsOf(parts.whole, parts.fraction);
    QuantizedIs(sign, parts.whole, parts.fraction);
    var plain := Dress(if negative then HYPHEN else UNSIGNED, NOWHERE, "", false);
    MoneyUndoesPrinting(n, POINT, plain);
    assert Dressed(Body(n, POINT), plain) == Canonical(negative, n);
  }

  // ----- exactly the bodies that are read, and as what

  /** The ways of writing a whole part and decimals: without separator and decimals, with one or two
      decimals after either separator, or with the whole part in threes and two decimals after the
      other separator. */
  predicate Writes(body: string, whole: string, fraction: string) {
    && whole != "" && AllDigits(whole) && AllDigits(fraction)
    && (|| (body == whole && fraction == "")
        || (1 <= |fraction| <= 2
            && (body == whole + "," + fraction || body == whole + "." + fraction))
        || (|whole| > 3 && |fraction| == 2
            && (body == Grouped(whole, '.') + "," + fraction
                || body == Grouped(whole, ',') + "." + fraction)))
  }

  lemma {:induction false} SplitWritten(body: string, whole: string, fraction: string)
    requires Writes(body, whole, fraction)
    ensures IsBody(body) && Split(body) == Parts(whole, fraction)
  {
    hide Split, Grouped;
    if body == whole && fraction == "" {
      SplitPlain(body);
    } else if body == whole + "," + fraction && 1 <= |fraction| <= 2 {
      SplitOne(whole, ',', fraction);
    } else if body == whole + "." + fraction && 1 <= |fraction| <= 2 {
      SplitOne(whole, '.', fraction);
    } else if body == Grouped(whole, '.') + "," + fraction {
      GroupsShape(whole, '.');
      SplitGrouped(whole, ',', '.', fraction);
    } else {
      GroupsShape(whole, ',');
      SplitGrouped(whole, '.', ',', fraction);
    }
  }

  lemma {:induction false} SplitPlain(body: string)
    requires AllDigits(body)
    ensures Split(body) == Parts(body, "")
  {
    assert forall c :: c in body ==> IsDigit(c);
  }

  /** Groups of three are the printing of their digits. */
  lemma {:induction false} GroupedIsPrinted(s: string, sep: char)
    requires IsGrouped(s, sep) && !IsDigit(sep)
    ensures var digits := Without(s, {sep}); |digits| > 3 && AllDigits(digits) && s == Grouped(digits, sep)
  {
    hide Without;
    var head, tail := s[..|s| - 4], s[|s| - 3..];
    assert s == head + [sep] + tail;
    GroupedHoldsDigits(s, sep);
    WithoutConcat(head + [sep], tail, {sep});
    WithoutConcat(head, [sep], {sep});
    SeparatorDropped(sep);
    DigitsSurvive(tail, sep);
    var front := Without(head, {sep});
    assert Without(s, {sep}) == front + tail;
    if IsHead(head) {
      DigitsSurvive(head, sep);
    } else {
      GroupedIsPrinted(head, sep);
    }
    assert (front + tail)[..|front + tail| - 3] == front && (front + tail)[|front + tail| - 3..] == tail;
  }

  /** What is split was written in one of these ways. */
  lemma {:induction false} SplitMeansWritten(body: string)
    requires IsBody(body) && Split(body).Parts?
    ensures Writes(body, Split(body).whole, Split(body).fraction)
  {
    hide Grouped, Without, LastOf, IsGrouped, IsBody;
    PartsAreDigits(body);
    if ',' in body && '.' in body {
      if LastOf(body, ',') > LastOf(body, '.') {
        GroupsMeanWritten(body, ',', '.');
      } else {
        GroupsMeanWritten(body, '.', ',');
      }
    } else if ',' in body || '.' in body {
      hide Writes;
      var sep := if ',' in body then ',' else '.';
      var at := LastOf(body, sep);
      OneSeparatorWritten(body, sep, at);
    }
  }

  lemma {:induction false} OneSeparatorWritten(body: string, sep: char, at: nat)
    requires at < |body| && body[at] == sep && (sep == ',' || sep == '.')
    requires body[..at] != "" && AllDigits(body[..at]) && AllDigits(body[at + 1..])
    requires 1 <= |body[at + 1..]| <= 2
    ensures Writes(body, body[..at], body[at + 1..])
  {
    hide Grouped;
    assert body == body[..at] + [sep] + body[at + 1..];
  }

  lemma {:induction false} GroupsMeanWritten(body: string, decimal: char, thousands: char)
    requires (decimal == ',' && thousands == '.') || (decimal == '.' && thousands == ',')
    requires decimal in body
    requires var at := LastOf(body, decimal);
             IsGrouped(body[..at], thousands) && |body[at + 1..]| == 2
    ensures var at := LastOf(body, decimal);
            var whole := Without(body[..at], {thousands});
            && |whole| > 3 && AllDigits(whole)
            && body == Grouped(whole, thousands) + [decimal] + body[at + 1..]
  {
    hide Grouped, Without, LastOf, IsGrouped;
    var at := LastOf(body, decimal);
    GroupedIsPrinted(body[..at], thousands);
    assert body == body[..at] + [decimal] + body[at + 1..];
  }

  /** Every amount written in one of these ways, in whatever dress, is read as the cents it says, when
      they fit 28 digits, and refused when they do not. */
  lemma {:induction false} MoneyReads(body: string, whole: string, fraction: string, dress: Dress)
    requires Writes(body, whole, fraction) && (dress.place != NOWHERE ==> IsMark(dress.mark))
    ensures var n := CentsOf(whole, fraction);
            Money(Dressed(body, dress))
            == if |Digits(n)| <= 28 then Ok(Canonical(Owes(dress.sign), n)) else Invalid
  {
    SplitWritten(body, whole, fraction);
    DressIsIrrelevant(body, dress);
    QuantizedIs(if Owes(dress.sign) then "-" else "", whole, fraction);
  }

  /** And digits and separators in any other way are refused. */
  lemma {:induction false} MoneyRefuses(body: string, dress: Dress)
    requires IsBody(body) && (dress.place != NOWHERE ==> IsMark(dress.mark))
    requires forall whole, fraction :: !Writes(body, whole, fraction)
    ensures Money(Dressed(body, dress)) == Invalid
  {
    DressIsIrrelevant(body, dress);
    if Split(body).Parts? {
      SplitMeansWritten(body);
    }
  }
}
