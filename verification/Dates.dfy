/**
 Printed dates: `invoice_date` of the normaliser, `date_of` and R11 of the rules, and the shape in
 which `symbols` of the extraction review keeps a date that does not exist.
 */
module Dates {
  import opened Text
  import opened Numerals
  import opened Invoices
  import Money

  datatype Date = Date(year: int, month: int, day: int)

  predicate IsLeap(year: int) {
    year % 4 == 0 && (year % 100 != 0 || year % 400 == 0)
  }

  function DaysIn(year: int, month: int): int {
    if month == 2 then (if IsLeap(year) then 29 else 28)
    else if month == 4 || month == 6 || month == 9 || month == 11 then 30
    else 31
  }

  /** The days `datetime.date` accepts. */
  predicate IsDay(d: Date) {
    1 <= d.year <= 9999 && 1 <= d.month <= 12 && 1 <= d.day <= DaysIn(d.year, d.month)
  }

  // ----- the calendar, counted another way

  const MONTH_DAYS := [31, 28, 31, 30, 31, 30, 31, 31, 30, 31, 30, 31]

  /** The days before the first of January of a year. */
  function DaysBefore(year: int): int {
    (year - 1) * 365 + (year - 1) / 4 - (year - 1) / 100 + (year - 1) / 400
  }

  lemma {:induction false} OneMoreMultiple(n: int, k: int)
    requires k > 0
    ensures n / k - (n - 1) / k == if n % k == 0 then 1 else 0
  {
    var q, r := n / k, n % k;
    assert n == k * q + r;
    if r == 0 {
      QuotientIs(n - 1, k, q - 1, k - 1);
    } else {
      QuotientIs(n - 1, k, q, r - 1);
    }
  }

  lemma {:induction false} QuotientIs(n: int, k: int, q: int, r: int)
    requires k > 0 && n == k * q + r && 0 <= r < k
    ensures n / k == q
  {
    var p := n / k;
    assert n == k * p + n % k;
    assert k * (p - q) == r - n % k;
    assert p - q >= 1 ==> k * (p - q) >= k;
    assert p - q <= -1 ==> k * (p - q) <= -k;
  }

  /** The days `date` accepts are those of the Gregorian calendar: twelve months of fixed lengths, but
      for the day February gains in the years that are 366 days long by the count of all days before. */
  lemma {:induction false} DaysOfTheCalendar(d: Date)
    ensures IsDay(d) <==>
            && 1 <= d.year <= 9999 && 1 <= d.month <= 12 && 1 <= d.day
            && d.day <= MONTH_DAYS[d.month - 1]
                        + if d.month == 2 then DaysBefore(d.year + 1) - DaysBefore(d.year) - 365 else 0
  {
    OneMoreMultiple(d.year, 4);
    OneMoreMultiple(d.year, 100);
    OneMoreMultiple(d.year, 400);
    FourHundred(d.year);
  }

  lemma {:induction false} FourHundred(year: int)
    ensures year % 400 == 0 ==> year % 100 == 0
    ensures year % 100 == 0 ==> year % 4 == 0
  {
  }

  /** The full-date form of section 5.6 of RFC 3339. */
  function Iso(d: Date): string
    requires d.year >= 0 && d.month >= 0 && d.day >= 0
  {
    Pad(d.year, 4) + "-" + Pad(d.month, 2) + "-" + Pad(d.day, 2)
  }

  // ----- `invoice_date`

  /** Invalid is the ValueError of the source, UnknownMonth its KeyError. */
  datatype Result = Ok(iso: string) | Invalid | UnknownMonth

  const MONTHS: seq<string> := [
    "enero", "febrero", "marzo", "abril", "mayo", "junio",
    "julio", "agosto", "septiembre", "octubre", "noviembre", "diciembre"]

  predicate IsWordChar(c: char) {
    'a' <= c <= 'z' || 'A' <= c <= 'Z' || IsDigit(c) || c == '_'
  }

  predicate IsWord(s: string) {
    s != "" && forall i :: 0 <= i < |s| ==> IsWordChar(s[i])
  }

  /** `(\d{1,2})\s+de\s+(\w+)\s+de\s+(\d{4})`, on a text whose spaces are single. */
  predicate IsSpelled(words: seq<string>) {
    && |words| == 5
    && 1 <= |words[0]| <= 2 && AllDigits(words[0])
    && words[1] == "de" && IsWord(words[2]) && words[3] == "de"
    && |words[4]| == 4 && AllDigits(words[4])
  }

  function MonthNumber(word: string, from: nat): (month: nat)
    requires from <= 12
    ensures month != 0 ==> from < month <= 12 && MONTHS[month - 1] == word
    ensures month == 0 ==> forall i :: from <= i < 12 ==> MONTHS[i] != word
    decreases 12 - from
  {
    if from == 12 then 0 else if MONTHS[from] == word then from + 1 else MonthNumber(word, from + 1)
  }

  /** The four numeric layouts, in the order they are tried. */
  datatype Layout = DMY(sep: char) | YMD

  const LAYOUTS := [DMY('/'), DMY('-'), DMY('.'), YMD]

  /** `%d` of strptime: `3[0-1]|[1-2]\d|0[1-9]|[1-9]| [1-9]` */
  predicate IsDayText(s: string) {
    || (|s| == 2 && AllDigits(s) && 1 <= Value(s) <= 31)
    || (|s| == 1 && AllDigits(s) && Value(s) >= 1)
    || (|s| == 2 && s[0] == ' ' && AllDigits(s[1..]) && Value(s[1..]) >= 1)
  }

  function DayNumber(s: string): nat
    requires IsDayText(s)
  {
    if s[0] == ' ' then Value(s[1..]) else Value(s)
  }

  /** `%m`: `1[0-2]|0[1-9]|[1-9]` */
  predicate IsMonthText(s: string) {
    1 <= |s| <= 2 && AllDigits(s) && 1 <= Value(s) <= 12
  }

  /** `%Y`: four digits */
  predicate IsYearText(s: string) {
    |s| == 4 && AllDigits(s)
  }

  /** `datetime.strptime(s, layout)`, or None for its ValueError. */
  function Strptime(s: string, layout: Layout): Option<Date> {
    var parts := Split(s, if layout.DMY? then layout.sep else '-');
    if |parts| != 3 then None
    else
      var day, year := if layout.DMY? then parts[0] else parts[2],
                       if layout.DMY? then parts[2] else parts[0];
      if !IsDayText(day) || !IsMonthText(parts[1]) || !IsYearText(year) then None
      else
        var date := Date(Value(year), Value(parts[1]), DayNumber(day));
        if IsDay(date) then Some(date) else None
  }

  /** The first layout, from the `i`-th on, under which the text is a day. */
  function FirstDate(s: string, i: nat): Option<Date>
    requires i <= |LAYOUTS|
    decreases |LAYOUTS| - i
  {
    if i == |LAYOUTS| then None
    else if Strptime(s, LAYOUTS[i]).Some? then Strptime(s, LAYOUTS[i])
    else FirstDate(s, i + 1)
  }

  function SpelledDate(words: seq<string>): Result
    requires IsSpelled(words)
  {
    var month := MonthNumber(words[2], 0);
    if month == 0 then UnknownMonth
    else
      var date := Date(Value(words[4]), month, Value(words[0]));
      if IsDay(date) then Ok(Iso(date)) else Invalid
  }

  function InvoiceDate(value: string): Result {
    var value := Lower(Money.CleanText(value));
    var words := Split(value, ' ');
    if IsSpelled(words) then SpelledDate(words)
    else
      var date := FirstDate(value, 0);
      if date.Some? then Ok(Iso(date.value)) else Invalid
  }

  /** `invoice_date` with its loop over the layouts. */
  method ReadInvoiceDate(text: string) returns (result: Result)
    ensures result == InvoiceDate(text)
  {
    var value := Lower(Money.CleanText(text));
    var words := Split(value, ' ');
    if IsSpelled(words) {
      return SpelledDate(words);
    }
    for i := 0 to |LAYOUTS|
      invariant FirstDate(value, 0) == FirstDate(value, i)
    {
      var date := Strptime(value, LAYOUTS[i]);
      if date.Some? {
        return Ok(Iso(date.value));
      }
    }
    return Invalid;
  }

  // ----- R11

  const MAX_C_INT := 0x7FFF_FFFF
  const MAX_STR_DIGITS := 4300

  function WithoutUnderscores(s: string): string {
    Without(s, {'_'})
  }

  predicate IsIntText(s: string) {
    && s != "" && IsDigit(s[0]) && IsDigit(s[|s| - 1])
    && (forall i :: 0 <= i < |s| ==> IsDigit(s[i]) || s[i] == '_')
    && (forall i :: 0 < i < |s| && s[i] == '_' ==> s[i - 1] != '_')
    && AllDigits(WithoutUnderscores(s))
    && |WithoutUnderscores(s)| <= MAX_STR_DIGITS
  }

  /** `int(s)` of a text without hyphens, or None for its ValueError: surrounding spaces, a plus and
      single underscores between digits are read. */
  function IntOf(s: string): Option<nat> {
    var t := Strip(s);
    var u := if t != "" && t[0] == '+' then t[1..] else t;
    if IsIntText(u) then Some(Value(WithoutUnderscores(u))) else None
  }

  /** Real is a day that exists; Overflows is the OverflowError of a number beyond a C int, which
      `date_of` does not catch. */
  datatype DateOf = Real(date: Date) | NoSuchDay | Overflows

  function ReadDate(text: string): DateOf {
    var parts := Split(text, '-');
    if |parts| != 3 then NoSuchDay
    else
      var y, m, d := IntOf(parts[0]), IntOf(parts[1]), IntOf(parts[2]);
      if y.None? || m.None? || d.None? then NoSuchDay
      else if y.value > MAX_C_INT || m.value > MAX_C_INT || d.value > MAX_C_INT then Overflows
      else if IsDay(Date(y.value, m.value, d.value)) then Real(Date(y.value, m.value, d.value))
      else NoSuchDay
  }

  function R11(date: Field): Verdict {
    if Empty(date) then Passes
    else
      match ReadDate(TextOf(date))
      case Real(_) => Passes
      case NoSuchDay => Fires
      case Overflows => Raises
  }

  // ----- `symbols`

  predicate IsPrintedSep(c: char) {
    c == '/' || c == '.' || c == '-'
  }

  /** `(\d{1,2})[/.\-](\d{1,2})[/.\-](\d{4})` with `a` and `b` digits for the day and the month. */
  predicate IsPrinted(s: string, a: nat, b: nat) {
    && 1 <= a <= 2 && 1 <= b <= 2 && |s| == a + b + 6
    && AllDigits(s[..a]) && IsPrintedSep(s[a])
    && AllDigits(s[a + 1..a + 1 + b]) && IsPrintedSep(s[a + 1 + b])
    && AllDigits(s[a + b + 2..])
  }

  function Printed(s: string, a: nat, b: nat): Date
    requires IsPrinted(s, a, b)
  {
    Date(Value(s[a + b + 2..]), Value(s[a + 1..a + 1 + b]), Value(s[..a]))
  }

  /** What the row holds as its date: the normalised one, or the printed one in the ISO shape. */
  function KeptDate(normalised: Field, printed: Field): Field {
    if normalised.Some? then normalised
    else
      var s := TextOf(printed);
      if IsPrinted(s, 1, 1) then Some(Iso(Printed(s, 1, 1)))
      else if IsPrinted(s, 1, 2) then Some(Iso(Printed(s, 1, 2)))
      else if IsPrinted(s, 2, 1) then Some(Iso(Printed(s, 2, 1)))
      else if IsPrinted(s, 2, 2) then Some(Iso(Printed(s, 2, 2)))
      else None
  }

  // ----- the ISO shape

  lemma {:induction false} DigitsWidth(n: nat, width: nat)
    requires (width == 1 && n < 10) || (width == 2 && n < 100) || (width == 3 && n < 1000)
             || (width == 4 && n < 10000)
    ensures |Digits(n)| <= width
  {
    if n >= 10 {
      DigitsWidth(n / 10, width - 1);
    }
  }

  lemma {:induction false} PadWidth(n: nat, width: nat)
    requires (width == 2 && n < 100) || (width == 4 && n < 10000)
    ensures |Pad(n, width)| == width && Value(Pad(n, width)) == n
  {
    DigitsWidth(n, width);
    ValueOfPad(n, width);
  }

  lemma {:induction false} IsoSplits(d: Date)
    requires d.year >= 0 && d.month >= 0 && d.day >= 0
    ensures Split(Iso(d), '-') == [Pad(d.year, 4), Pad(d.month, 2), Pad(d.day, 2)]
  {
    SplitThree(Pad(d.year, 4), Pad(d.month, 2), Pad(d.day, 2), '-');
  }

  lemma {:induction false} IntOfDigits(s: string)
    requires AllDigits(s) && 1 <= |s| <= 4
    ensures IntOf(s) == Some(Value(s))
  {
    Money.StripNothing(s);
    WithoutNothing(s, {'_'});
  }

  lemma {:induction false} R11OfParts(s: string, y: nat, m: nat, d: nat)
    requires s != "" && Strip(s) == s && |Split(s, '-')| == 3
    requires IntOf(Split(s, '-')[0]) == Some(y)
    requires IntOf(Split(s, '-')[1]) == Some(m)
    requires IntOf(Split(s, '-')[2]) == Some(d)
    ensures R11(Some(s)) == if y > MAX_C_INT || m > MAX_C_INT || d > MAX_C_INT then Raises
                            else FiresIf(!IsDay(Date(y, m, d)))
  {
    hide Split, IntOf, Strip, IsDay;
  }

  /** R11 on a date in the ISO shape fires exactly when the day does not exist. */
  lemma {:induction false} R11OnIso(d: Date)
    requires 0 <= d.year <= 9999 && 0 <= d.month <= 99 && 0 <= d.day <= 99
    ensures R11(Some(Iso(d))) == FiresIf(!IsDay(d))
  {
    hide Split, IntOf, Strip, IsDay, R11, Pad;
    PadWidth(d.year, 4);
    PadWidth(d.month, 2);
    PadWidth(d.day, 2);
    IsoSplits(d);
    Money.StripNothing(Iso(d));
    IntOfDigits(Pad(d.year, 4));
    IntOfDigits(Pad(d.month, 2));
    IntOfDigits(Pad(d.day, 2));
    R11OfParts(Iso(d), d.year, d.month, d.day);
  }

  // ----- the laws

  lemma {:induction false} FirstDateIsADay(s: string, i: nat)
    requires i <= |LAYOUTS| && FirstDate(s, i).Some?
    ensures IsDay(FirstDate(s, i).value)
    decreases |LAYOUTS| - i
  {
    if Strptime(s, LAYOUTS[i]).None? {
      FirstDateIsADay(s, i + 1);
    }
  }

  /** Every accepted text is the ISO form of a day that exists, and R11 never fires on it. */
  lemma {:induction false} AcceptedIsARealDay(text: string) returns (d: Date)
    requires InvoiceDate(text).Ok?
    ensures IsDay(d) && InvoiceDate(text).iso == Iso(d)
    ensures R11(Some(InvoiceDate(text).iso)) == Passes
  {
    var value := Lower(Money.CleanText(text));
    var words := Split(value, ' ');
    if IsSpelled(words) {
      d := Date(Value(words[4]), MonthNumber(words[2], 0), Value(words[0]));
    } else {
      d := FirstDate(value, 0).value;
      FirstDateIsADay(value, 0);
    }
    R11OnIso(d);
  }

  /** No text is a date under two layouts, so the order of the loop does not matter. */
  lemma {:induction false} LayoutsDisjoint(s: string, i: nat, j: nat)
    requires i < j < |LAYOUTS| && Strptime(s, LAYOUTS[i]).Some?
    ensures Strptime(s, LAYOUTS[j]).None?
  {
    var c := LAYOUTS[i].sep;
    var e := if LAYOUTS[j].DMY? then LAYOUTS[j].sep else '-';
    if c != e {
      SplitJoins(s, c);
      var parts := Split(s, c);
      ThreeJoined(parts, c);
      assert Lacks(s, e);
      SplitNothing(s, e);
    }
  }

  lemma {:induction false} ThreeJoined(parts: seq<string>, c: char)
    requires |parts| == 3
    ensures Joined(parts, c) == parts[0] + [c] + (parts[1] + [c] + parts[2])
  {
    assert parts[1..][1..] == [parts[2]];
    assert Joined(parts[1..], c) == parts[1] + [c] + parts[2];
  }

  /** Day, month and year in figures, between two slashes, hyphens or points, are read as that day when
      it exists and refused when it does not. */
  lemma {:induction false} NumericDateIsRead(day: string, month: string, year: string, sep: char)
    requires sep == '/' || sep == '-' || sep == '.'
    requires 1 <= |day| <= 2 && 1 <= |month| <= 2 && |year| == 4
    requires AllDigits(day) && AllDigits(month) && AllDigits(year)
    ensures var d := Date(Value(year), Value(month), Value(day));
            InvoiceDate(day + [sep] + month + [sep] + year) == if IsDay(d) then Ok(Iso(d)) else Invalid
  {
    hide Split, Money.CleanText, Strptime, IsDay, Iso;
    var i := if sep == '/' then 0 else if sep == '-' then 1 else 2;
    var s := day + [LAYOUTS[i].sep] + month + [LAYOUTS[i].sep] + year;
    Money.CleanUnchanged(s);
    NoLetters(s);
    SplitNothing(s, ' ');
    LayoutsOfNumeric(s, day, month, year, i);
    OnlyLayout(s, i, 0);
  }

  lemma {:induction false} LayoutsOfNumeric(s: string, day: string, month: string, year: string, i: nat)
    requires i < 3 && 1 <= |day| <= 2 && 1 <= |month| <= 2 && |year| == 4
    requires AllDigits(day) && AllDigits(month) && AllDigits(year)
    requires s == day + [LAYOUTS[i].sep] + month + [LAYOUTS[i].sep] + year
    ensures var d := Date(Value(year), Value(month), Value(day));
            Strptime(s, LAYOUTS[i]) == if IsDay(d) then Some(d) else None
    ensures forall j :: 0 <= j < 4 && j != i ==> Strptime(s, LAYOUTS[j]).None?
  {
    hide Split;
    SplitThree(day, month, year, LAYOUTS[i].sep);
    forall j | 0 <= j < 4 && j != i
      ensures Strptime(s, LAYOUTS[j]).None?
    {
      if j != 3 || LAYOUTS[i].sep != '-' {
        SplitNothing(s, if LAYOUTS[j].DMY? then LAYOUTS[j].sep else '-');
      }
    }
  }

  /** With the year first, a one-digit day may stand after a space. */
  lemma {:induction false} SpacedDayIsRead(year: string, month: string, day: string)
    requires |year| == 4 && 1 <= |month| <= 2 && |day| == 1
    requires AllDigits(day) && AllDigits(month) && AllDigits(year)
    ensures var d := Date(Value(year), Value(month), Value(day));
            InvoiceDate(year + "-" + month + "- " + day) == if IsDay(d) then Ok(Iso(d)) else Invalid
  {
    hide Split, Money.CleanText, IsDay, Iso, FirstDate, Strptime;
    var s := year + "-" + month + "- " + day;
    var a := year + "-" + month + "-";
    assert s == a + " " + day == a + [' '] + day;
    Money.CleanDressed(a, " ", day);
    NoLetters(a);
    LowerConcat(a + " ", day);
    LowerConcat(a, " ");
    LowerSpace();
    LowerDigits(day);
    SplitFirst(a, ' ', day);
    SplitNothing(day, ' ');
    assert Split(s, ' ') == [a] + [day];
    LayoutsOfSpaced(s, year, month, day);
    OnlyLayout(s, 3, 0);
  }

  lemma {:induction false} LayoutsOfSpaced(s: string, year: string, month: string, day: string)
    requires |year| == 4 && 1 <= |month| <= 2 && |day| == 1
    requires AllDigits(day) && AllDigits(month) && AllDigits(year)
    requires s == year + "-" + month + "- " + day
    ensures var d := Date(Value(year), Value(month), Value(day));
            Strptime(s, LAYOUTS[3]) == if IsDay(d) then Some(d) else None
    ensures forall j :: 0 <= j < 3 ==> Strptime(s, LAYOUTS[j]).None?
  {
    hide Split;
    assert s == year + ['-'] + month + ['-'] + (" " + day);
    SplitThree(year, month, " " + day, '-');
    assert (" " + day)[1..] == day;
    forall j | 0 <= j < 3
      ensures Strptime(s, LAYOUTS[j]).None?
    {
      if j != 1 {
        SplitNothing(s, LAYOUTS[j].sep);
      }
    }
  }

  // ----- spelled dates

  lemma {:induction false} MonthsDiffer(i: nat, j: nat)
    requires i < 12 && j < 12 && i != j
    ensures MONTHS[i] != MONTHS[j]
  {
    var a, b := MONTHS[i], MONTHS[j];
    assert |a| >= 4 && |b| >= 4;
    assert |a| != |b| || a[0] != b[0] || a[2] != b[2];
  }

  lemma {:induction false} MonthIsAWord(k: nat)
    requires k < 12
    ensures IsWord(MONTHS[k]) && Money.Spaceless(MONTHS[k])
  {
  }

  lemma {:induction false} MonthFound(k: nat)
    requires k < 12
    ensures MonthNumber(MONTHS[k], 0) == k + 1
  {
    hide MonthNumber;
    var month := MonthNumber(MONTHS[k], 0);
    if month != 0 && month != k + 1 {
      MonthsDiffer(month - 1, k);
    }
  }

  lemma {:induction false} LowerKeepsSpaces(s: string)
    requires Money.Spaceless(s)
    ensures Money.Spaceless(Lower(s))
  {
    if s != "" {
      LowerKeepsSpaces(s[1..]);
    }
  }

  lemma {:induction false} LowerDigits(s: string)
    requires AllDigits(s)
    ensures Lower(s) == s
  {
    if s != "" {
      LowerDigits(s[1..]);
    }
  }

  function LowerAll(words: seq<string>): (r: seq<string>)
    ensures |r| == |words| && forall i :: 0 <= i < |words| ==> r[i] == Lower(words[i])
  {
    seq(|words|, i requires 0 <= i < |words| => Lower(words[i]))
  }

  lemma {:induction false} LowerSingleSpaced(words: seq<string>)
    ensures Lower(Money.SingleSpaced(words)) == Money.SingleSpaced(LowerAll(words))
  {
    hide Lower;
    if |words| == 0 {
      assert Lower("") == "";
    } else if |words| > 1 {
      LowerSingleSpaced(words[1..]);
      assert LowerAll(words)[1..] == LowerAll(words[1..]);
      var rest := Money.SingleSpaced(words[1..]);
      LowerConcat(words[0] + " ", rest);
      LowerConcat(words[0], " ");
      LowerSpace();
    }
  }

  lemma {:induction false} LowerSpace()
    ensures Lower(" ") == " "
  {
    assert " "[1..] == "";
  }

  lemma {:induction false} SplitSingleSpaced(words: seq<string>)
    requires words != [] && forall i :: 0 <= i < |words| ==> Money.Spaceless(words[i])
    ensures Split(Money.SingleSpaced(words), ' ') == words
  {
    hide Split;
    if |words| == 1 {
      SplitNothing(words[0], ' ');
    } else {
      SplitSingleSpaced(words[1..]);
      SplitFirst(words[0], ' ', Money.SingleSpaced(words[1..]));
      assert words == [words[0]] + words[1..];
    }
  }

  /** The Spanish names of the twelve months. */
  predicate NamesMonth(name: string, month: int) {
    || (month == 1 && name == "enero") || (month == 2 && name == "febrero")
    || (month == 3 && name == "marzo") || (month == 4 && name == "abril")
    || (month == 5 && name == "mayo") || (month == 6 && name == "junio")
    || (month == 7 && name == "julio") || (month == 8 && name == "agosto")
    || (month == 9 && name == "septiembre") || (month == 10 && name == "octubre")
    || (month == 11 && name == "noviembre") || (month == 12 && name == "diciembre")
  }

  lemma {:induction false} MonthNames(month: int)
    requires 1 <= month <= 12
    ensures NamesMonth(MONTHS[month - 1], month)
  {
  }

  lemma {:induction false} OneName(name: string, month: int)
    requires NamesMonth(name, month)
    ensures 1 <= month <= 12 && name == MONTHS[month - 1]
  {
  }

  /** A day, a month by its name in any case, and a year, with any spaces around and between the five
      words, are read as that day when it exists and refused when it does not. */
  lemma {:induction false} SpelledDateIsRead(lead: nat, words: seq<string>, gaps: seq<nat>, month: nat)
    requires |words| == 5 && Money.WellSpaced(words, gaps) && 1 <= month <= 12
    requires 1 <= |words[0]| <= 2 && AllDigits(words[0]) && |words[4]| == 4 && AllDigits(words[4])
    requires Lower(words[1]) == Lower(words[3]) == "de" && NamesMonth(Lower(words[2]), month)
    ensures var d := Date(Value(words[4]), month, Value(words[0]));
            InvoiceDate(Money.Blanks(lead) + Money.Spaced(words, gaps))
            == if IsDay(d) then Ok(Iso(d)) else Invalid
  {
    hide Split, Money.CleanText, Lower, IsDay, Iso, MonthNumber, FirstDate;
    Money.CleanSpaced(lead, words, gaps);
    LowerSingleSpaced(words);
    forall i | 0 <= i < 5
      ensures Money.Spaceless(LowerAll(words)[i])
    {
      LowerKeepsSpaces(words[i]);
    }
    SplitSingleSpaced(LowerAll(words));
    LowerDigits(words[0]);
    LowerDigits(words[4]);
    OneName(Lower(words[2]), month);
    MonthIsAWord(month - 1);
    MonthFound(month - 1);
  }

  // ----- nothing else is read

  /** The ways of writing a day: figures between two slashes, hyphens or points, the year first between
      hyphens, or words. A one-digit day may have a space before it. */
  predicate WritesDay(s: string, day: string, month: string, year: string, d: Date) {
    && IsDayText(day) && |year| == 4 && AllDigits(year)
    && d.day == DayNumber(day) && d.year == Value(year)
    && (|| (1 <= |month| <= 2 && AllDigits(month) && d.month == Value(month)
            && (|| s == day + "/" + month + "/" + year
                || s == day + "-" + month + "-" + year
                || s == day + "." + month + "." + year
                || s == year + "-" + month + "-" + day))
        || (NamesMonth(month, d.month) && s == day + " de " + month + " de " + year))
  }

  /** What is accepted, cleaned and in small letters, writes the day it is read as. */
  lemma {:induction false} AcceptedIsWritten(text: string)
    returns (day: string, month: string, year: string, d: Date)
    requires InvoiceDate(text).Ok?
    ensures WritesDay(Lower(Money.CleanText(text)), day, month, year, d)
    ensures IsDay(d) && InvoiceDate(text).iso == Iso(d)
  {
    hide Split, Money.CleanText, Lower, IsDay, Iso;
    var s := Lower(Money.CleanText(text));
    var words := Split(s, ' ');
    SplitJoins(s, ' ');
    if IsSpelled(words) {
      day, month, year := words[0], words[2], words[4];
      d := Date(Value(year), MonthNumber(month, 0), Value(day));
      MonthNames(d.month);
      FiveJoined(words);
      SpelledDayIsText(words);
    } else {
      var i := FirstLayout(s, 0);
      day, month, year, d := LayoutIsWritten(s, i);
    }
  }

  lemma {:induction false} FiveJoined(words: seq<string>)
    requires |words| == 5 && words[1] == words[3] == "de"
    ensures Joined(words, ' ') == words[0] + " de " + words[2] + " de " + words[4]
  {
    assert words[1..][1..] == words[2..] && words[2..][1..] == words[3..] && words[3..][1..] == words[4..];
    assert Joined(words[4..], ' ') == words[4];
    assert Joined(words[3..], ' ') == words[3] + [' '] + words[4];
    assert Joined(words[2..], ' ') == words[2] + [' '] + Joined(words[3..], ' ');
    assert Joined(words[1..], ' ') == words[1] + [' '] + Joined(words[2..], ' ');
  }

  lemma {:induction false} SpelledDayIsText(words: seq<string>)
    requires IsSpelled(words) && SpelledDate(words).Ok?
    ensures IsDayText(words[0]) && DayNumber(words[0]) == Value(words[0])
  {
  }

  lemma {:induction false} FirstLayout(s: string, from: nat) returns (i: nat)
    requires from <= |LAYOUTS| && FirstDate(s, from).Some?
    ensures i < |LAYOUTS| && Strptime(s, LAYOUTS[i]) == FirstDate(s, from)
    decreases |LAYOUTS| - from
  {
    if Strptime(s, LAYOUTS[from]).Some? {
      i := from;
    } else {
      i := FirstLayout(s, from + 1);
    }
  }

  lemma {:induction false} LayoutIsWritten(s: string, i: nat)
    returns (day: string, month: string, year: string, d: Date)
    requires i < |LAYOUTS| && Strptime(s, LAYOUTS[i]).Some?
    ensures WritesDay(s, day, month, year, d) && IsDay(d) && Strptime(s, LAYOUTS[i]) == Some(d)
  {
    hide Split, IsDay;
    var c := if LAYOUTS[i].DMY? then LAYOUTS[i].sep else '-';
    var parts := Split(s, c);
    SplitJoins(s, c);
    ThreeJoined(parts, c);
    month := parts[1];
    day, year := if i < 3 then parts[0] else parts[2], if i < 3 then parts[2] else parts[0];
    d := Date(Value(year), Value(month), DayNumber(day));
  }

  /** Five words, of which the middle one is where a month's name stands. */
  predicate SpellsMonth(s: string, words: seq<string>) {
    && |words| == 5 && s == words[0] + " de " + words[2] + " de " + words[4]
    && words[1] == words[3] == "de"
    && 1 <= |words[0]| <= 2 && AllDigits(words[0]) && |words[4]| == 4 && AllDigits(words[4])
    && words[2] != ""
    && forall i :: 0 <= i < |words[2]| ==>
         IsSmall(words[2][i]) || IsCapital(words[2][i]) || IsDigit(words[2][i]) || words[2][i] == '_'
  }

  /** The KeyError of an unknown month: a date spelled with another word where the month stands. */
  lemma {:induction false} UnknownMonthIff(text: string)
    ensures InvoiceDate(text).UnknownMonth? <==>
            exists words :: SpellsMonth(Lower(Money.CleanText(text)), words)
                            && forall month :: !NamesMonth(words[2], month)
  {
    hide Split, Money.CleanText, Lower, IsDay, Iso, MonthNumber;
    var s := Lower(Money.CleanText(text));
    var words := Split(s, ' ');
    SplitJoins(s, ' ');
    if IsSpelled(words) {
      FiveJoined(words);
      assert SpellsMonth(s, words);
      MonthKnownIff(words[2]);
    }
    forall other | SpellsMonth(s, other)
      ensures other == words && IsSpelled(words)
    {
      SplitSpelled(s, other);
    }
  }

  lemma {:induction false} MonthKnownIff(word: string)
    ensures MonthNumber(word, 0) != 0 <==> exists month :: NamesMonth(word, month)
  {
    var month := MonthNumber(word, 0);
    if month != 0 {
      MonthNames(month);
    }
    if m :| NamesMonth(word, m) {
      OneName(word, m);
    }
  }

  lemma {:induction false} SplitSpelled(s: string, words: seq<string>)
    requires SpellsMonth(s, words)
    ensures Split(s, ' ') == words && IsSpelled(words)
  {
    hide Split;
    forall i | 0 <= i < 5
      ensures Money.Spaceless(words[i])
    {
    }
    SplitSingleSpaced(words);
    assert words[1..][1..] == words[2..] && words[2..][1..] == words[3..] && words[3..][1..] == words[4..];
    assert Money.SingleSpaced(words[4..]) == words[4];
    assert Money.SingleSpaced(words[3..]) == words[3] + " " + words[4];
    assert Money.SingleSpaced(words[2..]) == words[2] + " " + Money.SingleSpaced(words[3..]);
    assert Money.SingleSpaced(words[1..]) == words[1] + " " + Money.SingleSpaced(words[2..]);
    assert Money.SingleSpaced(words) == words[0] + " " + Money.SingleSpaced(words[1..]);
    assert Money.SingleSpaced(words) == s;
  }

  /** With one layout possible, the loop ends on it. */
  lemma {:induction false} OnlyLayout(s: string, i: nat, from: nat)
    requires from <= i < |LAYOUTS|
    requires forall j :: 0 <= j < |LAYOUTS| && j != i ==> Strptime(s, LAYOUTS[j]).None?
    ensures FirstDate(s, from) == Strptime(s, LAYOUTS[i])
    decreases i - from
  {
    if from < i {
      OnlyLayout(s, i, from + 1);
    } else {
      NoLayoutLeft(s, i + 1);
    }
  }

  lemma {:induction false} NoLayoutLeft(s: string, from: nat)
    requires from <= |LAYOUTS|
    requires forall j :: from <= j < |LAYOUTS| ==> Strptime(s, LAYOUTS[j]).None?
    ensures FirstDate(s, from).None?
    decreases |LAYOUTS| - from
  {
    if from < |LAYOUTS| {
      NoLayoutLeft(s, from + 1);
    }
  }

  lemma {:induction false} NoLetters(s: string)
    requires forall i :: 0 <= i < |s| ==> IsDigit(s[i]) || IsPrintedSep(s[i])
    ensures Lower(s) == s
  {
    if s != "" {
      NoLetters(s[1..]);
    }
  }

  lemma {:induction false} LayoutsOfIso(d: Date)
    requires IsDay(d)
    ensures Strptime(Iso(d), LAYOUTS[3]) == Some(d)
    ensures forall j :: 0 <= j < 3 ==> Strptime(Iso(d), LAYOUTS[j]).None?
  {
    hide Split, Pad, Iso, IsDay;
    DaysAndMonthsFit(d);
    PadWidth(d.year, 4);
    PadWidth(d.month, 2);
    PadWidth(d.day, 2);
    IsoSplits(d);
    IsoShape(d);
    SplitNothing(Iso(d), '/');
    SplitNothing(Iso(d), '.');
  }

  lemma {:induction false} DaysAndMonthsFit(d: Date)
    requires IsDay(d)
    ensures 1 <= d.year <= 9999 && 1 <= d.month <= 12 && 1 <= d.day <= 31
  {
  }

  lemma {:induction false} IsoShape(d: Date)
    requires d.year >= 0 && d.month >= 0 && d.day >= 0
    ensures Iso(d) != ""
    ensures forall i :: 0 <= i < |Iso(d)| ==> IsDigit(Iso(d)[i]) || Iso(d)[i] == '-'
  {
  }

  lemma {:induction false} IsoIsReadBack(d: Date)
    requires IsDay(d)
    ensures InvoiceDate(Iso(d)) == Ok(Iso(d))
  {
    hide Split, Iso, Strptime, Money.CleanText;
    DaysAndMonthsFit(d);
    var s := Iso(d);
    IsoShape(d);
    Money.CleanUnchanged(s);
    NoLetters(s);
    SplitNothing(s, ' ');
    LayoutsOfIso(d);
    OnlyLayout(s, 3, 0);
  }

  /** `invoice_date` is a fixpoint on what it returns. */
  lemma {:induction false} InvoiceDateIsAFixpoint(text: string)
    requires InvoiceDate(text).Ok?
    ensures InvoiceDate(InvoiceDate(text).iso) == InvoiceDate(text)
  {
    var d := AcceptedIsARealDay(text);
    IsoIsReadBack(d);
  }

  lemma {:induction false} ValueBound(s: string)
    requires AllDigits(s) && |s| <= 4
    ensures Value(s) <= if |s| == 0 then 0 else if |s| == 1 then 9 else if |s| == 2 then 99
                        else if |s| == 3 then 999 else 9999
  {
    if s != "" {
      ValueBound(s[..|s| - 1]);
    }
  }

  /** A printed date is split in one way only. */
  lemma {:induction false} OnePrinting(s: string, a: nat, b: nat)
    requires IsPrinted(s, a, b)
    ensures forall c: nat, e: nat :: IsPrinted(s, c, e) ==> c == a && e == b
  {
  }

  /** A printed day, month and year that were kept fire R11 exactly when that day does not exist. */
  lemma {:induction false} KeptDateFiresIffImpossible(printed: Field, a: nat, b: nat)
    requires IsPrinted(TextOf(printed), a, b)
    ensures KeptDate(None, printed) == Some(Iso(Printed(TextOf(printed), a, b)))
    ensures R11(KeptDate(None, printed)) == FiresIf(!IsDay(Printed(TextOf(printed), a, b)))
  {
    var s := TextOf(printed);
    OnePrinting(s, a, b);
    ValueBound(s[..a]);
    ValueBound(s[a + 1..a + 1 + b]);
    ValueBound(s[a + b + 2..]);
    R11OnIso(Printed(s, a, b));
  }

  /** A date printed in figures, which the normaliser refused, is kept as year, month and day in the ISO
      shape, whatever the separators; a date it did not refuse is kept as it is. */
  lemma {:induction false} PrintedIsKept(day: string, month: string, year: string, c: char, e: char)
    requires 1 <= |day| <= 2 && 1 <= |month| <= 2 && |year| == 4
    requires AllDigits(day) && AllDigits(month) && AllDigits(year)
    requires (c == '/' || c == '.' || c == '-') && (e == '/' || e == '.' || e == '-')
    ensures var s := day + [c] + month + [e] + year;
            && KeptDate(None, Some(s)) == Some(Iso(Date(Value(year), Value(month), Value(day))))
            && R11(KeptDate(None, Some(s))) == FiresIf(!IsDay(Date(Value(year), Value(month), Value(day))))
    ensures forall iso, printed :: KeptDate(Some(iso), printed) == Some(iso)
  {
    hide R11, IsDay, Iso;
    var s := day + [c] + month + [e] + year;
    var a, b := |day|, |month|;
    assert s[..a] == day && s[a + 1..a + 1 + b] == month && s[a + b + 2..] == year;
    Money.StripNothing(s);
    KeptDateFiresIffImpossible(Some(s), a, b);
  }

  lemma {:induction false} UnderscoreFree(n: nat)
    requires |Digits(n)| <= MAX_STR_DIGITS
    ensures IntOf(Digits(n)) == Some(n)
  {
    Money.StripNothing(Digits(n));
    WithoutNothing(Digits(n), {'_'});
    ValueOfDigits(n);
  }

  /** A number may have spaces around it and a plus before it. */
  lemma {:induction false} IntReads(before: nat, plus: bool, digits: string, after: nat)
    requires digits != "" && AllDigits(digits) && |digits| <= 4300
    ensures IntOf(Money.Blanks(before) + (if plus then "+" else "") + digits + Money.Blanks(after))
         == Some(Value(digits))
  {
    var core := (if plus then "+" else "") + digits;
    var s := Money.Blanks(before) + (if plus then "+" else "") + digits + Money.Blanks(after);
    StripBlanks(before, core, after);
    assert s == Money.Blanks(before) + core + Money.Blanks(after);
    IntOfCore(s, plus, digits);
  }

  lemma {:induction false} IntOfCore(s: string, plus: bool, digits: string)
    requires digits != "" && AllDigits(digits) && |digits| <= 4300
    requires Strip(s) == (if plus then "+" else "") + digits
    ensures IntOf(s) == Some(Value(digits))
  {
    hide Strip, IsIntText;
    assert plus ==> Strip(s)[1..] == digits;
    assert !plus ==> Strip(s) == digits;
    DigitsAreIntText(digits);
  }

  lemma {:induction false} DigitsAreIntText(digits: string)
    requires digits != "" && AllDigits(digits) && |digits| <= 4300
    ensures IsIntText(digits) && WithoutUnderscores(digits) == digits
  {
    WithoutNothing(digits, {'_'});
  }

  lemma {:induction false} StripBlanks(before: nat, core: string, after: nat)
    requires core != "" && core[0] != ' ' && core[|core| - 1] != ' '
    ensures Strip(Money.Blanks(before) + core + Money.Blanks(after)) == core
  {
    var s := Money.Blanks(before) + core + Money.Blanks(after);
    if before > 0 {
      StripBlanks(before - 1, core, after);
      assert s[1..] == Money.Blanks(before - 1) + core + Money.Blanks(after);
    } else if after > 0 {
      StripBlanks(0, core, after - 1);
      assert s[..|s| - 1] == core + Money.Blanks(after - 1)
          == Money.Blanks(0) + core + Money.Blanks(after - 1);
      assert StripLeft(s) == s && StripLeft(s[..|s| - 1]) == s[..|s| - 1];
    } else {
      assert s == core;
    }
  }

  /** What is read as a number holds digits, single underscores between them, and a plus or spaces
      outside; and its value is that of its digits. */
  lemma {:induction false} IntMeansDigits(s: string)
    requires IntOf(s).Some?
    ensures forall i :: 0 <= i < |s| ==> IsDigit(s[i]) || s[i] == '_' || s[i] == '+' || s[i] == ' '
    ensures var digits := Without(s, {'_', '+', ' '});
            digits != "" && AllDigits(digits) && |digits| <= 4300 && IntOf(s) == Some(Value(digits))
    ensures forall i :: 0 <= i < |s| && s[i] == '_' ==>
              0 < i < |s| - 1 && IsDigit(s[i - 1]) && IsDigit(s[i + 1])
  {
    hide Strip, Without, IntOf, IsIntText;
    var before, after := StripIs(s);
    var sign, u := IntParts(s);
    assert s == before + (sign + u) + after;
    UnderscoresInside(s, before, sign, u, after);
    var drop := {'_', '+', ' '};
    WithoutConcat(before + (sign + u), after, drop);
    WithoutConcat(before, sign + u, drop);
    WithoutConcat(sign, u, drop);
    AllDropped(before, drop);
    AllDropped(after, drop);
    AllDropped(sign, drop);
    SameDropped(u);
    assert Without(s, drop) == "" + ("" + WithoutUnderscores(u)) + "" == WithoutUnderscores(u);
  }

  lemma {:induction false} IntParts(s: string) returns (sign: string, u: string)
    requires IntOf(s).Some?
    ensures sign in {"", "+"} && Strip(s) == sign + u
    ensures forall i :: 0 <= i < |u| ==> IsDigit(u[i]) || u[i] == '_'
    ensures u != "" && IsDigit(u[0]) && IsDigit(u[|u| - 1])
    ensures forall i :: 0 < i < |u| && u[i] == '_' ==> u[i - 1] != '_'
    ensures var digits := WithoutUnderscores(u);
            digits != "" && AllDigits(digits) && |digits| <= 4300 && IntOf(s) == Some(Value(digits))
  {
    hide Strip, Without;
    var t := Strip(s);
    u := if t != "" && t[0] == '+' then t[1..] else t;
    sign := if t != "" && t[0] == '+' then "+" else "";
    IntTextIs(u);
  }

  lemma {:induction false} IntTextIs(u: string)
    requires IsIntText(u)
    ensures forall i :: 0 <= i < |u| ==> IsDigit(u[i]) || u[i] == '_'
    ensures u != "" && IsDigit(u[0]) && IsDigit(u[|u| - 1])
    ensures forall i :: 0 < i < |u| && u[i] == '_' ==> u[i - 1] != '_'
    ensures WithoutUnderscores(u) != ""
  {
    DigitStays(u);
  }

  lemma {:induction false} UnderscoresInside(s: string, before: string, sign: string, u: string, after: string)
    requires s == before + (sign + u) + after && AllBlank(before) && AllBlank(after) && sign in {"", "+"}
    requires forall i :: 0 <= i < |u| ==> IsDigit(u[i]) || u[i] == '_'
    requires u != "" && IsDigit(u[0]) && IsDigit(u[|u| - 1])
    requires forall i :: 0 < i < |u| && u[i] == '_' ==> u[i - 1] != '_'
    ensures forall i :: 0 <= i < |s| && s[i] == '_' ==>
              0 < i < |s| - 1 && IsDigit(s[i - 1]) && IsDigit(s[i + 1])
  {
    var at := |before| + |sign|;
    forall i | 0 <= i < |s| && s[i] == '_'
      ensures 0 < i < |s| - 1 && IsDigit(s[i - 1]) && IsDigit(s[i + 1])
    {
      var j := i - at;
      assert 0 <= j < |u| && u[j] == '_';
      assert 0 < j < |u| - 1;
      var k := j + 1;
      assert u[k - 1] == '_';
      assert s[i - 1] == u[j - 1] && s[i + 1] == u[j + 1];
    }
  }

  /** Two runs of digits with an underscore between them are one number. */
  lemma {:induction false} UnderscoreReads(a: string, b: string)
    requires a != "" && b != "" && AllDigits(a) && AllDigits(b) && |a| + |b| <= 4300
    ensures IntOf(a + "_" + b) == Some(Value(a + b))
  {
    hide Strip, IsIntText, Value, IntOf, WithoutUnderscores;
    var s := a + "_" + b;
    Money.StripNothing(s);
    UnderscoreOff(a, b);
    JoinedIsIntText(a, b, s);
    IntOfPlain(s);
  }

  lemma {:induction false} UnderscoreOff(a: string, b: string)
    requires AllDigits(a) && AllDigits(b)
    ensures WithoutUnderscores(a + "_" + b) == a + b
  {
    hide Without, AllDigits;
    WithoutConcat(a + "_", b, {'_'});
    WithoutConcat(a, "_", {'_'});
    NoUnderscore(a);
    NoUnderscore(b);
    Money.SeparatorDropped('_');
    assert a + "" + b == a + b;
  }

  lemma {:induction false} NoUnderscore(s: string)
    requires AllDigits(s)
    ensures Without(s, {'_'}) == s
  {
    WithoutNothing(s, {'_'});
  }

  lemma {:induction false} IntOfPlain(s: string)
    requires Strip(s) == s && IsIntText(s)
    ensures IntOf(s) == Some(Value(WithoutUnderscores(s)))
  {
    hide Strip, WithoutUnderscores;
    assert IsDigit(s[0]);
  }

  lemma {:induction false} JoinedIsIntText(a: string, b: string, s: string)
    requires a != "" && b != "" && AllDigits(a) && AllDigits(b) && |a| + |b| <= 4300
    requires s == a + "_" + b && WithoutUnderscores(s) == a + b
    ensures IsIntText(s) && IsDigit(s[0])
  {
    assert s[0] == a[0] && s[|s| - 1] == b[|b| - 1];
    assert forall i :: 0 <= i < |s| ==> s[i] == if i < |a| then a[i] else if i == |a| then '_' else b[i - |a| - 1];
  }

  lemma {:induction false} AllDropped(s: string, drop: set<char>)
    requires forall i :: 0 <= i < |s| ==> s[i] in drop
    ensures Without(s, drop) == ""
  {
    if s != "" {
      AllDropped(s[1..], drop);
    }
  }

  lemma {:induction false} SameDropped(u: string)
    requires forall i :: 0 <= i < |u| ==> IsDigit(u[i]) || u[i] == '_'
    ensures Without(u, {'_', '+', ' '}) == Without(u, {'_'})
  {
    if u != "" {
      SameDropped(u[1..]);
    }
  }

  lemma {:induction false} DigitStays(u: string)
    requires u != "" && IsDigit(u[0])
    ensures Without(u, {'_'}) != ""
  {
  }

  // ----- when R11 keeps its rule

  /** Year, month and day, when `int` reads all three. */
  function ReadParts(s: string): Option<Date> {
    var parts := Split(s, '-');
    if |parts| != 3 then None
    else
      var y, m, d := IntOf(parts[0]), IntOf(parts[1]), IntOf(parts[2]);
      if y.None? || m.None? || d.None? then None else Some(Date(y.value, m.value, d.value))
  }

  predicate NamesADay(s: string) {
    ReadParts(s).Some? && IsDay(ReadParts(s).value)
  }

  /** Three readable numbers, one of them too large for the C int `date` takes. */
  predicate PartBeyondCInt(s: string) {
    var parts := ReadParts(s);
    parts.Some?
    && (parts.value.year > 0x7FFF_FFFF || parts.value.month > 0x7FFF_FFFF || parts.value.day > 0x7FFF_FFFF)
  }

  /** R11 fires exactly on the dates that name no day, for every date it is given but those with a part
      beyond a C int, and on all of those it raises: OverflowError is not a ValueError. */
  lemma {:induction false} R11KeepsItsRuleIff(date: Field)
    ensures !Empty(date) ==>
              (R11(date) == FiresIf(!NamesADay(TextOf(date))) <==> !PartBeyondCInt(TextOf(date)))
    ensures R11(date) == Raises <==> !Empty(date) && PartBeyondCInt(TextOf(date))
    ensures TextOf(date) == "" ==> R11(date) == Passes
  {
    hide Split, IntOf, Strip;
  }

  /** Any of the three parts can be the one: day, month and year written as plain numerals. */
  lemma {:induction false} NumeralsRaiseIff(y: nat, m: nat, d: nat)
    requires |Digits(y)| <= MAX_STR_DIGITS && |Digits(m)| <= MAX_STR_DIGITS && |Digits(d)| <= MAX_STR_DIGITS
    ensures var date := Some(Digits(y) + "-" + Digits(m) + "-" + Digits(d));
            R11(date) == if y > MAX_C_INT || m > MAX_C_INT || d > MAX_C_INT then Raises
                         else FiresIf(!IsDay(Date(y, m, d)))
  {
    hide Split, IntOf, Strip, IsDay, R11, Digits;
    var s := Digits(y) + "-" + Digits(m) + "-" + Digits(d);
    assert s == Digits(y) + ['-'] + Digits(m) + ['-'] + Digits(d);
    SplitThree(Digits(y), Digits(m), Digits(d), '-');
    UnderscoreFree(y);
    UnderscoreFree(m);
    UnderscoreFree(d);
    Money.StripNothing(s);
    R11OfParts(s, y, m, d);
  }

  /** A number past a C int makes R11 raise instead of fire: that error is not a ValueError. */
  lemma {:induction false} HugeYearRaises(n: nat)
    requires n > MAX_C_INT && |Digits(n)| <= MAX_STR_DIGITS
    ensures R11(Some(Digits(n) + "-01-01")) == Raises
  {
    hide Split, IntOf, Strip, IsDay, R11, Digits;
    var s := Digits(n) + "-01-01";
    assert s == Digits(n) + ['-'] + "01" + ['-'] + "01";
    SplitThree(Digits(n), "01", "01", '-');
    UnderscoreFree(n);
    IntOfDigits("01");
    ValueBound("01");
    Money.StripNothing(s);
    R11OfParts(s, n, Value("01"), Value("01"));
  }
}
