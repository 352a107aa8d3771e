/**
 The generator of `tools/hiring_mock.py`: `Factory` makes candidates nothing speaks against, and
 `build` turns each into the trap of its category. Random numbers are arguments: every natural number
 stands for a draw, which the code folds into the range it asks for.

 Read with HiringPolicy, whose `outcome` is written independently of the generator.
 */
module HiringFactory {
  import opened Text
  import opened Numerals
  import opened HiringPolicy

  datatype Category =
    | CLEAN | MISSING_EMAIL | UNKNOWN_CODE | CLOSED_POSITION | HELD_POSITION | FEW_YEARS | OVER_CAP
    | DROPPED_SKILL | BARRED | REAPPLIED | DUPLICATE | LATE | INJECTED_TEXT | SPANISH_LABELS | SCANNED

  const CATEGORIES: seq<Category> := [
    CLEAN, MISSING_EMAIL, UNKNOWN_CODE, CLOSED_POSITION, HELD_POSITION, FEW_YEARS, OVER_CAP,
    DROPPED_SKILL, BARRED, REAPPLIED, DUPLICATE, LATE, INJECTED_TEXT, SPANISH_LABELS, SCANNED]

  /** The outcome the category table declares. */
  function Expected(c: Category): Decision {
    match c
    case CLEAN => INTERVIEW
    case MISSING_EMAIL => REVIEW
    case UNKNOWN_CODE => REVIEW
    case CLOSED_POSITION => REJECT
    case HELD_POSITION => REVIEW
    case FEW_YEARS => REJECT
    case OVER_CAP => REVIEW
    case DROPPED_SKILL => REJECT
    case BARRED => REJECT
    case REAPPLIED => REVIEW
    case DUPLICATE => REVIEW
    case LATE => REVIEW
    case INJECTED_TEXT => REJECT
    case SPANISH_LABELS => INTERVIEW
    case SCANNED => INTERVIEW
  }

  datatype Candidate = Candidate(
    fileId: string,
    category: Category,
    fullName: string,
    email: Option<string>,
    positionCode: string,
    years: int,
    salary: int,
    skills: seq<string>,
    availableFrom: int,
    spanish: bool,
    scanned: bool,
    injected: bool)

  const UNKNOWN_CODES := ["BE-2025-09", "ML-2026-01", "OPS-2024-02"]

  function FileId(number: nat): string {
    "cv-" + Pad(number, 3) + ".pdf"
  }

  /** `", ".join(skills)` */
  function Join(skills: seq<string>): string {
    if skills == [] then "" else if |skills| == 1 then skills[0] else skills[0] + ", " + Join(skills[1..])
  }

  function SymbolsOf(c: Candidate): Symbols {
    Symbols(c.fileId, c.fullName, c.email, c.positionCode, Some(c.years), Some(c.salary),
            Join(c.skills), Some(c.availableFrom))
  }

  /** The symbols of every candidate with another id. */
  function OthersOf(candidates: seq<Candidate>, id: string): seq<Symbols> {
    if candidates == [] then []
    else
      (if candidates[0].fileId != id then [SymbolsOf(candidates[0])] else [])
      + OthersOf(candidates[1..], id)
  }

  // ----- the tables the generator draws from

  predicate IsSkill(s: string) {
    s != "" && Lacks(s, ',') && Strip(s) == s
  }

  /** No two skills of a position are one skill but for case. */
  predicate SkillsTellApart(p: Position) {
    var all := Required(p) + p.extraSkills;
    && (forall i :: 0 <= i < |all| ==> IsSkill(all[i]))
    && (forall i, j :: 0 <= i < j < |all| ==> Lower(all[i]) != Lower(all[j]))
  }

  /** What the constants of the file have to satisfy. */
  predicate WellFormed(positions: seq<Position>) {
    && (forall i :: 0 <= i < |positions| ==>
          && positions[i].code != ""
          && positions[i].minYears >= 1
          && SkillsTellApart(positions[i])
          && positions[i].code !in UNKNOWN_CODES)
    && (forall i, j :: 0 <= i < j < |positions| ==> positions[i].code != positions[j].code)
    && WithStatus(positions, OPEN) != []
    && WithStatus(positions, CLOSED) != []
    && WithStatus(positions, ON_HOLD) != []
  }

  function WithStatus(positions: seq<Position>, status: PositionStatus): (r: seq<Position>)
    ensures forall i :: 0 <= i < |r| ==> r[i] in positions && r[i].status == status
  {
    if positions == [] then []
    else
      (if positions[0].status == status then [positions[0]] else [])
      + WithStatus(positions[1..], status)
  }

  /** `rng.choice([p for p in positions() if p["status"] == status])` */
  function Choose(positions: seq<Position>, status: PositionStatus, n: nat): (p: Position)
    requires WithStatus(positions, status) != []
    ensures p in positions && p.status == status
  {
    var those := WithStatus(positions, status);
    those[n % |those|]
  }

  lemma {:induction false} FoundByCode(positions: seq<Position>, p: Position)
    requires p in positions
    requires forall i, j :: 0 <= i < j < |positions| ==> positions[i].code != positions[j].code
    ensures PositionOf(p.code, positions) == Some(p)
  {
    var last := |positions| - 1;
    if positions[last] != p {
      var i :| 0 <= i < |positions| && positions[i] == p;
      assert p == positions[..last][i];
      FoundByCode(positions[..last], p);
    }
  }

  lemma {:induction false} NotFoundByCode(positions: seq<Position>, code: string)
    requires forall i :: 0 <= i < |positions| ==> positions[i].code != code
    ensures PositionOf(code, positions) == None
  {
    if positions != [] {
      NotFoundByCode(positions[..|positions| - 1], code);
    }
  }

  // ----- draws

  /** The draws of one `clean`: a position, the numbers of `person`, experience, salary, the shuffled
      skills, and the day of availability. */
  datatype CleanDraw = CleanDraw(
    position: nat, numbers: seq<nat>, years: nat, salary: nat, skills: seq<string>, available: nat)

  /** The draws of one candidate: a first `clean`, the second one of the two categories that make
      another, and the category's own number. */
  datatype Draw = Draw(first: CleanDraw, closed: CleanDraw, held: CleanDraw, pick: nat)

  /** What a sample of the extra skills, shuffled among the required ones, can be. */
  predicate IsArrangement(skills: seq<string>, p: Position) {
    && (forall s :: s in Required(p) ==> s in skills)
    && (forall s :: s in skills ==> s in Required(p) || s in p.extraSkills)
  }

  predicate PossibleDraw(positions: seq<Position>, d: Draw)
    requires WellFormed(positions)
  {
    && IsArrangement(d.first.skills, Choose(positions, OPEN, d.first.position))
    && IsArrangement(d.closed.skills, Choose(positions, CLOSED, d.closed.position))
    && IsArrangement(d.held.skills, Choose(positions, ON_HOLD, d.held.position))
  }

  // ----- emails

  function PlainLetter(c: char): char {
    match c
    case '\U{E1}' => 'a' case '\U{E9}' => 'e' case '\U{ED}' => 'i' case '\U{F3}' => 'o'
    case '\U{FA}' => 'u' case '\U{F1}' => 'n' case '\U{FC}' => 'u'
    case '\U{C1}' => 'A' case '\U{C9}' => 'E' case '\U{CD}' => 'I' case '\U{D3}' => 'O'
    case '\U{DA}' => 'U' case '\U{D1}' => 'N' case '\U{DC}' => 'U'
    case _ => c
  }

  function PlainLetters(s: string): string {
    if s == "" then "" else [PlainLetter(s[0])] + PlainLetters(s[1..])
  }

  function Slug(s: string): string {
    Lower(PlainLetters(s))
  }

  function EmailFor(first: string, last: string, number: string): string {
    Slug(first) + "." + Slug(last) + number + "@example.com"
  }

  /** The letters with accents lose them, in both cases; every other character stays. */
  lemma {:induction false} AccentsOff(c: char)
    ensures c !in "\U{E1}\U{E9}\U{ED}\U{F3}\U{FA}\U{F1}\U{FC}\U{C1}\U{C9}\U{CD}\U{D3}\U{DA}\U{D1}\U{DC}" ==>
              PlainLetter(c) == c
    ensures PlainLetter('\U{E1}') == 'a' && PlainLetter('\U{E9}') == 'e' && PlainLetter('\U{ED}') == 'i'
    ensures PlainLetter('\U{F3}') == 'o' && PlainLetter('\U{FA}') == 'u' && PlainLetter('\U{F1}') == 'n'
    ensures PlainLetter('\U{FC}') == 'u' && PlainLetter('\U{C1}') == 'A' && PlainLetter('\U{C9}') == 'E'
    ensures PlainLetter('\U{CD}') == 'I' && PlainLetter('\U{D3}') == 'O' && PlainLetter('\U{DA}') == 'U'
    ensures PlainLetter('\U{D1}') == 'N' && PlainLetter('\U{DC}') == 'U'
  {
  }

  lemma {:induction false} SlugAt(s: string, i: nat)
    requires i < |s|
    ensures |Slug(s)| == |s| && Slug(s)[i] == LowerChar(PlainLetter(s[i]))
  {
    PlainAt(s, i);
    LowerAt(PlainLetters(s), i);
  }

  lemma {:induction false} PlainAt(s: string, i: nat)
    requires i < |s|
    ensures |PlainLetters(s)| == |s| && PlainLetters(s)[i] == PlainLetter(s[i])
  {
    if i > 0 {
      PlainAt(s[1..], i - 1);
    } else if |s| > 1 {
      PlainAt(s[1..], 0);
    }
  }

  /** The parts of an email can be told from it: first name, a point, last name, number, and the domain. */
  lemma {:induction false} EmailParts(first: string, last: string, number: string)
    ensures var email := EmailFor(first, last, number);
            var a, b := |Slug(first)|, |Slug(last)|;
            && |email| == a + b + |number| + 13
            && email[..a] == Slug(first) && email[a..a + 1] == "."
            && email[a + 1..a + 1 + b] == Slug(last)
            && email[a + 1 + b..a + 1 + b + |number|] == number
            && email[a + 1 + b + |number|..] == "@example.com"
  {
  }

  predicate IsEmail(s: string) {
    s != "" && Lower(s) == s
  }

  lemma {:induction false} LowerTwice(s: string)
    ensures Lower(Lower(s)) == Lower(s)
  {
    if s != "" {
      LowerTwice(s[1..]);
      assert Lower(s)[1..] == Lower(s[1..]);
    }
  }

  lemma {:induction false} LowerSmall(s: string)
    requires forall i :: 0 <= i < |s| ==> !('A' <= s[i] <= 'Z')
    ensures Lower(s) == s
  {
    if s != "" {
      LowerSmall(s[1..]);
    }
  }

  lemma {:induction false} EmailForIsEmail(first: string, last: string, number: string)
    requires AllDigits(number)
    ensures IsEmail(EmailFor(first, last, number))
  {
    hide Lower;
    var a, b := Slug(first), Slug(last);
    LowerTwice(PlainLetters(first));
    LowerTwice(PlainLetters(last));
    LowerSmall(".");
    LowerSmall(number);
    LowerSmall("@example.com");
    LowerConcat(a, ".");
    LowerConcat(a + ".", b);
    LowerConcat(a + "." + b, number);
    LowerConcat(a + "." + b + number, "@example.com");
  }

  // ----- names and emails as they are used up

  /** The names still to give, and the emails given. */
  datatype People = People(names: seq<(string, string)>, used: set<string>)

  /** The emails `person` tries for a name: the plain one, then one for each number drawn. */
  function Tried(name: (string, string), numbers: seq<nat>): (emails: seq<string>)
    ensures |emails| == |numbers| + 1
    ensures emails[0] == EmailFor(name.0, name.1, "")
    ensures forall k :: 0 <= k < |numbers| ==>
              emails[k + 1] == EmailFor(name.0, name.1, Digits(10 + numbers[k] % 89))
  {
    [EmailFor(name.0, name.1, "")]
    + seq(|numbers|, k requires 0 <= k < |numbers| =>
        EmailFor(name.0, name.1, Digits(10 + numbers[k] % 89)))
  }

  function FirstFree(emails: seq<string>, used: set<string>): (email: Option<string>)
    ensures email.None? <==> forall e :: e in emails ==> e in used
    ensures email.Some? ==> email.value in emails && email.value !in used
  {
    if emails == [] then None
    else if emails[0] !in used then Some(emails[0])
    else FirstFree(emails[1..], used)
  }

  lemma {:induction false} FirstFreeAt(emails: seq<string>, used: set<string>, k: nat)
    requires k < |emails| && emails[k] !in used
    requires forall j :: 0 <= j < k ==> emails[j] in used
    ensures FirstFree(emails, used) == Some(emails[k])
  {
    if k > 0 {
      FirstFreeAt(emails[1..], used, k - 1);
    }
  }

  /** One person more, or None when no name is left or every email tried is taken. */
  function Take(people: People, numbers: seq<nat>): Option<People> {
    if people.names == [] then None
    else
      var last := |people.names| - 1;
      var email := FirstFree(Tried(people.names[last], numbers), people.used);
      if email.None? then None
      else Some(People(people.names[..last], people.used + {email.value}))
  }

  /** One person after the other, each with its own numbers. */
  function TakeAll(people: People, calls: seq<seq<nat>>): Option<People>
    decreases |calls|
  {
    if calls == [] then Some(people)
    else
      var taken := Take(people, calls[0]);
      if taken.None? then None else TakeAll(taken.value, calls[1..])
  }

  lemma {:induction false} TakeAllConcat(people: People, first: seq<seq<nat>>, second: seq<seq<nat>>)
    ensures TakeAll(people, first + second)
         == var taken := TakeAll(people, first);
            if taken.None? then None else TakeAll(taken.value, second)
    decreases |first|
  {
    hide Take;
    if first == [] {
      assert first + second == second;
    } else {
      assert (first + second)[1..] == first[1..] + second;
      var taken := Take(people, first[0]);
      if taken.Some? {
        TakeAllConcat(taken.value, first[1..], second);
      }
    }
  }

  lemma {:induction false} TakeOne(people: People, numbers: seq<nat>)
    ensures TakeAll(people, [numbers]) == Take(people, numbers)
  {
    assert [numbers][1..] == [];
  }

  /** With a name left and more emails to try than were given out, there is a person. */
  lemma {:induction false} OneIsFree(people: People, numbers: seq<nat>)
    requires people.names != []
    requires |Distinct(people.names[|people.names| - 1], numbers)| > |people.used|
    ensures Take(people, numbers).Some?
    ensures Take(people, numbers).value.names == people.names[..|people.names| - 1]
    ensures |Take(people, numbers).value.used| == |people.used| + 1
  {
    hide FirstFree, Tried;
    var name := people.names[|people.names| - 1];
    if FirstFree(Tried(name, numbers), people.used).None? {
      SmallerSet(Distinct(name, numbers), people.used);
    }
  }

  /** With a name for everybody, and at every turn more emails to try than were given out before,
      nothing runs out. */
  lemma {:induction false} NothingRunsOut(people: People, calls: seq<seq<nat>>)
    requires |calls| <= |people.names|
    requires forall k :: 0 <= k < |calls| ==>
               |Distinct(people.names[|people.names| - 1 - k], calls[k])| > |people.used| + k
    ensures TakeAll(people, calls).Some?
    decreases |calls|
  {
    hide Distinct, Take;
    if calls != [] {
      OneIsFree(people, calls[0]);
      var next := Take(people, calls[0]).value;
      forall k | 0 <= k < |calls[1..]|
        ensures |Distinct(next.names[|next.names| - 1 - k], calls[1..][k])| > |next.used| + k
      {
        assert calls[1..][k] == calls[k + 1];
        assert next.names[|next.names| - 1 - k] == people.names[|people.names| - 1 - (k + 1)];
      }
      NothingRunsOut(next, calls[1..]);
    }
  }

  function Distinct(name: (string, string), numbers: seq<nat>): set<string> {
    set e | e in Tried(name, numbers)
  }

  lemma {:induction false} SmallerSet(a: set<string>, b: set<string>)
    requires a <= b
    ensures |a| <= |b|
  {
    if a != {} {
      var x :| x in a;
      SmallerSet(a - {x}, b - {x});
    }
  }

  // ----- the factory

  class Factory {
    var names: seq<(string, string)>
    var usedEmails: set<string>

    ghost function View(): People
      reads this
    {
      People(names, usedEmails)
    }

    constructor (names: seq<(string, string)>)
      ensures View() == People(names, {})
    {
      this.names, usedEmails := names, {};
    }

    /** The next name and the first email tried that nobody has. Nothing exactly when the names, or
        the numbers drawn to tell namesakes apart, run out; the source then fails, or draws on. */
    method Person(numbers: seq<nat>) returns (person: Option<(string, string)>)
      modifies this
      ensures person.None? <==> Take(old(View()), numbers).None?
      ensures person.None? ==> usedEmails == old(usedEmails)
      ensures person.Some? ==>
                && Take(old(View()), numbers) == Some(View())
                && |old(names)| > 0
                && person.value.0 == old(names)[|old(names)| - 1].0 + " " + old(names)[|old(names)| - 1].1
                && Some(person.value.1)
                   == FirstFree(Tried(old(names)[|old(names)| - 1], numbers), old(usedEmails))
                && person.value.0 != ""
                && IsEmail(person.value.1)
                && person.value.1 !in old(usedEmails)
                && usedEmails == old(usedEmails) + {person.value.1}
    {
      hide EmailFor, FirstFree, Tried, IsEmail;
      if names == [] {
        return None;
      }
      var (first, last) := names[|names| - 1];
      ghost var tried := Tried((first, last), numbers);
      names := names[..|names| - 1];
      var email := EmailFor(first, last, "");
      EmailForIsEmail(first, last, "");
      var k := 0;
      while email in usedEmails
        invariant 0 <= k <= |numbers| && IsEmail(email) && email == tried[k]
        invariant forall j :: 0 <= j < k ==> tried[j] in usedEmails
        invariant usedEmails == old(usedEmails) && names == old(names)[..|old(names)| - 1]
        decreases |numbers| - k
      {
        if k == |numbers| {
          assert forall e :: e in tried ==> e in usedEmails;
          return None;
        }
        var number := Digits(10 + numbers[k] % 89);
        email := EmailFor(first, last, number);
        EmailForIsEmail(first, last, number);
        k := k + 1;
      }
      FirstFreeAt(tried, usedEmails, k);
      usedEmails := usedEmails + {email};
      return Some((first + " " + last, email));
    }

    /** A candidate nothing speaks against, whenever a person is left. */
    method Clean(fileId: string, category: Category, p: Position, d: CleanDraw)
      returns (made: Option<Candidate>)
      requires IsArrangement(d.skills, p)
      modifies this
      ensures made.None? <==> Take(old(View()), d.numbers).None?
      ensures made.None? ==> usedEmails == old(usedEmails)
      ensures made.Some? ==>
                && Take(old(View()), d.numbers) == Some(View())
                && made.value.fileId == fileId && made.value.category == category
                && IsInterviewable(made.value, p)
                && made.value.years == p.minYears + d.years % 5
                && made.value.salary == p.salaryCap - 500 * (4 + d.salary % 20)
                && made.value.availableFrom == SCREENING_DAY + 7 + d.available % 53
                && made.value.skills == d.skills
                && |old(names)| > 0
                && made.value.fullName == old(names)[|old(names)| - 1].0 + " " + old(names)[|old(names)| - 1].1
                && made.value.email.value !in old(usedEmails)
                && usedEmails == old(usedEmails) + {made.value.email.value}
                && !made.value.spanish && !made.value.scanned && !made.value.injected
    {
      hide Take;
      var person := Person(d.numbers);
      if person.None? {
        return None;
      }
      var (name, email) := person.value;
      return Some(Candidate(
        fileId, category, name, Some(email), p.code,
        p.minYears + d.years % 5,
        p.salaryCap - (4 + d.salary % 20) * 500,
        d.skills,
        SCREENING_DAY + 7 + d.available % 53,
        false, false, false));
    }
  }

  /** Nothing in the candidate's own symbols that the policy refuses or sends to a person, for `p`. */
  predicate IsInterviewable(c: Candidate, p: Position) {
    && c.fullName != ""
    && c.email.Some? && IsEmail(c.email.value)
    && c.positionCode == p.code
    && c.years >= p.minYears
    && c.salary <= p.salaryCap
    && IsArrangement(c.skills, p)
    && c.availableFrom <= SCREENING_DAY + AVAILABILITY_DAYS
  }

  // ----- skills, joined and split again

  lemma {:induction false} JoinedSkills(skills: seq<string>, skill: string)
    requires forall i :: 0 <= i < |skills| ==> IsSkill(skills[i])
    ensures Offers(Join(skills), skill) <==>
            (exists i :: 0 <= i < |skills| && Lower(skills[i]) == skill) || (skills == [] && skill == "")
  {
    if skills == [] {
      OffersOne("", skill);
    } else if |skills| == 1 {
      OffersOne(skills[0], skill);
    } else {
      var rest := skills[1..];
      JoinedSkills(rest, skill);
      assert Join(skills) == skills[0] + [','] + (" " + Join(rest));
      OffersFirst(skills[0], " " + Join(rest), skill);
      OffersAfterSpace(Join(rest), skill);
      assert (exists i :: 0 <= i < |skills| && Lower(skills[i]) == skill) <==>
             Lower(skills[0]) == skill || exists i :: 0 <= i < |rest| && Lower(rest[i]) == skill by {
        if i :| 0 <= i < |skills| && Lower(skills[i]) == skill {
          assert i > 0 ==> rest[i - 1] == skills[i];
        }
        if i :| 0 <= i < |rest| && Lower(rest[i]) == skill {
          assert skills[i + 1] == rest[i];
        }
      }
    }
  }

  lemma {:induction false} OffersOne(s: string, skill: string)
    requires Lacks(s, ',') && Strip(s) == s
    ensures Offers(s, skill) <==> Lower(s) == skill
  {
    SplitNothing(s, ',');
    assert s in [s];
  }

  lemma {:induction false} OffersFirst(s: string, rest: string, skill: string)
    requires Lacks(s, ',') && Strip(s) == s
    ensures Offers(s + [','] + rest, skill) <==> Lower(s) == skill || Offers(rest, skill)
  {
    SplitFirst(s, ',', rest);
    var parts := [s] + Split(rest, ',');
    assert s in parts;
    assert forall part :: part in parts <==> part == s || part in Split(rest, ',');
  }

  /** The space after a comma is stripped off the part it opens. */
  lemma {:induction false} OffersAfterSpace(s: string, skill: string)
    ensures Offers(" " + s, skill) <==> Offers(s, skill)
  {
    var parts := Split(s, ',');
    var spaced := [" " + parts[0]] + parts[1..];
    assert (" " + s)[1..] == s;
    assert Split(" " + s, ',') == spaced;
    assert (" " + parts[0])[1..] == parts[0];
    assert Strip(" " + parts[0]) == Strip(parts[0]);
    if part :| part in spaced && Lower(Strip(part)) == skill {
      assert part == " " + parts[0] || part in parts[1..];
      assert parts[0] in parts;
      assert part in parts[1..] ==> part in parts;
    }
    if part :| part in parts && Lower(Strip(part)) == skill {
      assert spaced[0] in spaced;
      assert part == parts[0] || part in spaced;
    }
  }

  lemma {:induction false} ArrangementIsSkills(skills: seq<string>, p: Position)
    requires SkillsTellApart(p) && IsArrangement(skills, p)
    ensures forall i :: 0 <= i < |skills| ==> IsSkill(skills[i])
  {
    var all := Required(p) + p.extraSkills;
    forall i | 0 <= i < |skills|
      ensures IsSkill(skills[i])
    {
      assert skills[i] in skills;
      assert skills[i] in all;
      var j :| 0 <= j < |all| && all[j] == skills[i];
    }
  }

  /** With every required skill in the list, none is missing. */
  lemma {:induction false} ArrangementCovers(c: Candidate, p: Position)
    requires SkillsTellApart(p) && IsArrangement(c.skills, p)
    ensures !LacksSkill(SymbolsOf(c), p)
  {
    ArrangementIsSkills(c.skills, p);
    forall skill | skill in Required(p)
      ensures Offers(Join(c.skills), Lower(skill))
    {
      assert skill in c.skills;
      var i :| 0 <= i < |c.skills| && c.skills[i] == skill;
      JoinedSkills(c.skills, Lower(skill));
    }
  }

  /** `[s for s in skills if s != dropped]` */
  function Drop(skills: seq<string>, dropped: string): (r: seq<string>)
    ensures forall s :: s in r <==> s in skills && s != dropped
  {
    if skills == [] then []
    else (if skills[0] != dropped then [skills[0]] else []) + Drop(skills[1..], dropped)
  }

  /** With one required skill taken out, it is missing: no other skill stands for it. */
  lemma {:induction false} DroppedIsMissing(c: Candidate, p: Position, skills: seq<string>, dropped: string)
    requires SkillsTellApart(p) && IsArrangement(skills, p)
    requires dropped in Required(p) && forall s :: s in c.skills <==> s in skills && s != dropped
    ensures LacksSkill(SymbolsOf(c), p)
  {
    ArrangementIsSkills(skills, p);
    var all := Required(p) + p.extraSkills;
    var k :| 0 <= k < |Required(p)| && Required(p)[k] == dropped;
    assert all[k] == dropped;
    forall i | 0 <= i < |c.skills|
      ensures IsSkill(c.skills[i]) && Lower(c.skills[i]) != Lower(dropped)
    {
      assert c.skills[i] in c.skills;
      var j :| 0 <= j < |skills| && skills[j] == c.skills[i];
      assert skills[j] in skills && c.skills[i] in all;
      var m :| 0 <= m < |all| && all[m] == c.skills[i];
      assert m != k;
    }
    JoinedSkills(c.skills, Lower(dropped));
    LowerKeepsLength(dropped);
    assert !Offers(Join(c.skills), Lower(dropped));
  }

  lemma {:induction false} LowerKeepsLength(s: string)
    ensures s != "" ==> Lower(s) != ""
  {
  }
}
