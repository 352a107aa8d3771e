/**
 `build` and `expected_rows` of `tools/hiring_mock.py`: whatever is drawn and however many candidates
 each category asks for, the policy gives every candidate the outcome its category declares, unless one
 duplicate alone is asked for.
 */
module HiringMock {
  import opened Text
  import opened Numerals
  import opened HiringPolicy
  import opened HiringFactory

  /** The place of a category in the table, which fixes the order of the files. */
  function Rank(c: Category): nat {
    match c
    case CLEAN => 0 case MISSING_EMAIL => 1 case UNKNOWN_CODE => 2 case CLOSED_POSITION => 3
    case HELD_POSITION => 4 case FEW_YEARS => 5 case OVER_CAP => 6 case DROPPED_SKILL => 7
    case BARRED => 8 case REAPPLIED => 9 case DUPLICATE => 10 case LATE => 11
    case INJECTED_TEXT => 12 case SPANISH_LABELS => 13 case SCANNED => 14
  }

  const DUPLICATE_AT := 10

  // ----- what a candidate must be for the policy to agree with its category

  /** Nothing about the candidate alone asks for a person. */
  predicate NoReviewAlone(c: Candidate, positions: seq<Position>) {
    var position := PositionOf(c.positionCode, positions);
    && c.fullName != "" && c.positionCode != ""
    && c.email.Some? && c.email.value != ""
    && position.Some? && position.value.status != ON_HOLD
    && c.salary <= position.value.salaryCap
    && c.availableFrom <= SCREENING_DAY + AVAILABILITY_DAYS
  }

  /** Nothing about the candidate alone speaks against an interview. */
  predicate CleanAlone(c: Candidate, positions: seq<Position>) {
    var position := PositionOf(c.positionCode, positions);
    && NoReviewAlone(c, positions)
    && position.value.status == OPEN
    && c.years >= position.value.minYears
    && !LacksSkill(SymbolsOf(c), position.value)
  }

  /** The trap of its category, as far as the candidate alone goes. */
  ghost predicate ProfileOk(c: Candidate, positions: seq<Position>) {
    var position := PositionOf(c.positionCode, positions);
    match c.category
    case MISSING_EMAIL => c.email.None?
    case UNKNOWN_CODE => position.None?
    case HELD_POSITION => position.Some? && position.value.status == ON_HOLD
    case OVER_CAP => position.Some? && c.salary > position.value.salaryCap
    case LATE => c.availableFrom > SCREENING_DAY + AVAILABILITY_DAYS
    case REAPPLIED => c.email.Some? && c.email.value != ""
    case DUPLICATE => c.email.Some? && c.email.value != ""
    case CLOSED_POSITION => NoReviewAlone(c, positions) && position.value.status == CLOSED
    case FEW_YEARS => NoReviewAlone(c, positions) && c.years < position.value.minYears
    case INJECTED_TEXT => NoReviewAlone(c, positions) && c.years < position.value.minYears
    case DROPPED_SKILL => NoReviewAlone(c, positions) && LacksSkill(SymbolsOf(c), position.value)
    case BARRED => NoReviewAlone(c, positions)
    case _ => CleanAlone(c, positions)
  }

  predicate BarredRow(h: HistoryRow) {
    h.doNotRehire && h.lastAppliedOn < SCREENING_DAY - 30 * REAPPLY_MONTHS
  }

  predicate RecentRow(h: HistoryRow) {
    !h.doNotRehire && h.lastAppliedOn >= SCREENING_DAY - 30 * REAPPLY_MONTHS
  }

  /** A history row that bears a candidate's email is that candidate's own trap. */
  predicate RowFits(h: HistoryRow, c: Candidate) {
    c.email == Some(h.email) ==>
      (c.category == BARRED && BarredRow(h)) || (c.category == REAPPLIED && RecentRow(h))
  }

  ghost predicate HasItsRow(c: Candidate, history: seq<HistoryRow>) {
    && (c.category == BARRED ==> exists h :: h in history && c.email == Some(h.email) && BarredRow(h))
    && (c.category == REAPPLIED ==>
          exists h :: h in history && c.email == Some(h.email) && RecentRow(h))
  }

  /** Two candidates share an email exactly when both are duplicates. */
  predicate EmailsApart(a: Candidate, b: Candidate) {
    && (a.email.Some? && a.email == b.email ==> a.category == b.category == DUPLICATE)
    && (a.category == b.category == DUPLICATE ==> a.email == b.email)
  }

  /** What holds after every candidate built. */
  ghost predicate Built(
    positions: seq<Position>, cs: seq<Candidate>, hs: seq<HistoryRow>, used: set<string>)
  {
    && (forall i :: 0 <= i < |cs| ==>
          && cs[i].fileId == FileId(i + 1)
          && ProfileOk(cs[i], positions)
          && (cs[i].email.Some? ==> IsEmail(cs[i].email.value) && cs[i].email.value in used)
          && HasItsRow(cs[i], hs))
    && (forall i, j :: 0 <= i < j < |cs| ==>
          EmailsApart(cs[i], cs[j]) && Rank(cs[i].category) <= Rank(cs[j].category))
    && (forall h :: h in hs ==> IsEmail(h.email) && h.email in used)
    && (forall h, i :: h in hs && 0 <= i < |cs| ==> RowFits(h, cs[i]))
  }

  ghost predicate HasTwin(cs: seq<Candidate>, i: int) {
    exists j :: 0 <= j < |cs| && j != i && cs[j].category == DUPLICATE
  }

  /** Nobody is the only duplicate. */
  ghost predicate DuplicatesPaired(cs: seq<Candidate>) {
    forall i {:trigger HasTwin(cs, i)} ::
      0 <= i < |cs| && cs[i].category == DUPLICATE ==> HasTwin(cs, i)
  }

  // ----- one candidate more

  /** A candidate with an email of its own, or none, and the history row it brings, if any. */
  lemma {:induction false} AddOwn(
    positions: seq<Position>, cs: seq<Candidate>, hs: seq<HistoryRow>, used: set<string>,
    c: Candidate, rows: seq<HistoryRow>, fresh': set<string>)
    requires Built(positions, cs, hs, used) && fresh' !! used
    requires c.fileId == FileId(|cs| + 1) && ProfileOk(c, positions)
    requires c.email.Some? ==> IsEmail(c.email.value) && c.email.value in fresh'
    requires forall h :: h in rows ==> IsEmail(h.email) && h.email in fresh' && RowFits(h, c)
    requires HasItsRow(c, rows)
    requires forall i :: 0 <= i < |cs| ==> Rank(cs[i].category) <= Rank(c.category)
    requires c.category == DUPLICATE ==> forall i :: 0 <= i < |cs| ==> cs[i].category != DUPLICATE
    ensures Built(positions, cs + [c], hs + rows, used + fresh')
  {
    hide ProfileOk, IsEmail, Rank, FileId;
    var all := cs + [c];
    assert forall h :: h in hs + rows <==> h in hs || h in rows;
    forall i | 0 <= i < |all|
      ensures HasItsRow(all[i], hs + rows)
    {
      StillHasItsRow(all[i], hs, rows);
    }
    forall h, i | h in hs + rows && 0 <= i < |all|
      ensures RowFits(h, all[i])
    {
    }
  }

  lemma {:induction false} StillHasItsRow(c: Candidate, hs: seq<HistoryRow>, rows: seq<HistoryRow>)
    requires HasItsRow(c, hs) || HasItsRow(c, rows)
    ensures HasItsRow(c, hs + rows)
  {
    assert forall h :: h in hs + rows <==> h in hs || h in rows;
  }

  /** The first of the duplicates, which has no twin before it to copy. */
  predicate FirstDuplicate(cs: seq<Candidate>, i: nat) {
    && i < |cs| && cs[i].category == DUPLICATE
    && (i == 0 || cs[i - 1].category != DUPLICATE)
  }

  ghost predicate FirstDuplicateClean(positions: seq<Position>, cs: seq<Candidate>) {
    forall i: nat :: FirstDuplicate(cs, i) ==> CleanAlone(cs[i], positions)
  }

  lemma {:induction false} StillClean(positions: seq<Position>, cs: seq<Candidate>, c: Candidate)
    requires FirstDuplicateClean(positions, cs)
    requires c.category == DUPLICATE && (cs == [] || cs[|cs| - 1].category != DUPLICATE) ==>
               CleanAlone(c, positions)
    ensures FirstDuplicateClean(positions, cs + [c])
  {
    hide CleanAlone;
    forall i: nat | FirstDuplicate(cs + [c], i)
      ensures CleanAlone((cs + [c])[i], positions)
    {
      assert i < |cs| ==> FirstDuplicate(cs, i);
    }
  }

  /** A second duplicate takes the email of the one before it. */
  lemma {:induction false} AddTwin(
    positions: seq<Position>, cs: seq<Candidate>, hs: seq<HistoryRow>, used: set<string>,
    c: Candidate, fresh': set<string>)
    requires Built(positions, cs, hs, used)
    requires cs != [] && cs[|cs| - 1].category == DUPLICATE == c.category
    requires c.fileId == FileId(|cs| + 1) && ProfileOk(c, positions)
    requires c.email == cs[|cs| - 1].email
    ensures Built(positions, cs + [c], hs, used + fresh')
  {
    hide ProfileOk, IsEmail, FileId;
    var all, last := cs + [c], cs[|cs| - 1];
    forall i, j | 0 <= i < j < |all|
      ensures EmailsApart(all[i], all[j]) && Rank(all[i].category) <= Rank(all[j].category)
    {
      if j == |cs| && i < |cs| - 1 {
        assert EmailsApart(cs[i], last);
      }
    }
    forall h, i | h in hs && 0 <= i < |all|
      ensures RowFits(h, all[i])
    {
      assert RowFits(h, last);
    }
  }

  /** A row about somebody who is not in the batch. */
  lemma {:induction false} AddStranger(
    positions: seq<Position>, cs: seq<Candidate>, hs: seq<HistoryRow>, used: set<string>,
    h: HistoryRow)
    requires Built(positions, cs, hs, used) && IsEmail(h.email) && h.email !in used
    ensures Built(positions, cs, hs + [h], used + {h.email})
  {
    hide ProfileOk, IsEmail, Rank, FileId;
    assert forall g :: g in hs + [h] <==> g in hs || g == h;
    forall i | 0 <= i < |cs|
      ensures HasItsRow(cs[i], hs + [h])
    {
      StillHasItsRow(cs[i], hs, [h]);
    }
  }

  // ----- from the parts to the outcome

  lemma {:induction false} FoundAmongOthers(cs: seq<Candidate>, id: string, o: Symbols)
    ensures o in OthersOf(cs, id) <==>
            exists j :: 0 <= j < |cs| && cs[j].fileId != id && o == SymbolsOf(cs[j])
  {
    hide SymbolsOf;
    if cs != [] {
      var first := if cs[0].fileId != id then [SymbolsOf(cs[0])] else [];
      FoundAmongOthers(cs[1..], id, o);
      assert o in OthersOf(cs, id) <==> o in first || o in OthersOf(cs[1..], id);
      if j :| 0 <= j < |cs| && cs[j].fileId != id && o == SymbolsOf(cs[j]) {
        assert j > 0 ==> cs[j] == cs[1..][j - 1];
      }
      if j :| 0 <= j < |cs[1..]| && cs[1..][j].fileId != id && o == SymbolsOf(cs[1..][j]) {
        assert cs[j + 1] == cs[1..][j];
      }
    }
  }

  lemma {:induction false} FileIdsDiffer(m: nat, n: nat)
    requires m != n
    ensures FileId(m) != FileId(n)
  {
    if FileId(m) == FileId(n) {
      var a, b := Pad(m, 3), Pad(n, 3);
      assert FileId(m)[3..|FileId(m)| - 4] == a && FileId(n)[3..|FileId(n)| - 4] == b;
      ValueOfPad(m, 3);
      ValueOfPad(n, 3);
    }
  }

  lemma {:induction false} ApartEitherWay(
    positions: seq<Position>, cs: seq<Candidate>, hs: seq<HistoryRow>, used: set<string>, i: nat, j: nat)
    requires Built(positions, cs, hs, used) && i < |cs| && j < |cs| && i != j
    ensures cs[i].email.Some? && cs[i].email == cs[j].email ==> cs[i].category == DUPLICATE
    ensures cs[i].category == cs[j].category == DUPLICATE ==> cs[i].email == cs[j].email
    ensures cs[j].email.Some? ==> Lower(cs[j].email.value) == cs[j].email.value
    ensures cs[i].fileId != cs[j].fileId
  {
    hide ProfileOk, FileId, HasItsRow, RowFits, Rank;
    assert if i < j then EmailsApart(cs[i], cs[j]) else EmailsApart(cs[j], cs[i]);
    FileIdsDiffer(i + 1, j + 1);
  }

  lemma {:induction false} EmailOfCandidate(c: Candidate)
    ensures EmailOf(SymbolsOf(c)) == if c.email.Some? then Lower(c.email.value) else ""
  {
  }

  /** Another candidate bears the email exactly when both are duplicates. */
  lemma {:induction false} RepeatedIff(
    positions: seq<Position>, cs: seq<Candidate>, hs: seq<HistoryRow>, used: set<string>, i: nat)
    requires Built(positions, cs, hs, used) && i < |cs| && cs[i].email.Some? && cs[i].email.value != ""
    ensures Repeated(cs[i].email.value, OthersOf(cs, cs[i].fileId)) <==>
            cs[i].category == DUPLICATE && HasTwin(cs, i)
  {
    hide Built, Lower, EmailOf, SymbolsOf, OthersOf;
    var others := OthersOf(cs, cs[i].fileId);
    var email := cs[i].email.value;
    if o :| o in others && EmailOf(o) == email {
      FoundAmongOthers(cs, cs[i].fileId, o);
      var j :| 0 <= j < |cs| && cs[j].fileId != cs[i].fileId && o == SymbolsOf(cs[j]);
      EmailOfCandidate(cs[j]);
      ApartEitherWay(positions, cs, hs, used, i, j);
      ApartEitherWay(positions, cs, hs, used, j, i);
    }
    if cs[i].category == DUPLICATE && HasTwin(cs, i) {
      var j :| 0 <= j < |cs| && j != i && cs[j].category == DUPLICATE;
      ApartEitherWay(positions, cs, hs, used, i, j);
      FoundAmongOthers(cs, cs[i].fileId, SymbolsOf(cs[j]));
      EmailOfCandidate(cs[j]);
      assert EmailOf(SymbolsOf(cs[j])) == email;
    }
  }

  /** The history speaks of a candidate exactly when its category put it there. */
  lemma {:induction false} HistoryIff(
    positions: seq<Position>, cs: seq<Candidate>, hs: seq<HistoryRow>, used: set<string>, i: nat)
    requires Built(positions, cs, hs, used) && i < |cs| && cs[i].email.Some?
    ensures HiringPolicy.Barred(cs[i].email.value, hs) <==> cs[i].category == BARRED
    ensures Recent(cs[i].email.value, hs) <==> cs[i].category == REAPPLIED
  {
    hide ProfileOk, FileId, EmailsApart, Rank;
    var c := cs[i];
    assert HasItsRow(c, hs);
    forall h | h in hs && Lower(h.email) == c.email.value
      ensures (c.category == BARRED && BarredRow(h)) || (c.category == REAPPLIED && RecentRow(h))
    {
      assert IsEmail(h.email) && RowFits(h, c);
    }
    forall h | h in hs && c.email == Some(h.email)
      ensures Lower(h.email) == c.email.value
    {
      assert IsEmail(h.email);
    }
  }

  /** One candidate's outcome, with the history in any order. */
  lemma {:induction false} AsDeclared(
    positions: seq<Position>, cs: seq<Candidate>, hs: seq<HistoryRow>, used: set<string>, i: nat)
    requires Built(positions, cs, hs, used) && DuplicatesPaired(cs) && i < |cs|
    ensures Outcome(SymbolsOf(cs[i]), positions, hs, OthersOf(cs, cs[i].fileId))
         == Expected(cs[i].category)
  {
    var c, s := cs[i], SymbolsOf(cs[i]);
    var others := OthersOf(cs, c.fileId);
    OutcomeIs(s, positions, hs, others);
    hide Recent, HiringPolicy.Barred, Repeated, LacksSkill, PositionOf, Outcome;
    if c.email.Some? {
      assert DuplicatesPaired(cs) ==> (c.category == DUPLICATE ==> HasTwin(cs, i));
      assert IsEmail(c.email.value);
      RepeatedIff(positions, cs, hs, used, i);
      HistoryIff(positions, cs, hs, used, i);
      assert EmailOf(s) == c.email.value;
    }
    assert ProfileOk(c, positions);
  }

  /** Two histories with the same rows, whatever their order, are one history to the policy. */
  lemma {:induction false} OrderIsIrrelevant(
    s: Symbols, positions: seq<Position>, hs: seq<HistoryRow>, gs: seq<HistoryRow>, batch: seq<Symbols>)
    requires forall h :: h in hs <==> h in gs
    ensures Outcome(s, positions, hs, batch) == Outcome(s, positions, gs, batch)
  {
    OutcomeIs(s, positions, hs, batch);
    OutcomeIs(s, positions, gs, batch);
    assert HiringPolicy.Barred(EmailOf(s), hs) <==> HiringPolicy.Barred(EmailOf(s), gs);
    assert Recent(EmailOf(s), hs) <==> Recent(EmailOf(s), gs);
  }

  /** Every candidate has the outcome its category declares. */
  ghost predicate AllAsDeclared(positions: seq<Position>, cs: seq<Candidate>, hs: seq<HistoryRow>) {
    forall i :: 0 <= i < |cs| ==>
      Outcome(SymbolsOf(cs[i]), positions, hs, OthersOf(cs, cs[i].fileId)) == Expected(cs[i].category)
  }

  /** A duplicate without a twin is a clean candidate to the policy. */
  lemma {:induction false} LoneDuplicateIsInterviewed(
    positions: seq<Position>, cs: seq<Candidate>, hs: seq<HistoryRow>, used: set<string>, i: nat)
    requires Built(positions, cs, hs, used) && FirstDuplicateClean(positions, cs) && i < |cs|
    requires cs[i].category == DUPLICATE && !HasTwin(cs, i)
    ensures Outcome(SymbolsOf(cs[i]), positions, hs, OthersOf(cs, cs[i].fileId)) == INTERVIEW
    ensures Expected(cs[i].category) == REVIEW
  {
    var c := cs[i];
    assert i > 0 && cs[i - 1].category == DUPLICATE ==> HasTwin(cs, i);
    assert FirstDuplicate(cs, i);
    OutcomeIs(SymbolsOf(c), positions, hs, OthersOf(cs, c.fileId));
    hide Recent, HiringPolicy.Barred, Repeated, LacksSkill, PositionOf, Outcome, Built;
    BuiltEmail(positions, cs, hs, used, i);
    RepeatedIff(positions, cs, hs, used, i);
    HistoryIff(positions, cs, hs, used, i);
  }

  lemma {:induction false} BuiltEmail(
    positions: seq<Position>, cs: seq<Candidate>, hs: seq<HistoryRow>, used: set<string>, i: nat)
    requires Built(positions, cs, hs, used) && i < |cs| && cs[i].email.Some?
    ensures cs[i].email.value != "" && EmailOf(SymbolsOf(cs[i])) == cs[i].email.value
  {
    assert IsEmail(cs[i].email.value);
  }

  /** The answer key holds exactly when no duplicate stands alone, with the history in any order. */
  lemma {:induction false} AsDeclaredIffPaired(
    positions: seq<Position>, cs: seq<Candidate>, hs: seq<HistoryRow>, used: set<string>,
    gs: seq<HistoryRow>)
    requires Built(positions, cs, hs, used) && FirstDuplicateClean(positions, cs)
    requires forall h :: h in gs <==> h in hs
    ensures AllAsDeclared(positions, cs, gs) <==> DuplicatesPaired(cs)
  {
    hide Built, Outcome, Expected, SymbolsOf, HasTwin;
    forall i | 0 <= i < |cs|
      ensures Outcome(SymbolsOf(cs[i]), positions, gs, OthersOf(cs, cs[i].fileId))
           == Outcome(SymbolsOf(cs[i]), positions, hs, OthersOf(cs, cs[i].fileId))
    {
      OrderIsIrrelevant(SymbolsOf(cs[i]), positions, gs, hs, OthersOf(cs, cs[i].fileId));
    }
    if DuplicatesPaired(cs) {
      forall i | 0 <= i < |cs|
        ensures Outcome(SymbolsOf(cs[i]), positions, hs, OthersOf(cs, cs[i].fileId))
             == Expected(cs[i].category)
      {
        AsDeclared(positions, cs, hs, used, i);
      }
    } else {
      var i :| 0 <= i < |cs| && cs[i].category == DUPLICATE && !HasTwin(cs, i);
      LoneDuplicateIsInterviewed(positions, cs, hs, used, i);
    }
  }

  // ----- the table of counts, written out

  function CategoriesOf(cs: seq<Candidate>): (r: seq<Category>)
    ensures |r| == |cs|
    ensures forall i :: 0 <= i < |cs| ==> r[i] == cs[i].category
  {
    seq(|cs|, i requires 0 <= i < |cs| => cs[i].category)
  }

  function Repeat(c: Category, n: nat): (r: seq<Category>)
    ensures |r| == n && forall i :: 0 <= i < n ==> r[i] == c
  {
    seq(n, _ => c)
  }

  /** The first `k` categories of the table, each as often as it is asked for. */
  function Asked(counts: seq<nat>, k: nat): seq<Category>
    requires |counts| == |CATEGORIES| && k <= |CATEGORIES|
  {
    if k == 0 then [] else Asked(counts, k - 1) + Repeat(CATEGORIES[k - 1], counts[k - 1])
  }

  function AllAsked(counts: seq<nat>): seq<Category>
    requires |counts| == |CATEGORIES|
  {
    Asked(counts, |CATEGORIES|)
  }

  lemma {:induction false} RankInTable(k: nat)
    requires k < |CATEGORIES|
    ensures Rank(CATEGORIES[k]) == k
  {
  }

  /** Up to `k` whole categories and `n` of the next one: a start of all that is asked. */
  lemma {:induction false} AskedPrefix(counts: seq<nat>, k: nat, n: nat, m: nat)
    requires |counts| == |CATEGORIES| && k < m <= |CATEGORIES| && n <= counts[k]
    ensures Asked(counts, k) + Repeat(CATEGORIES[k], n) <= Asked(counts, m)
    decreases m
  {
    if m == k + 1 {
      assert Repeat(CATEGORIES[k], n) <= Repeat(CATEGORIES[k], counts[k]);
    } else {
      AskedPrefix(counts, k, n, m - 1);
    }
  }

  lemma {:induction false} NothingAsked(counts: seq<nat>)
    requires |counts| == |CATEGORIES|
    ensures Asked(counts, 0) == []
  {
  }

  lemma {:induction false} RunOfCategory(counts: seq<nat>, k: nat)
    requires |counts| == |CATEGORIES| && k < |CATEGORIES|
    ensures Asked(counts, k) + Repeat(CATEGORIES[k], 0) == Asked(counts, k)
    ensures Asked(counts, k) + Repeat(CATEGORIES[k], counts[k]) == Asked(counts, k + 1)
  {
  }

  lemma {:induction false} NextAsked(counts: seq<nat>, k: nat, n: nat)
    requires |counts| == |CATEGORIES| && k < |CATEGORIES| && n < counts[k]
    ensures Asked(counts, k) + Repeat(CATEGORIES[k], n) + [CATEGORIES[k]]
         == Asked(counts, k) + Repeat(CATEGORIES[k], n + 1)
         <= AllAsked(counts)
  {
    AskedPrefix(counts, k, n + 1, |CATEGORIES|);
  }

  /** The files of category `k` are the run of `counts[k]` that starts after those of the others. */
  lemma {:induction false} WhereAsked(counts: seq<nat>, k: nat, m: nat, i: nat)
    requires |counts| == |CATEGORIES| && k < |CATEGORIES| && m <= |CATEGORIES| && i < |Asked(counts, m)|
    ensures Asked(counts, m)[i] == CATEGORIES[k] <==>
            k < m && |Asked(counts, k)| <= i < |Asked(counts, k)| + counts[k]
    ensures Rank(Asked(counts, m)[i]) < m
    decreases m
  {
    hide Rank;
    RankInTable(k);
    RankInTable(m - 1);
    if i < |Asked(counts, m - 1)| {
      WhereAsked(counts, k, m - 1, i);
    }
    if k < m - 1 {
      AskedPrefix(counts, k, counts[k], m - 1);
    }
  }

  /** Every duplicate has a twin exactly when one duplicate is not what is asked for. */
  lemma {:induction false} PairedIffNotOne(cs: seq<Candidate>, counts: seq<nat>)
    requires |counts| == |CATEGORIES| && CategoriesOf(cs) == AllAsked(counts)
    ensures DuplicatesPaired(cs) <==> counts[DUPLICATE_AT] != 1
  {
    var start := |Asked(counts, DUPLICATE_AT)|;
    forall i | 0 <= i < |cs|
      ensures cs[i].category == DUPLICATE <==> start <= i < start + counts[DUPLICATE_AT]
    {
      WhereAsked(counts, DUPLICATE_AT, |CATEGORIES|, i);
      assert CategoriesOf(cs)[i] == cs[i].category;
    }
    AskedPrefix(counts, DUPLICATE_AT, counts[DUPLICATE_AT], |CATEGORIES|);
    assert start + counts[DUPLICATE_AT] <= |cs|;
    if counts[DUPLICATE_AT] == 1 {
      assert !HasTwin(cs, start);
    } else {
      forall i | 0 <= i < |cs| && cs[i].category == DUPLICATE
        ensures HasTwin(cs, i)
      {
        var j := if i == start then start + 1 else start;
        assert cs[j].category == DUPLICATE;
      }
    }
  }

  // ----- `build`

  /** The second of two duplicates copies the first, which stands before it. */
  predicate TakesTwin(category: Category, twin: Option<Candidate>) {
    category == DUPLICATE && twin.Some? && twin.value.category == DUPLICATE
  }

  /** What a category changes of a clean candidate and adds to the history: its trap, and nothing else. */
  ghost predicate TrapSet(
    clean: Candidate, p: Position, twin: Option<Candidate>, c: Candidate, rows: seq<HistoryRow>)
  {
    match clean.category
    case MISSING_EMAIL => c == clean.(email := None) && rows == []
    case UNKNOWN_CODE =>
      && c == clean.(positionCode := c.positionCode) && rows == []
      && (c.positionCode == "BE-2025-09" || c.positionCode == "ML-2026-01" || c.positionCode == "OPS-2024-02")
    case FEW_YEARS =>
      && c == clean.(years := c.years) && rows == []
      && (c.years == p.minYears - 1 || c.years == if p.minYears > 1 then p.minYears - 2 else 0)
    case OVER_CAP =>
      && c == clean.(salary := c.salary) && rows == []
      && (exists k :: 6 <= k < 30 && c.salary == p.salaryCap + k * 500)
    case DROPPED_SKILL =>
      && c == clean.(skills := c.skills) && rows == []
      && (exists dropped :: dropped in Required(p)
            && forall s :: s in c.skills <==> s in clean.skills && s != dropped)
    case BARRED =>
      && c == clean && |rows| == 1
      && Some(rows[0].email) == c.email && rows[0].doNotRehire && -900 < rows[0].lastAppliedOn <= -400
    case REAPPLIED =>
      && c == clean && |rows| == 1
      && Some(rows[0].email) == c.email && !rows[0].doNotRehire && -170 < rows[0].lastAppliedOn <= -20
    case DUPLICATE =>
      && rows == []
      && c == if TakesTwin(DUPLICATE, twin)
              then clean.(fullName := twin.value.fullName, email := twin.value.email,
                          positionCode := twin.value.positionCode, years := twin.value.years + 1,
                          skills := twin.value.skills)
              else clean
    case LATE => c == clean.(availableFrom := c.availableFrom) && rows == [] && 100 <= c.availableFrom < 210
    case INJECTED_TEXT => c == clean.(years := p.minYears - 1, injected := true) && rows == []
    case SPANISH_LABELS => c == clean.(spanish := true) && rows == []
    case SCANNED => c == clean.(scanned := true) && rows == []
    case _ => c == clean && rows == []
  }

  /** The traps set on a clean candidate, but for the two categories that make another. */
  method SetTrap(positions: seq<Position>, clean: Candidate, p: Position, pick: nat, twin: Option<Candidate>)
    returns (c: Candidate, rows: seq<HistoryRow>)
    requires IsInterviewable(clean, p) && PositionOf(p.code, positions) == Some(p)
    requires p.status == OPEN && p.minYears >= 1 && p.code != "" && SkillsTellApart(p)
    requires forall i :: 0 <= i < 3 ==> PositionOf(UNKNOWN_CODES[i], positions) == None
    requires clean.category != CLOSED_POSITION && clean.category != HELD_POSITION
    requires twin.Some? && twin.value.category == DUPLICATE ==> ProfileOk(twin.value, positions)
    ensures c.category == clean.category && c.fileId == clean.fileId && ProfileOk(c, positions)
    ensures c.category == DUPLICATE && !TakesTwin(c.category, twin) ==> CleanAlone(c, positions)
    ensures c.email == if clean.category == MISSING_EMAIL then None
                       else if TakesTwin(clean.category, twin) then twin.value.email
                       else clean.email
    ensures forall h :: h in rows ==> clean.email == Some(h.email) && RowFits(h, c)
    ensures HasItsRow(c, rows)
    ensures TrapSet(clean, p, twin, c, rows)
  {
    hide PositionOf, LacksSkill, Lower, Drop, Required, SkillsTellApart, IsArrangement, Join, ProfileOk,
         HasItsRow, RowFits, IsInterviewable;
    assert clean.email.Some? && clean.availableFrom <= 90 by {
      Interviewable(clean, p);
    }
    c, rows := clean, [];
    match clean.category {
      case MISSING_EMAIL => c := c.(email := None);
      case UNKNOWN_CODE => c := c.(positionCode := UNKNOWN_CODES[pick % 3]);
      case FEW_YEARS =>
        var years := p.minYears - (1 + pick % 2);
        c := c.(years := if years < 0 then 0 else years);
      case OVER_CAP => c := c.(salary := p.salaryCap + (6 + pick % 24) * 500);
      case DROPPED_SKILL =>
        var required := Required(p);
        var dropped := required[pick % |required|];
        c := c.(skills := Drop(c.skills, dropped));
        assert dropped in required;
      case BARRED =>
        rows := [HistoryRow(c.email.value, SCREENING_DAY - (400 + pick % 500), true)];
      case REAPPLIED =>
        rows := [HistoryRow(c.email.value, SCREENING_DAY - (20 + pick % 150), false)];
      case DUPLICATE =>
        if twin.Some? && twin.value.category == DUPLICATE {
          var t := twin.value;
          c := c.(fullName := t.fullName, email := t.email, positionCode := t.positionCode,
                  years := t.years + 1, skills := t.skills);
        }
      case LATE => c := c.(availableFrom := SCREENING_DAY + AVAILABILITY_DAYS + 10 + pick % 110);
      case INJECTED_TEXT =>
        c := c.(years := if p.minYears - 1 < 0 then 0 else p.minYears - 1, injected := true);
      case SPANISH_LABELS =>
        c := c.(spanish := true);
      case SCANNED =>
        c := c.(scanned := true);
      case CLEAN =>
    }
    TrapIsItsCategory(positions, clean, p, twin, c, rows);
  }

  lemma {:induction false} Interviewable(c: Candidate, p: Position)
    requires IsInterviewable(c, p)
    ensures c.email.Some? && c.availableFrom <= 90
  {
  }

  /** The trap of a category is what the policy answers with that category's outcome. */
  lemma {:induction false} TrapIsItsCategory(
    positions: seq<Position>, clean: Candidate, p: Position, twin: Option<Candidate>, c: Candidate,
    rows: seq<HistoryRow>)
    requires IsInterviewable(clean, p) && PositionOf(p.code, positions) == Some(p)
    requires p.status == OPEN && p.minYears >= 1 && p.code != "" && SkillsTellApart(p)
    requires forall i :: 0 <= i < 3 ==> PositionOf(UNKNOWN_CODES[i], positions) == None
    requires clean.category != CLOSED_POSITION && clean.category != HELD_POSITION
    requires twin.Some? && twin.value.category == DUPLICATE ==> ProfileOk(twin.value, positions)
    requires TrapSet(clean, p, twin, c, rows)
    ensures c.category == clean.category && c.fileId == clean.fileId && ProfileOk(c, positions)
    ensures c.category == DUPLICATE && !TakesTwin(c.category, twin) ==> CleanAlone(c, positions)
    ensures c.email == if clean.category == MISSING_EMAIL then None
                       else if TakesTwin(clean.category, twin) then twin.value.email
                       else clean.email
    ensures forall h :: h in rows ==> clean.email == Some(h.email) && RowFits(h, c)
    ensures HasItsRow(c, rows)
  {
    TrapProfile(positions, clean, p, twin, c, rows);
    TrapHistory(clean, p, twin, c, rows);
    hide TrapSet, ProfileOk, CleanAlone, RowFits, HasItsRow, IsInterviewable;
  }

  lemma {:induction false} TrapProfile(
    positions: seq<Position>, clean: Candidate, p: Position, twin: Option<Candidate>, c: Candidate,
    rows: seq<HistoryRow>)
    requires IsInterviewable(clean, p) && PositionOf(p.code, positions) == Some(p)
    requires p.status == OPEN && p.minYears >= 1 && p.code != "" && SkillsTellApart(p)
    requires forall i :: 0 <= i < 3 ==> PositionOf(UNKNOWN_CODES[i], positions) == None
    requires clean.category != CLOSED_POSITION && clean.category != HELD_POSITION
    requires twin.Some? && twin.value.category == DUPLICATE ==> ProfileOk(twin.value, positions)
    requires TrapSet(clean, p, twin, c, rows)
    ensures c.category == clean.category && c.fileId == clean.fileId && ProfileOk(c, positions)
    ensures c.category == DUPLICATE && !TakesTwin(c.category, twin) ==> CleanAlone(c, positions)
  {
    ArrangementCovers(clean, p);
    SameSymbols(clean);
    if clean.category == DROPPED_SKILL {
      DroppedTrap(clean, p, c);
    }
    assert UNKNOWN_CODES[0] == "BE-2025-09" && UNKNOWN_CODES[1] == "ML-2026-01"
        && UNKNOWN_CODES[2] == "OPS-2024-02";
    hide PositionOf, LacksSkill, Lower, Drop, Required, SkillsTellApart, IsArrangement, Join, IsEmail;
  }

  lemma {:induction false} TrapHistory(
    clean: Candidate, p: Position, twin: Option<Candidate>, c: Candidate, rows: seq<HistoryRow>)
    requires clean.email.Some? && clean.category != CLOSED_POSITION && clean.category != HELD_POSITION
    requires TrapSet(clean, p, twin, c, rows)
    ensures c.email == if clean.category == MISSING_EMAIL then None
                       else if TakesTwin(clean.category, twin) then twin.value.email
                       else clean.email
    ensures forall h :: h in rows ==> clean.email == Some(h.email) && RowFits(h, c)
    ensures HasItsRow(c, rows)
  {
    hide Required;
    if |rows| == 1 {
      assert rows == [rows[0]] && rows[0] in rows;
    }
  }

  lemma {:induction false} SameSymbols(c: Candidate)
    ensures SymbolsOf(c.(spanish := true)) == SymbolsOf(c) == SymbolsOf(c.(scanned := true))
  {
  }

  lemma {:induction false} DroppedTrap(clean: Candidate, p: Position, c: Candidate)
    requires SkillsTellApart(p) && IsArrangement(clean.skills, p)
    requires exists dropped :: dropped in Required(p)
               && forall s :: s in c.skills <==> s in clean.skills && s != dropped
    ensures LacksSkill(SymbolsOf(c), p)
  {
    var dropped :| dropped in Required(p)
                   && forall s :: s in c.skills <==> s in clean.skills && s != dropped;
    DroppedIsMissing(c, p, clean.skills, dropped);
  }

  lemma {:induction false} TrapRows(
    clean: Candidate, p: Position, twin: Option<Candidate>, c: Candidate, rows: seq<HistoryRow>)
    requires TrapSet(clean, p, twin, c, rows)
    ensures |rows| == if clean.category == BARRED || clean.category == REAPPLIED then 1 else 0
  {
    hide Required;
  }

  lemma {:induction false} TablePosition(positions: seq<Position>, p: Position)
    requires WellFormed(positions) && p in positions
    ensures PositionOf(p.code, positions) == Some(p)
    ensures p.minYears >= 1 && p.code != "" && SkillsTellApart(p)
    ensures forall i :: 0 <= i < 3 ==> PositionOf(UNKNOWN_CODES[i], positions) == None
  {
    hide SkillsTellApart, PositionOf;
    var k :| 0 <= k < |positions| && positions[k] == p;
    FoundByCode(positions, p);
    forall i | 0 <= i < 3
      ensures PositionOf(UNKNOWN_CODES[i], positions) == None
    {
      assert UNKNOWN_CODES[i] in UNKNOWN_CODES;
      NotFoundByCode(positions, UNKNOWN_CODES[i]);
    }
  }

  /** The numbers drawn for the emails of one candidate: a second time where a second one is made. */
  function CallsFor(category: Category, d: Draw): seq<seq<nat>> {
    [d.first.numbers]
    + if category == CLOSED_POSITION then [d.closed.numbers]
      else if category == HELD_POSITION then [d.held.numbers]
      else []
  }

  lemma {:induction false} TakeCalls(people: People, category: Category, d: Draw)
    ensures TakeAll(people, CallsFor(category, d))
         == var first := Take(people, d.first.numbers);
            if first.None? then None
            else if category == CLOSED_POSITION then Take(first.value, d.closed.numbers)
            else if category == HELD_POSITION then Take(first.value, d.held.numbers)
            else first
  {
    hide Take, TakeAll;
    var first := [d.first.numbers];
    var rest := CallsFor(category, d)[1..];
    assert CallsFor(category, d) == first + rest;
    TakeAllConcat(people, first, rest);
    TakeOne(people, d.first.numbers);
    if category == CLOSED_POSITION || category == HELD_POSITION {
      var taken := Take(people, d.first.numbers);
      if taken.Some? {
        TakeOne(taken.value, rest[0]);
        assert rest == [rest[0]];
      }
    } else {
      assert first + rest == first;
    }
  }

  /** What the candidate made for a category is, and the rows it brings, `fresh'` being the emails
      given out for it. */
  ghost predicate IsMade(
    positions: seq<Position>, c: Candidate, category: Category, number: nat, twin: Option<Candidate>,
    rows: seq<HistoryRow>, fresh': set<string>)
  {
    && c.category == category && c.fileId == FileId(number)
    && ProfileOk(c, positions)
    && (category == DUPLICATE && !TakesTwin(category, twin) ==> CleanAlone(c, positions))
    && (if TakesTwin(category, twin) then c.email == twin.value.email
        else c.email.Some? ==> IsEmail(c.email.value) && c.email.value in fresh')
    && (forall h :: h in rows ==> IsEmail(h.email) && h.email in fresh' && RowFits(h, c))
    && HasItsRow(c, rows)
    && |rows| == if category == BARRED || category == REAPPLIED then 1 else 0
  }

  /** The candidate of one category, from the draws made for it. `twin` is the candidate before it. */
  method MakeOne(
    factory: Factory, positions: seq<Position>, category: Category, number: nat, d: Draw,
    twin: Option<Candidate>)
    returns (made: Option<Candidate>, rows: seq<HistoryRow>, ghost fresh': set<string>)
    requires WellFormed(positions) && PossibleDraw(positions, d)
    requires twin.Some? && twin.value.category == DUPLICATE ==> ProfileOk(twin.value, positions)
    modifies factory
    ensures TakeAll(old(factory.View()), CallsFor(category, d))
         == if made.None? then None else Some(factory.View())
    ensures fresh' !! old(factory.usedEmails) && factory.usedEmails == old(factory.usedEmails) + fresh'
    ensures made.Some? ==>
              && made.value.category == category
              && IsMade(positions, made.value, category, number, twin, rows, fresh')
  {
    hide PositionOf, LacksSkill, Lower, Required, SkillsTellApart, Join, FileId, Take, TakeAll,
         CallsFor, CleanAlone, ProfileOk, IsArrangement, Choose, IsEmail, Rank, RowFits, IsMade, TrapSet,
         HasItsRow;
    rows := [];
    TakeCalls(factory.View(), category, d);
    var fileId := FileId(number);
    var p := Choose(positions, OPEN, d.first.position);
    TablePosition(positions, p);
    made := factory.Clean(fileId, category, p, d.first);
    if made.None? {
      fresh' := {};
      return;
    }
    fresh' := {made.value.email.value};
    if category == CLOSED_POSITION {
      p := Choose(positions, CLOSED, d.closed.position);
      made := MakeOther(factory, positions, fileId, category, p, d.closed);
    } else if category == HELD_POSITION {
      p := Choose(positions, ON_HOLD, d.held.position);
      made := MakeOther(factory, positions, fileId, category, p, d.held);
    } else {
      var c;
      c, rows := SetTrap(positions, made.value, p, d.pick, twin);
      TrappedIsMade(positions, made.value, p, twin, c, rows, number);
      made := Some(c);
      return;
    }
    if made.Some? {
      OtherIsMade(positions, made.value, number, twin, fresh' + {made.value.email.value});
      fresh' := fresh' + {made.value.email.value};
    }
  }

  lemma {:induction false} TrappedIsMade(
    positions: seq<Position>, clean: Candidate, p: Position, twin: Option<Candidate>, c: Candidate,
    rows: seq<HistoryRow>, number: nat)
    requires clean.fileId == FileId(number) && clean.email.Some? && IsEmail(clean.email.value)
    requires TrapSet(clean, p, twin, c, rows)
    requires c.category == clean.category && c.fileId == clean.fileId && ProfileOk(c, positions)
    requires c.category == DUPLICATE && !TakesTwin(c.category, twin) ==> CleanAlone(c, positions)
    requires c.email == if clean.category == MISSING_EMAIL then None
                        else if TakesTwin(clean.category, twin) then twin.value.email
                        else clean.email
    requires forall h :: h in rows ==> clean.email == Some(h.email) && RowFits(h, c)
    requires HasItsRow(c, rows)
    ensures IsMade(positions, c, clean.category, number, twin, rows, {clean.email.value})
  {
    TrapRows(clean, p, twin, c, rows);
    hide TrapSet, ProfileOk, CleanAlone, FileId, IsEmail, RowFits, HasItsRow;
  }

  lemma {:induction false} OtherIsMade(
    positions: seq<Position>, c: Candidate, number: nat, twin: Option<Candidate>, fresh': set<string>)
    requires c.category == CLOSED_POSITION || c.category == HELD_POSITION
    requires c.fileId == FileId(number) && ProfileOk(c, positions)
    requires c.email.Some? && IsEmail(c.email.value) && c.email.value in fresh'
    ensures IsMade(positions, c, c.category, number, twin, [], fresh')
  {
    hide ProfileOk, FileId, IsEmail;
  }

  /** The second candidate of the two categories that ask for a position of another status. */
  method MakeOther(
    factory: Factory, positions: seq<Position>, fileId: string, category: Category, p: Position,
    d: CleanDraw)
    returns (made: Option<Candidate>)
    requires WellFormed(positions) && p in positions && IsArrangement(d.skills, p)
    requires (category == CLOSED_POSITION && p.status == CLOSED)
             || (category == HELD_POSITION && p.status == ON_HOLD)
    modifies factory
    ensures made.None? <==> Take(old(factory.View()), d.numbers).None?
    ensures made.None? ==> factory.usedEmails == old(factory.usedEmails)
    ensures made.Some? ==>
              && Take(old(factory.View()), d.numbers) == Some(factory.View())
              && made.value.category == category && made.value.fileId == fileId
              && ProfileOk(made.value, positions)
              && made.value.email.Some? && IsEmail(made.value.email.value)
              && made.value.email.value !in old(factory.usedEmails)
              && factory.usedEmails == old(factory.usedEmails) + {made.value.email.value}
  {
    hide PositionOf, LacksSkill, Lower, Required, SkillsTellApart, Join, Take;
    TablePosition(positions, p);
    made := factory.Clean(fileId, category, p, d);
  }

  /** One candidate more, whichever way it came about. */
  lemma {:induction false} AddMade(
    positions: seq<Position>, cs: seq<Candidate>, hs: seq<HistoryRow>, used: set<string>,
    c: Candidate, twin: Option<Candidate>, rows: seq<HistoryRow>, fresh': set<string>, start: nat)
    requires Built(positions, cs, hs, used) && FirstDuplicateClean(positions, cs) && fresh' !! used
    requires twin == if cs == [] then None else Some(cs[|cs| - 1])
    requires IsMade(positions, c, c.category, |cs| + 1, twin, rows, fresh')
    requires start <= |cs|
    requires forall i :: 0 <= i < start ==> Rank(cs[i].category) < Rank(c.category)
    requires forall i :: start <= i < |cs| ==> cs[i].category == c.category
    ensures Built(positions, cs + [c], hs + rows, used + fresh')
    ensures FirstDuplicateClean(positions, cs + [c])
    ensures |rows| == if c.category == BARRED || c.category == REAPPLIED then 1 else 0
  {
    StillClean(positions, cs, c);
    hide Built, ProfileOk, IsEmail, RowFits, HasItsRow, FileId, CleanAlone, FirstDuplicateClean;
    if TakesTwin(c.category, twin) {
      AddTwin(positions, cs, hs, used, c, fresh');
      assert hs + rows == hs;
    } else {
      AddOwn(positions, cs, hs, used, c, rows, fresh');
    }
  }

  // ----- the numbers drawn for emails, over the whole run

  /** Those of candidates of these categories, made from these draws. */
  function Calls(categories: seq<Category>, draws: seq<Draw>): seq<seq<nat>>
    requires |categories| <= |draws|
  {
    if categories == [] then []
    else
      var last := |categories| - 1;
      Calls(categories[..last], draws) + CallsFor(categories[last], draws[last])
  }

  function StrangerCalls(strangers: seq<(seq<nat>, nat)>): (r: seq<seq<nat>>)
    ensures |r| == |strangers|
  {
    seq(|strangers|, i requires 0 <= i < |strangers| => strangers[i].0)
  }

  /** The names, the draws or the numbers for emails run out before the run is over. */
  predicate RunsOut(
    names: seq<(string, string)>, counts: seq<nat>, draws: seq<Draw>, strangers: seq<(seq<nat>, nat)>)
    requires |counts| == |CATEGORIES|
  {
    || |draws| < |AllAsked(counts)|
    || TakeAll(People(names, {}), Calls(AllAsked(counts), draws) + StrangerCalls(strangers)).None?
  }

  lemma {:induction false} CallsPrefix(first: seq<Category>, all: seq<Category>, draws: seq<Draw>)
    requires first <= all && |all| <= |draws|
    ensures Calls(first, draws) <= Calls(all, draws)
    decreases |all|
  {
    if |first| == |all| {
      assert first == all;
    } else {
      CallsPrefix(first, all[..|all| - 1], draws);
    }
  }

  /** Once somebody could not be made, the run is over. */
  lemma {:induction false} StuckStaysStuck(people: People, first: seq<seq<nat>>, all: seq<seq<nat>>)
    requires first <= all && TakeAll(people, first).None?
    ensures TakeAll(people, all).None?
  {
    assert all == first + all[|first|..];
    TakeAllConcat(people, first, all[|first|..]);
  }

  // ----- `build`

  /** The candidates that bring a row of the history. */
  function WithRow(cs: seq<Candidate>): nat {
    if cs == [] then 0
    else
      var last := cs[|cs| - 1];
      WithRow(cs[..|cs| - 1]) + if last.category == BARRED || last.category == REAPPLIED then 1 else 0
  }

  lemma {:induction false} OneMoreRow(cs: seq<Candidate>, c: Candidate)
    ensures WithRow(cs + [c]) == WithRow(cs) + if c.category == BARRED || c.category == REAPPLIED then 1 else 0
  {
    assert (cs + [c])[..|cs|] == cs;
  }

  /** Where a run stands after some candidates. */
  ghost predicate Standing(
    positions: seq<Position>, names: seq<(string, string)>, draws: seq<Draw>,
    cs: seq<Candidate>, hs: seq<HistoryRow>, people: People)
  {
    && Built(positions, cs, hs, people.used)
    && FirstDuplicateClean(positions, cs)
    && |hs| == WithRow(cs)
    && |cs| <= |draws|
    && TakeAll(People(names, {}), Calls(CategoriesOf(cs), draws)) == Some(people)
  }

  /** The body of the loop: one candidate more, `start` being where those of its category begin. */
  method AddOne(
    factory: Factory, positions: seq<Position>, ghost names: seq<(string, string)>, draws: seq<Draw>,
    cs: seq<Candidate>, hs: seq<HistoryRow>, category: Category, ghost start: nat)
    returns (more: Option<(seq<Candidate>, seq<HistoryRow>)>)
    requires WellFormed(positions) && |cs| < |draws| && PossibleDraw(positions, draws[|cs|])
    requires Standing(positions, names, draws, cs, hs, factory.View())
    requires start <= |cs|
    requires forall i :: 0 <= i < start ==> Rank(cs[i].category) < Rank(category)
    requires forall i :: start <= i < |cs| ==> cs[i].category == category
    modifies factory
    ensures more.Some? ==>
              && Standing(positions, names, draws, more.value.0, more.value.1, factory.View())
              && CategoriesOf(more.value.0) == CategoriesOf(cs) + [category]
    ensures more.None? ==>
              TakeAll(People(names, {}), Calls(CategoriesOf(cs) + [category], draws)).None?
  {
    hide Rank, Built, ProfileOk, IsMade, WellFormed, PossibleDraw, TakeAll, CallsFor, Calls,
         FirstDuplicateClean, WithRow;
    var twin := if cs == [] then None else Some(cs[|cs| - 1]);
    if twin.Some? {
      BuiltProfile(positions, cs, hs, factory.usedEmails, |cs| - 1);
    }
    ghost var people := factory.View();
    OneMoreCalls(CategoriesOf(cs), category, draws);
    TakeAllConcat(People(names, {}), Calls(CategoriesOf(cs), draws), CallsFor(category, draws[|cs|]));
    var made, rows, fresh' := MakeOne(factory, positions, category, |cs| + 1, draws[|cs|], twin);
    if made.None? {
      return None;
    }
    AddMade(positions, cs, hs, people.used, made.value, twin, rows, fresh', start);
    OneMoreRow(cs, made.value);
    assert CategoriesOf(cs + [made.value]) == CategoriesOf(cs) + [category];
    more := Some((cs + [made.value], hs + rows));
  }

  lemma {:induction false} OneMoreCalls(before: seq<Category>, category: Category, draws: seq<Draw>)
    requires |before| < |draws|
    ensures Calls(before + [category], draws) == Calls(before, draws) + CallsFor(category, draws[|before|])
  {
    hide CallsFor;
    assert (before + [category])[..|before|] == before;
  }

  lemma {:induction false} Ranked(cs: seq<Candidate>, counts: seq<nat>, k: nat, n: nat)
    requires |counts| == |CATEGORIES| && k < |CATEGORIES|
    requires CategoriesOf(cs) == Asked(counts, k) + Repeat(CATEGORIES[k], n)
    ensures forall i :: 0 <= i < |Asked(counts, k)| ==> Rank(cs[i].category) < Rank(CATEGORIES[k])
    ensures forall i :: |Asked(counts, k)| <= i < |cs| ==> cs[i].category == CATEGORIES[k]
  {
    hide Rank, Asked;
    RankInTable(k);
    forall i | 0 <= i < |cs|
      ensures i < |Asked(counts, k)| ==> Rank(cs[i].category) < k
      ensures i >= |Asked(counts, k)| ==> cs[i].category == CATEGORIES[k]
    {
      assert CategoriesOf(cs)[i] == cs[i].category;
      if i < |Asked(counts, k)| {
        WhereAsked(counts, k, k, i);
      }
    }
  }

  /** The rows about people who are not in the batch. */
  method AddStrangers(
    factory: Factory, positions: seq<Position>, ghost people: People, ghost calls: seq<seq<nat>>,
    cs: seq<Candidate>, hs: seq<HistoryRow>, strangers: seq<(seq<nat>, nat)>)
    returns (history: Option<seq<HistoryRow>>)
    requires Built(positions, cs, hs, factory.usedEmails)
    requires TakeAll(people, calls) == Some(factory.View())
    modifies factory
    ensures history.None? <==> TakeAll(people, calls + StrangerCalls(strangers)).None?
    ensures history.Some? ==> Built(positions, cs, history.value, factory.usedEmails)
    ensures history.Some? ==>
              && |history.value| == |hs| + |strangers| && history.value[..|hs|] == hs
              && forall k :: |hs| <= k < |history.value| ==>
                   !history.value[k].doNotRehire && -1200 < history.value[k].lastAppliedOn <= -300
  {
    hide Built, IsEmail, Take, TakeAll;
    var all := hs;
    ghost var theirs := StrangerCalls(strangers);
    assert calls + theirs[..0] == calls;
    for k := 0 to |strangers|
      invariant Built(positions, cs, all, factory.usedEmails)
      invariant |all| == |hs| + k && all[..|hs|] == hs
      invariant forall j :: |hs| <= j < |all| ==>
                  !all[j].doNotRehire && -1200 < all[j].lastAppliedOn <= -300
      invariant TakeAll(people, calls + theirs[..k]) == Some(factory.View())
    {
      ghost var used := factory.usedEmails;
      assert calls + theirs[..k + 1] == (calls + theirs[..k]) + [theirs[k]];
      TakeAllConcat(people, calls + theirs[..k], [theirs[k]]);
      TakeOne(factory.View(), theirs[k]);
      var person := factory.Person(strangers[k].0);
      if person.None? {
        StuckStaysStuck(people, calls + theirs[..k + 1], calls + theirs);
        return None;
      }
      var row := HistoryRow(person.value.1, SCREENING_DAY - (300 + strangers[k].1 % 900), false);
      AddStranger(positions, cs, all, used, row);
      all := all + [row];
    }
    assert theirs[..|strangers|] == theirs;
    return Some(all);
  }

  /** `build`, for any draws and any table of counts: exactly what was asked for, in order, unless
      something runs out; and the answer key holds exactly when not one duplicate was asked for. */
  method Build(
    positions: seq<Position>, names: seq<(string, string)>, counts: seq<nat>,
    draws: seq<Draw>, strangers: seq<(seq<nat>, nat)>)
    returns (result: Option<(seq<Candidate>, seq<HistoryRow>)>, ghost used: set<string>)
    requires WellFormed(positions) && |counts| == |CATEGORIES| && |strangers| == 4
    requires forall i :: 0 <= i < |draws| ==> PossibleDraw(positions, draws[i])
    ensures result.None? <==> RunsOut(names, counts, draws, strangers)
    ensures result.Some? ==> CategoriesOf(result.value.0) == AllAsked(counts)
    ensures result.Some? ==> |result.value.1| == WithRow(result.value.0) + 4
    ensures result.Some? ==> Built(positions, result.value.0, result.value.1, used)
                             && FirstDuplicateClean(positions, result.value.0)
    ensures result.Some? ==>
              forall gs: seq<HistoryRow> :: (forall h :: h in gs <==> h in result.value.1) ==>
                (AllAsDeclared(positions, result.value.0, gs) <==> counts[DUPLICATE_AT] != 1)
  {
    hide Built, FirstDuplicateClean, AllAsDeclared, WellFormed, PossibleDraw, Take, TakeAll, Calls,
         DuplicatesPaired, Asked, Repeat, CategoriesOf, Rank, WithRow;
    used := {};
    var factory := new Factory(names);
    var candidates: seq<Candidate>, history: seq<HistoryRow> := [], [];
    NothingBuilt(positions, names, draws);
    NothingAsked(counts);
    for k := 0 to |CATEGORIES|
      invariant Standing(positions, names, draws, candidates, history, factory.View())
      invariant CategoriesOf(candidates) == Asked(counts, k)
      invariant fresh(factory)
    {
      RunOfCategory(counts, k);
      for n := 0 to counts[k]
        invariant Standing(positions, names, draws, candidates, history, factory.View())
        invariant CategoriesOf(candidates) == Asked(counts, k) + Repeat(CATEGORIES[k], n)
        invariant fresh(factory)
      {
        NextAsked(counts, k, n);
        if |candidates| >= |draws| {
          return None, {};
        }
        Ranked(candidates, counts, k, n);
        var more := AddOne(factory, positions, names, draws, candidates, history, CATEGORIES[k],
                           |Asked(counts, k)|);
        if more.None? {
          RunIsOver(names, counts, draws, strangers, Asked(counts, k) + Repeat(CATEGORIES[k], n + 1));
          return None, {};
        }
        candidates, history := more.value.0, more.value.1;
      }
    }
    var all := AddStrangers(factory, positions, People(names, {}),
                            Calls(AllAsked(counts), draws), candidates, history, strangers);
    if all.None? {
      return None, {};
    }
    used := factory.usedEmails;
    PairedIffNotOne(candidates, counts);
    forall gs: seq<HistoryRow> | forall h :: h in gs <==> h in all.value
      ensures AllAsDeclared(positions, candidates, gs) <==> counts[DUPLICATE_AT] != 1
    {
      AsDeclaredIffPaired(positions, candidates, all.value, used, gs);
    }
    result := Some((candidates, all.value));
  }

  lemma {:induction false} RunIsOver(
    names: seq<(string, string)>, counts: seq<nat>, draws: seq<Draw>, strangers: seq<(seq<nat>, nat)>,
    first: seq<Category>)
    requires |counts| == |CATEGORIES| && first <= AllAsked(counts) && |first| <= |draws|
    requires TakeAll(People(names, {}), Calls(first, draws)).None?
    ensures RunsOut(names, counts, draws, strangers)
  {
    hide TakeAll, Calls;
    if |draws| >= |AllAsked(counts)| {
      CallsPrefix(first, AllAsked(counts), draws);
      StuckStaysStuck(People(names, {}), Calls(first, draws),
                      Calls(AllAsked(counts), draws) + StrangerCalls(strangers));
    }
  }

  lemma {:induction false} NothingBuilt(
    positions: seq<Position>, names: seq<(string, string)>, draws: seq<Draw>)
    ensures Standing(positions, names, draws, [], [], People(names, {}))
    ensures CategoriesOf([]) == []
  {
  }

  lemma {:induction false} BuiltProfile(
    positions: seq<Position>, cs: seq<Candidate>, hs: seq<HistoryRow>, used: set<string>, i: nat)
    requires Built(positions, cs, hs, used) && i < |cs|
    ensures ProfileOk(cs[i], positions)
  {
    hide ProfileOk;
  }
}
