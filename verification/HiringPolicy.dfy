/**
 The hiring policy as `tools/hiring_mock.py` writes it down for its own answer key: `outcome`, which
 reads one candidate's symbols, the sources and the other candidates, and collects reasons.
 Days are counted from the screening date.
 */
module HiringPolicy {
  import opened Text

  datatype PositionStatus = OPEN | CLOSED | ON_HOLD

  /** A row of the positions table, with the extra skills the generator knows for its code. */
  datatype Position = Position(
    code: string,
    status: PositionStatus,
    minYears: nat,
    salaryCap: int,
    requiredSkills: string,
    extraSkills: seq<string>)

  datatype HistoryRow = HistoryRow(email: string, lastAppliedOn: int, doNotRehire: bool)

  datatype Symbols = Symbols(
    candidateId: string,
    fullName: string,
    email: Option<string>,
    positionCode: string,
    years: Option<int>,
    salary: Option<int>,
    skills: string,
    availableFrom: Option<int>)

  datatype Reason =
    | MISSING_DATA | UNKNOWN_POSITION | POSITION_CLOSED | POSITION_ON_HOLD | BELOW_MIN_YEARS
    | SALARY_OVER_CAP | MISSING_SKILL | DO_NOT_REHIRE | RECENT_REAPPLY | DUPLICATE_CANDIDATE
    | LATE_AVAILABILITY

  datatype Decision = INTERVIEW | REVIEW | REJECT

  const SCREENING_DAY := 0
  const REAPPLY_MONTHS := 6
  const AVAILABILITY_DAYS := 90

  /** `{p["code"]: p for p in positions}`: of two rows with one code the later wins. */
  function PositionOf(code: string, positions: seq<Position>): Option<Position> {
    if positions == [] then None
    else
      var last := positions[|positions| - 1];
      if last.code == code then Some(last) else PositionOf(code, positions[..|positions| - 1])
  }

  function Stripped(parts: seq<string>): (r: seq<string>)
    ensures |r| == |parts|
  {
    seq(|parts|, i requires 0 <= i < |parts| => Strip(parts[i]))
  }

  /** `[s.strip() for s in required_skills.split(";")]` */
  function Required(p: Position): (r: seq<string>)
    ensures r != []
  {
    Stripped(Split(p.requiredSkills, ';'))
  }

  /** `skill in {s.strip().lower() for s in skills.split(",")}` */
  predicate Offers(skills: string, skill: string) {
    exists part :: part in Split(skills, ',') && Lower(Strip(part)) == skill
  }

  predicate LacksSkill(s: Symbols, p: Position) {
    exists skill :: skill in Required(p) && !Offers(s.skills, Lower(skill))
  }

  function EmailOf(s: Symbols): string {
    if s.email.Some? then Lower(s.email.value) else ""
  }

  predicate Missing(s: Symbols) {
    s.fullName == "" || s.email == None || s.email == Some("") || s.positionCode == ""
  }

  predicate Barred(email: string, history: seq<HistoryRow>) {
    exists h :: h in history && Lower(h.email) == email && h.doNotRehire
  }

  predicate Recent(email: string, history: seq<HistoryRow>) {
    exists h :: h in history && Lower(h.email) == email
                && h.lastAppliedOn >= SCREENING_DAY - 30 * REAPPLY_MONTHS
  }

  predicate Repeated(email: string, batch: seq<Symbols>) {
    exists o :: o in batch && EmailOf(o) == email
  }

  predicate Late(s: Symbols) {
    s.availableFrom.Some? && s.availableFrom.value > SCREENING_DAY + AVAILABILITY_DAYS
  }

  function If(condition: bool, reason: Reason): seq<Reason> {
    if condition then [reason] else []
  }

  function PositionReasons(s: Symbols, p: Position): seq<Reason> {
    If(p.status == CLOSED, POSITION_CLOSED)
    + If(p.status == ON_HOLD, POSITION_ON_HOLD)
    + If(s.years.Some? && s.years.value < p.minYears, BELOW_MIN_YEARS)
    + If(s.salary.Some? && s.salary.value > p.salaryCap, SALARY_OVER_CAP)
    + If(LacksSkill(s, p), MISSING_SKILL)
  }

  function EmailReasons(email: string, history: seq<HistoryRow>, batch: seq<Symbols>): seq<Reason> {
    If(Barred(email, history), DO_NOT_REHIRE)
    + If(Recent(email, history), RECENT_REAPPLY)
    + If(Repeated(email, batch), DUPLICATE_CANDIDATE)
  }

  /** The reasons `outcome` accumulates, in its order. */
  function Reasons(
    s: Symbols, positions: seq<Position>, history: seq<HistoryRow>, batch: seq<Symbols>): seq<Reason>
  {
    var position := PositionOf(s.positionCode, positions);
    If(Missing(s), MISSING_DATA)
    + If(s.positionCode != "" && position.None?, UNKNOWN_POSITION)
    + (if position.Some? then PositionReasons(s, position.value) else [])
    + (if EmailOf(s) != "" then EmailReasons(EmailOf(s), history, batch) else [])
    + If(Late(s), LATE_AVAILABILITY)
  }

  predicate AsksForReview(r: Reason) {
    r in {MISSING_DATA, UNKNOWN_POSITION, POSITION_ON_HOLD, SALARY_OVER_CAP, RECENT_REAPPLY,
          DUPLICATE_CANDIDATE, LATE_AVAILABILITY}
  }

  /** REVIEW beats REJECT beats INTERVIEW. */
  function Decide(reasons: seq<Reason>): Decision {
    if exists r :: r in reasons && AsksForReview(r) then REVIEW
    else if reasons != [] then REJECT
    else INTERVIEW
  }

  function Outcome(
    s: Symbols, positions: seq<Position>, history: seq<HistoryRow>, batch: seq<Symbols>): Decision
  {
    Decide(Reasons(s, positions, history, batch))
  }

  /** `outcome`, appending one reason after the other. */
  method CollectReasons(
    s: Symbols, positions: seq<Position>, history: seq<HistoryRow>, batch: seq<Symbols>)
    returns (decision: Decision, reasons: seq<Reason>)
    ensures reasons == Reasons(s, positions, history, batch)
    ensures decision == Outcome(s, positions, history, batch)
  {
    hide Missing, Late, LacksSkill, Barred, Recent, Repeated, PositionOf, EmailOf, Decide,
         PositionReasons, EmailReasons;
    reasons := [];
    if Missing(s) {
      reasons := reasons + [MISSING_DATA];
    }
    assert reasons == If(Missing(s), MISSING_DATA);
    ghost var first := reasons;
    var position := PositionOf(s.positionCode, positions);
    if s.positionCode != "" && position.None? {
      reasons := reasons + [UNKNOWN_POSITION];
    }
    assert reasons == first + If(s.positionCode != "" && position.None?, UNKNOWN_POSITION);
    ghost var second := reasons;
    if position.Some? {
      var more := CollectPositionReasons(s, position.value);
      reasons := reasons + more;
    }
    assert reasons == second + if position.Some? then PositionReasons(s, position.value) else [];
    ghost var third := reasons;
    var email := EmailOf(s);
    if email != "" {
      var more := CollectEmailReasons(email, history, batch);
      reasons := reasons + more;
    }
    assert reasons == third + if email != "" then EmailReasons(email, history, batch) else [];
    ghost var fourth := reasons;
    if Late(s) {
      reasons := reasons + [LATE_AVAILABILITY];
    }
    assert reasons == fourth + If(Late(s), LATE_AVAILABILITY);
    decision := Decide(reasons);
  }

  method CollectPositionReasons(s: Symbols, p: Position) returns (reasons: seq<Reason>)
    ensures reasons == PositionReasons(s, p)
  {
    hide LacksSkill;
    reasons := [];
    if p.status == CLOSED {
      reasons := reasons + [POSITION_CLOSED];
    } else if p.status == ON_HOLD {
      reasons := reasons + [POSITION_ON_HOLD];
    }
    if s.years.Some? && s.years.value < p.minYears {
      reasons := reasons + [BELOW_MIN_YEARS];
    }
    if s.salary.Some? && s.salary.value > p.salaryCap {
      reasons := reasons + [SALARY_OVER_CAP];
    }
    if LacksSkill(s, p) {
      reasons := reasons + [MISSING_SKILL];
    }
  }

  method CollectEmailReasons(email: string, history: seq<HistoryRow>, batch: seq<Symbols>)
    returns (reasons: seq<Reason>)
    ensures reasons == EmailReasons(email, history, batch)
  {
    hide Barred, Recent, Repeated;
    reasons := [];
    if Barred(email, history) {
      reasons := reasons + [DO_NOT_REHIRE];
    }
    if Recent(email, history) {
      reasons := reasons + [RECENT_REAPPLY];
    }
    if Repeated(email, batch) {
      reasons := reasons + [DUPLICATE_CANDIDATE];
    }
  }

  /** The place of a reason in the order `outcome` looks for them. */
  function Place(r: Reason): nat {
    match r
    case MISSING_DATA => 0 case UNKNOWN_POSITION => 1 case POSITION_CLOSED => 2
    case POSITION_ON_HOLD => 3 case BELOW_MIN_YEARS => 4 case SALARY_OVER_CAP => 5
    case MISSING_SKILL => 6 case DO_NOT_REHIRE => 7 case RECENT_REAPPLY => 8
    case DUPLICATE_CANDIDATE => 9 case LATE_AVAILABILITY => 10
  }

  predicate InPlace(reasons: seq<Reason>, from: nat, to: nat) {
    && (forall a :: 0 <= a < |reasons| ==> from <= Place(reasons[a]) < to)
    && (forall a, b :: 0 <= a < b < |reasons| ==> Place(reasons[a]) < Place(reasons[b]))
  }

  lemma {:induction false} InPlaceConcat(a: seq<Reason>, b: seq<Reason>, from: nat, middle: nat, to: nat)
    requires InPlace(a, from, middle) && InPlace(b, middle, to) && from <= middle <= to
    ensures InPlace(a + b, from, to)
  {
    forall i | 0 <= i < |a + b|
      ensures from <= Place((a + b)[i]) < to
      ensures i < |a| ==> Place((a + b)[i]) < middle
      ensures i >= |a| ==> Place((a + b)[i]) >= middle
    {
      assert (a + b)[i] == if i < |a| then a[i] else b[i - |a|];
    }
  }

  /** Each reason is listed once at most, and in one order. */
  lemma {:induction false} ReasonsInOrder(
    s: Symbols, positions: seq<Position>, history: seq<HistoryRow>, batch: seq<Symbols>)
    ensures InPlace(Reasons(s, positions, history, batch), 0, 11)
  {
    hide Missing, Late, LacksSkill, Barred, Recent, Repeated, PositionOf, EmailOf, InPlace, PositionReasons,
         EmailReasons;
    var position := PositionOf(s.positionCode, positions);
    var first := If(Missing(s), MISSING_DATA);
    var second := If(s.positionCode != "" && position.None?, UNKNOWN_POSITION);
    var third := if position.Some? then PositionReasons(s, position.value) else [];
    var fourth := if EmailOf(s) != "" then EmailReasons(EmailOf(s), history, batch) else [];
    var fifth := If(Late(s), LATE_AVAILABILITY);
    IfInPlace(Missing(s), MISSING_DATA);
    IfInPlace(s.positionCode != "" && position.None?, UNKNOWN_POSITION);
    NothingInPlace(2, 7);
    NothingInPlace(7, 10);
    if position.Some? {
      PositionInPlace(s, position.value);
    }
    EmailInPlace(EmailOf(s), history, batch);
    IfInPlace(Late(s), LATE_AVAILABILITY);
    InPlaceConcat(first, second, 0, 1, 2);
    InPlaceConcat(first + second, third, 0, 2, 7);
    InPlaceConcat(first + second + third, fourth, 0, 7, 10);
    InPlaceConcat(first + second + third + fourth, fifth, 0, 10, 11);
  }

  lemma {:induction false} IfInPlace(condition: bool, r: Reason)
    ensures InPlace(If(condition, r), Place(r), Place(r) + 1)
  {
  }

  lemma {:induction false} NothingInPlace(from: nat, to: nat)
    ensures InPlace([], from, to)
  {
  }

  lemma {:induction false} PositionInPlace(s: Symbols, p: Position)
    ensures InPlace(PositionReasons(s, p), 2, 7)
  {
    hide LacksSkill, InPlace;
    var a, b := If(p.status == CLOSED, POSITION_CLOSED), If(p.status == ON_HOLD, POSITION_ON_HOLD);
    var c := If(s.years.Some? && s.years.value < p.minYears, BELOW_MIN_YEARS);
    var d := If(s.salary.Some? && s.salary.value > p.salaryCap, SALARY_OVER_CAP);
    var e := If(LacksSkill(s, p), MISSING_SKILL);
    IfInPlace(p.status == CLOSED, POSITION_CLOSED);
    IfInPlace(p.status == ON_HOLD, POSITION_ON_HOLD);
    IfInPlace(s.years.Some? && s.years.value < p.minYears, BELOW_MIN_YEARS);
    IfInPlace(s.salary.Some? && s.salary.value > p.salaryCap, SALARY_OVER_CAP);
    IfInPlace(LacksSkill(s, p), MISSING_SKILL);
    InPlaceConcat(a, b, 2, 3, 4);
    InPlaceConcat(a + b, c, 2, 4, 5);
    InPlaceConcat(a + b + c, d, 2, 5, 6);
    InPlaceConcat(a + b + c + d, e, 2, 6, 7);
  }

  lemma {:induction false} EmailInPlace(email: string, history: seq<HistoryRow>, batch: seq<Symbols>)
    ensures InPlace(EmailReasons(email, history, batch), 7, 10)
  {
    hide Barred, Recent, Repeated, InPlace;
    IfInPlace(Barred(email, history), DO_NOT_REHIRE);
    IfInPlace(Recent(email, history), RECENT_REAPPLY);
    IfInPlace(Repeated(email, batch), DUPLICATE_CANDIDATE);
    var a, b := If(Barred(email, history), DO_NOT_REHIRE), If(Recent(email, history), RECENT_REAPPLY);
    InPlaceConcat(a, b, 7, 8, 9);
    InPlaceConcat(a + b, If(Repeated(email, batch), DUPLICATE_CANDIDATE), 7, 9, 10);
  }

  // ----- the outcome without its list

  /** Some condition for a person holds. */
  predicate NeedsReview(
    s: Symbols, positions: seq<Position>, history: seq<HistoryRow>, batch: seq<Symbols>)
  {
    var position := PositionOf(s.positionCode, positions);
    || Missing(s)
    || position.None?
    || position.value.status == ON_HOLD
    || (s.salary.Some? && s.salary.value > position.value.salaryCap)
    || (EmailOf(s) != "" && (Recent(EmailOf(s), history) || Repeated(EmailOf(s), batch)))
    || Late(s)
  }

  predicate Refused(
    s: Symbols, positions: seq<Position>, history: seq<HistoryRow>, batch: seq<Symbols>)
  {
    var position := PositionOf(s.positionCode, positions);
    || (position.Some?
        && (position.value.status == CLOSED
            || (s.years.Some? && s.years.value < position.value.minYears)
            || LacksSkill(s, position.value)))
    || (EmailOf(s) != "" && Barred(EmailOf(s), history))
  }

  lemma {:induction false} InFive(a: seq<Reason>, b: seq<Reason>, c: seq<Reason>, d: seq<Reason>, e: seq<Reason>, r: Reason)
    ensures r in a + b + c + d + e <==> r in a || r in b || r in c || r in d || r in e
  {
  }

  lemma {:induction false} InPositionReasons(s: Symbols, p: Position, r: Reason)
    ensures r in PositionReasons(s, p) <==>
              || (r == POSITION_CLOSED && p.status == CLOSED)
              || (r == POSITION_ON_HOLD && p.status == ON_HOLD)
              || (r == BELOW_MIN_YEARS && s.years.Some? && s.years.value < p.minYears)
              || (r == SALARY_OVER_CAP && s.salary.Some? && s.salary.value > p.salaryCap)
              || (r == MISSING_SKILL && LacksSkill(s, p))
  {
    hide LacksSkill;
    InFive(If(p.status == CLOSED, POSITION_CLOSED), If(p.status == ON_HOLD, POSITION_ON_HOLD),
           If(s.years.Some? && s.years.value < p.minYears, BELOW_MIN_YEARS),
           If(s.salary.Some? && s.salary.value > p.salaryCap, SALARY_OVER_CAP),
           If(LacksSkill(s, p), MISSING_SKILL), r);
  }

  lemma {:induction false} InEmailReasons(email: string, history: seq<HistoryRow>, batch: seq<Symbols>, r: Reason)
    ensures r in EmailReasons(email, history, batch) <==>
              || (r == DO_NOT_REHIRE && Barred(email, history))
              || (r == RECENT_REAPPLY && Recent(email, history))
              || (r == DUPLICATE_CANDIDATE && Repeated(email, batch))
  {
    hide Barred, Recent, Repeated;
  }

  /** Which conditions put which reasons on the list. */
  lemma {:induction false} ReasonListed(
    s: Symbols, positions: seq<Position>, history: seq<HistoryRow>, batch: seq<Symbols>, r: Reason)
    ensures r in Reasons(s, positions, history, batch) <==>
            var position := PositionOf(s.positionCode, positions);
            match r
            case MISSING_DATA =>
              s.fullName == "" || s.email == None || s.email == Some("") || s.positionCode == ""
            case UNKNOWN_POSITION => s.positionCode != "" && position.None?
            case POSITION_CLOSED => position.Some? && position.value.status == CLOSED
            case POSITION_ON_HOLD => position.Some? && position.value.status == ON_HOLD
            case BELOW_MIN_YEARS =>
              position.Some? && s.years.Some? && s.years.value < position.value.minYears
            case SALARY_OVER_CAP =>
              position.Some? && s.salary.Some? && s.salary.value > position.value.salaryCap
            case MISSING_SKILL =>
              position.Some? && exists asked ::
                asked in Split(position.value.requiredSkills, ';')
                && forall offered :: offered in Split(s.skills, ',') ==>
                     Lower(Strip(offered)) != Lower(Strip(asked))
            case DO_NOT_REHIRE =>
              HasEmail(s) && exists h ::
                h in history && Lower(h.email) == Lower(s.email.value) && h.doNotRehire
            case RECENT_REAPPLY =>
              HasEmail(s) && exists h ::
                h in history && Lower(h.email) == Lower(s.email.value) && h.lastAppliedOn >= -180
            case DUPLICATE_CANDIDATE =>
              HasEmail(s) && exists o ::
                o in batch && HasEmail(o) && Lower(o.email.value) == Lower(s.email.value)
            case LATE_AVAILABILITY => s.availableFrom.Some? && s.availableFrom.value > 90
  {
    ReasonsAre(s, positions, history, batch, r);
    EmailConditions(s, history, batch);
    var position := PositionOf(s.positionCode, positions);
    if position.Some? {
      SkillCondition(s, position.value);
    }
    hide LacksSkill, Barred, Recent, Repeated, PositionOf, EmailOf, Reasons, Required;
  }

  predicate HasEmail(s: Symbols) {
    s.email.Some? && s.email.value != ""
  }

  lemma {:induction false} EmailConditions(s: Symbols, history: seq<HistoryRow>, batch: seq<Symbols>)
    ensures EmailOf(s) != "" <==> HasEmail(s)
    ensures HasEmail(s) ==>
              && (Barred(EmailOf(s), history) <==>
                    exists h :: h in history && Lower(h.email) == Lower(s.email.value) && h.doNotRehire)
              && (Recent(EmailOf(s), history) <==>
                    exists h :: h in history && Lower(h.email) == Lower(s.email.value)
                                && h.lastAppliedOn >= -180)
              && (Repeated(EmailOf(s), batch) <==>
                    exists o :: o in batch && HasEmail(o) && Lower(o.email.value) == Lower(s.email.value))
  {
    hide Lower;
    if HasEmail(s) {
      forall o | o in batch
        ensures EmailOf(o) == EmailOf(s) <==> HasEmail(o) && Lower(o.email.value) == Lower(s.email.value)
      {
        assert EmailOf(o) != "" <==> HasEmail(o);
      }
    }
  }

  lemma {:induction false} SkillCondition(s: Symbols, p: Position)
    ensures LacksSkill(s, p) <==>
            exists asked :: asked in Split(p.requiredSkills, ';')
              && forall offered :: offered in Split(s.skills, ',') ==>
                   Lower(Strip(offered)) != Lower(Strip(asked))
  {
    hide Split, Lower, Strip;
    var parts := Split(p.requiredSkills, ';');
    if skill :| skill in Required(p) && !Offers(s.skills, Lower(skill)) {
      var i :| 0 <= i < |Required(p)| && Required(p)[i] == skill;
      assert parts[i] in parts && skill == Strip(parts[i]);
    }
    if asked :| asked in parts && forall offered :: offered in Split(s.skills, ',') ==>
                                     Lower(Strip(offered)) != Lower(Strip(asked)) {
      var i :| 0 <= i < |parts| && parts[i] == asked;
      assert Required(p)[i] == Strip(asked);
      assert Required(p)[i] in Required(p);
    }
  }

  /** A code stands for the last position of the table that has it. */
  lemma {:induction false} PositionOfIs(code: string, positions: seq<Position>)
    ensures PositionOf(code, positions).None? <==> forall i :: 0 <= i < |positions| ==> positions[i].code != code
    ensures forall i :: IsLastWith(code, positions, i) ==> PositionOf(code, positions) == Some(positions[i])
  {
    if positions != [] {
      var front := positions[..|positions| - 1];
      PositionOfIs(code, front);
      assert forall i :: 0 <= i < |front| ==> front[i] == positions[i];
      assert forall i :: IsLastWith(code, positions, i) && i < |front| ==> IsLastWith(code, front, i);
    }
  }

  predicate IsLastWith(code: string, positions: seq<Position>, i: int) {
    && 0 <= i < |positions| && positions[i].code == code
    && forall j :: i < j < |positions| ==> positions[j].code != code
  }

  lemma {:induction false} ReasonsAre(
    s: Symbols, positions: seq<Position>, history: seq<HistoryRow>, batch: seq<Symbols>, r: Reason)
    ensures r in Reasons(s, positions, history, batch) <==>
            var position := PositionOf(s.positionCode, positions);
            match r
            case MISSING_DATA => Missing(s)
            case UNKNOWN_POSITION => s.positionCode != "" && position.None?
            case POSITION_CLOSED => position.Some? && position.value.status == CLOSED
            case POSITION_ON_HOLD => position.Some? && position.value.status == ON_HOLD
            case BELOW_MIN_YEARS =>
              position.Some? && s.years.Some? && s.years.value < position.value.minYears
            case SALARY_OVER_CAP =>
              position.Some? && s.salary.Some? && s.salary.value > position.value.salaryCap
            case MISSING_SKILL => position.Some? && LacksSkill(s, position.value)
            case DO_NOT_REHIRE => EmailOf(s) != "" && Barred(EmailOf(s), history)
            case RECENT_REAPPLY => EmailOf(s) != "" && Recent(EmailOf(s), history)
            case DUPLICATE_CANDIDATE => EmailOf(s) != "" && Repeated(EmailOf(s), batch)
            case LATE_AVAILABILITY => Late(s)
  {
    hide Missing, Late, LacksSkill, Barred, Recent, Repeated, PositionOf, EmailOf,
         PositionReasons, EmailReasons;
    var position := PositionOf(s.positionCode, positions);
    InFive(If(Missing(s), MISSING_DATA),
           If(s.positionCode != "" && position.None?, UNKNOWN_POSITION),
           if position.Some? then PositionReasons(s, position.value) else [],
           if EmailOf(s) != "" then EmailReasons(EmailOf(s), history, batch) else [],
           If(Late(s), LATE_AVAILABILITY), r);
    if position.Some? {
      InPositionReasons(s, position.value, r);
    }
    InEmailReasons(EmailOf(s), history, batch, r);
  }

  /** The policy in one sentence: a person decides when any condition for review holds, whatever else
      does; failing that, any condition for refusal refuses; failing both, the candidate is seen. */
  lemma {:induction false} OutcomeIs(s: Symbols, positions: seq<Position>, history: seq<HistoryRow>, batch: seq<Symbols>)
    ensures Outcome(s, positions, history, batch)
         == if NeedsReview(s, positions, history, batch) then REVIEW
            else if Refused(s, positions, history, batch) then REJECT
            else INTERVIEW
  {
    hide NeedsReview, Refused, Reasons, Decide;
    ReviewListed(s, positions, history, batch);
    RefusalListed(s, positions, history, batch);
    DecideIs(Reasons(s, positions, history, batch));
  }

  lemma {:induction false} ReviewListed(s: Symbols, positions: seq<Position>, history: seq<HistoryRow>, batch: seq<Symbols>)
    ensures NeedsReview(s, positions, history, batch) <==>
            var reasons := Reasons(s, positions, history, batch);
            || MISSING_DATA in reasons || UNKNOWN_POSITION in reasons || POSITION_ON_HOLD in reasons
            || SALARY_OVER_CAP in reasons || RECENT_REAPPLY in reasons
            || DUPLICATE_CANDIDATE in reasons || LATE_AVAILABILITY in reasons
  {
    assert s.positionCode == "" ==> Missing(s);
    hide Missing, Late, LacksSkill, Barred, Recent, Repeated, PositionOf, EmailOf, Reasons;
    ReasonsAre(s, positions, history, batch, MISSING_DATA);
    ReasonsAre(s, positions, history, batch, UNKNOWN_POSITION);
    ReasonsAre(s, positions, history, batch, POSITION_ON_HOLD);
    ReasonsAre(s, positions, history, batch, SALARY_OVER_CAP);
    ReasonsAre(s, positions, history, batch, RECENT_REAPPLY);
    ReasonsAre(s, positions, history, batch, DUPLICATE_CANDIDATE);
    ReasonsAre(s, positions, history, batch, LATE_AVAILABILITY);
  }

  lemma {:induction false} RefusalListed(s: Symbols, positions: seq<Position>, history: seq<HistoryRow>, batch: seq<Symbols>)
    ensures Refused(s, positions, history, batch) <==>
            var reasons := Reasons(s, positions, history, batch);
            || POSITION_CLOSED in reasons || BELOW_MIN_YEARS in reasons
            || MISSING_SKILL in reasons || DO_NOT_REHIRE in reasons
  {
    hide LacksSkill, Barred, PositionOf, EmailOf, Reasons;
    ReasonsAre(s, positions, history, batch, POSITION_CLOSED);
    ReasonsAre(s, positions, history, batch, BELOW_MIN_YEARS);
    ReasonsAre(s, positions, history, batch, MISSING_SKILL);
    ReasonsAre(s, positions, history, batch, DO_NOT_REHIRE);
  }

  lemma {:induction false} DecideIs(reasons: seq<Reason>)
    ensures Decide(reasons)
         == if MISSING_DATA in reasons || UNKNOWN_POSITION in reasons || POSITION_ON_HOLD in reasons
               || SALARY_OVER_CAP in reasons || RECENT_REAPPLY in reasons
               || DUPLICATE_CANDIDATE in reasons || LATE_AVAILABILITY in reasons then REVIEW
            else if POSITION_CLOSED in reasons || BELOW_MIN_YEARS in reasons
                    || MISSING_SKILL in reasons || DO_NOT_REHIRE in reasons then REJECT
            else INTERVIEW
  {
    if reasons != [] {
      var r := reasons[0];
      assert r in reasons;
      assert AsksForReview(r) || r == POSITION_CLOSED || r == BELOW_MIN_YEARS
             || r == MISSING_SKILL || r == DO_NOT_REHIRE;
    }
  }
}
