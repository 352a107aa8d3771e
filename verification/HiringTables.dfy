/** The positions table of `tools/hiring_mock.py`, and that it is what the generator needs. */
module HiringTables {
  import opened Text
  import opened HiringPolicy
  import opened HiringFactory

  const BACKEND := Position("BE-2026-03", OPEN, 4, 55000, "Python; PostgreSQL",
                            ["Docker", "FastAPI", "Redis", "Kafka", "AWS"])
  const FRONTEND := Position("FE-2026-02", OPEN, 3, 48000, "TypeScript; React",
                             ["CSS", "Vite", "Testing Library", "GraphQL", "Figma"])
  const ANALYST := Position("DA-2026-01", OPEN, 2, 40000, "SQL; Python",
                            ["dbt", "Power BI", "Excel", "Looker", "Airflow"])
  const PRODUCT := Position("PM-2026-01", OPEN, 5, 60000, "Roadmaps; Analytics",
                            ["Jira", "SQL", "User research", "OKRs", "Figma"])
  const QUALITY := Position("QA-2026-01", CLOSED, 2, 38000, "Testing; Python",
                            ["Playwright", "Cypress", "Postman", "CI/CD", "Docker"])
  const DEVOPS := Position("DEVOPS-2026-01", ON_HOLD, 4, 58000, "Kubernetes; Terraform",
                           ["AWS", "Ansible", "Prometheus", "Linux", "Go"])
  const PEOPLE := Position("HR-2026-02", OPEN, 3, 42000, "Recruiting; Payroll",
                           ["Onboarding", "Workday", "Labour law", "Compensation", "Excel"])
  const SECURITY := Position("SEC-2026-01", OPEN, 5, 65000, "Security; Linux",
                             ["SIEM", "Pentesting", "Python", "AWS", "Incident response"])

  const POSITIONS: seq<Position> :=
    [BACKEND, FRONTEND, ANALYST, PRODUCT, QUALITY, DEVOPS, PEOPLE, SECURITY]

  /** Two required skills, printed with their separator, are read back as two. */
  lemma {:induction false} TwoRequired(p: Position, a: string, b: string)
    requires p.requiredSkills == a + [';'] + (" " + b)
    requires Lacks(a, ';') && Lacks(b, ';') && Strip(a) == a && Strip(b) == b
    ensures Required(p) == [a, b]
  {
    SplitFirst(a, ';', " " + b);
    SplitNothing(" " + b, ';');
    assert (" " + b)[1..] == b;
    assert Strip(" " + b) == Strip(b);
  }

  /** Length and first letter, which tell the skills of a position apart. */
  function Tag(s: string): int {
    if s == "" then 0 else 1000 * |s| + LowerChar(s[0]) as int
  }

  lemma {:induction false} ApartByTag(s: string, t: string)
    requires Tag(s) != Tag(t)
    ensures Lower(s) != Lower(t)
  {
    if s != "" && t != "" && |s| == |t| {
      assert Lower(s)[0] == LowerChar(s[0]) && Lower(t)[0] == LowerChar(t[0]);
    }
  }

  predicate IsPlainSkill(s: string) {
    s != "" && s[0] != ' ' && s[|s| - 1] != ' ' && Lacks(s, ',') && Lacks(s, ';')
  }

  lemma {:induction false} PlainSkillIsSkill(s: string)
    requires IsPlainSkill(s)
    ensures IsSkill(s) && Lacks(s, ';')
  {
  }

  predicate AllDiffer(xs: seq<int>) {
    forall i, j :: 0 <= i < j < |xs| ==> xs[i] != xs[j]
  }

  lemma {:induction false} SevenSkills(
    p: Position, a: string, b: string, c: string, d: string, e: string, f: string, g: string)
    requires p.requiredSkills == a + [';'] + (" " + b) && p.extraSkills == [c, d, e, f, g]
    requires IsPlainSkill(a) && IsPlainSkill(b) && IsPlainSkill(c) && IsPlainSkill(d)
    requires IsPlainSkill(e) && IsPlainSkill(f) && IsPlainSkill(g)
    requires AllDiffer([Tag(a), Tag(b), Tag(c), Tag(d), Tag(e), Tag(f), Tag(g)])
    ensures SkillsTellApart(p)
  {
    hide Tag, IsPlainSkill;
    var all := [a, b, c, d, e, f, g];
    var tags := [Tag(a), Tag(b), Tag(c), Tag(d), Tag(e), Tag(f), Tag(g)];
    PlainSkillIsSkill(a);
    PlainSkillIsSkill(b);
    TwoRequired(p, a, b);
    assert Required(p) + p.extraSkills == all;
    forall i | 0 <= i < 7
      ensures IsSkill(all[i])
    {
      PlainSkillIsSkill(all[i]);
    }
    forall i, j | 0 <= i < j < 7
      ensures Lower(all[i]) != Lower(all[j])
    {
      assert tags[i] != tags[j];
      ApartByTag(all[i], all[j]);
    }
  }

  lemma {:induction false} BackendSkills()
    ensures SkillsTellApart(BACKEND)
  {
    SevenSkills(BACKEND, "Python", "PostgreSQL", "Docker", "FastAPI", "Redis", "Kafka", "AWS");
  }

  lemma {:induction false} FrontendSkills()
    ensures SkillsTellApart(FRONTEND)
  {
    SevenSkills(FRONTEND, "TypeScript", "React", "CSS", "Vite", "Testing Library", "GraphQL", "Figma");
  }

  lemma {:induction false} AnalystSkills()
    ensures SkillsTellApart(ANALYST)
  {
    SevenSkills(ANALYST, "SQL", "Python", "dbt", "Power BI", "Excel", "Looker", "Airflow");
  }

  lemma {:induction false} ProductSkills()
    ensures SkillsTellApart(PRODUCT)
  {
    SevenSkills(PRODUCT, "Roadmaps", "Analytics", "Jira", "SQL", "User research", "OKRs", "Figma");
  }

  lemma {:induction false} QualitySkills()
    ensures SkillsTellApart(QUALITY)
  {
    SevenSkills(QUALITY, "Testing", "Python", "Playwright", "Cypress", "Postman", "CI/CD", "Docker");
  }

  lemma {:induction false} DevopsSkills()
    ensures SkillsTellApart(DEVOPS)
  {
    SevenSkills(DEVOPS, "Kubernetes", "Terraform", "AWS", "Ansible", "Prometheus", "Linux", "Go");
  }

  lemma {:induction false} PeopleSkills()
    ensures SkillsTellApart(PEOPLE)
  {
    SevenSkills(PEOPLE, "Recruiting", "Payroll", "Onboarding", "Workday", "Labour law", "Compensation", "Excel");
  }

  lemma {:induction false} SecuritySkills()
    ensures SkillsTellApart(SECURITY)
  {
    SevenSkills(SECURITY, "Security", "Linux", "SIEM", "Pentesting", "Python", "AWS", "Incident response");
  }

  /** The table meets everything the generator asks of it. */
  lemma {:induction false} TableIsWellFormed()
    ensures WellFormed(POSITIONS)
  {
    hide SkillsTellApart, WithStatus;
    CodesDiffer();
    CodesAreKnown();
    BackendSkills();
    FrontendSkills();
    AnalystSkills();
    ProductSkills();
    QualitySkills();
    DevopsSkills();
    PeopleSkills();
    SecuritySkills();
    EveryStatus();
  }

  lemma {:induction false} CodesDiffer()
    ensures forall i, j :: 0 <= i < j < 8 ==> POSITIONS[i].code != POSITIONS[j].code
  {
    forall i, j | 0 <= i < j < 8
      ensures POSITIONS[i].code != POSITIONS[j].code
    {
      var a, b := POSITIONS[i].code, POSITIONS[j].code;
      assert |a| != |b| || a[0] != b[0];
    }
  }

  lemma {:induction false} CodesAreKnown()
    ensures forall i :: 0 <= i < 8 ==> POSITIONS[i].code != "" && POSITIONS[i].code !in UNKNOWN_CODES
  {
    forall i | 0 <= i < 8
      ensures POSITIONS[i].code != "" && POSITIONS[i].code !in UNKNOWN_CODES
    {
      var a := POSITIONS[i].code;
      assert a[0] != 'M' && a[0] != 'O' && (a[0] != 'B' || a[6] == '6');
      assert UNKNOWN_CODES[0][0] == 'B' && UNKNOWN_CODES[0][6] == '5';
      assert UNKNOWN_CODES[1][0] == 'M' && UNKNOWN_CODES[2][0] == 'O';
    }
  }

  lemma {:induction false} EveryStatus()
    ensures WithStatus(POSITIONS, OPEN) != []
    ensures WithStatus(POSITIONS, CLOSED) != []
    ensures WithStatus(POSITIONS, ON_HOLD) != []
  {
    StatusFound(POSITIONS, 0);
    StatusFound(POSITIONS, 4);
    StatusFound(POSITIONS, 5);
  }

  lemma {:induction false} StatusFound(positions: seq<Position>, i: nat)
    requires i < |positions|
    ensures WithStatus(positions, positions[i].status) != []
  {
    if i > 0 {
      StatusFound(positions[1..], i - 1);
    }
  }
}
