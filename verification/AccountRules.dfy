/**
 The four rules about who is paid and into which account: R02 (the issuer is in the master), R04
 (the master contradicts itself), R03 (the account is another one) and R17 (the account is the
 approved one, misread).
 */
module AccountRules {
  import opened Text
  import opened Invoices
  import opened EditDistance

  const NEAR_MISS := 4

  function Theirs(nif: string, suppliers: seq<SupplierRow>): (theirs: seq<SupplierRow>)
    ensures forall r :: r in theirs <==> r in suppliers && Key(r.nif) == nif
  {
    if suppliers == [] then []
    else (if Key(suppliers[0].nif) == nif then [suppliers[0]] else []) + Theirs(nif, suppliers[1..])
  }

  /** The one account the master approves, or None when the master cannot answer. */
  function ApprovedAccount(invoice: Invoice, suppliers: seq<SupplierRow>): Option<string> {
    var nif := Key(invoice.issuerNif);
    if nif == "" || Empty(invoice.iban) then None
    else
      var theirs := Theirs(nif, suppliers);
      if theirs == [] then None
      else
        var ids := set r | r in theirs :: TextOf(r.id);
        var accounts := set r | r in theirs :: Iban(r.iban);
        if |ids| > 1 || |accounts| > 1 then None
        else Some(Iban(theirs[0].iban))  // the only member of `accounts`
  }

  function R02(invoice: Invoice, suppliers: seq<SupplierRow>): Verdict {
    var nif := Key(invoice.issuerNif);
    FiresIf(nif != "" && forall r :: r in suppliers ==> Key(r.nif) != nif)
  }

  function R04(invoice: Invoice, suppliers: seq<SupplierRow>): Verdict {
    var nif := Key(invoice.issuerNif);
    if nif == "" then Passes
    else
      var different := set r | r in suppliers && Key(r.nif) == nif :: (TextOf(r.id), Iban(r.iban));
      FiresIf(|different| > 1)
  }

  function R03(invoice: Invoice, suppliers: seq<SupplierRow>): Verdict {
    var approved := ApprovedAccount(invoice, suppliers);
    FiresIf(approved.Some? && Lev(Iban(invoice.iban), approved.value) > NEAR_MISS)
  }

  function R17(invoice: Invoice, suppliers: seq<SupplierRow>): Verdict {
    var approved := ApprovedAccount(invoice, suppliers);
    FiresIf(approved.Some? && 0 < Lev(Iban(invoice.iban), approved.value) <= NEAR_MISS)
  }

  /** `evaluate` of R03, over the two-row loop. */
  method EvaluateR03(invoice: Invoice, suppliers: seq<SupplierRow>) returns (verdict: Verdict)
    ensures verdict == R03(invoice, suppliers)
  {
    var approved := ApprovedAccount(invoice, suppliers);
    if approved.None? {
      return Passes;
    }
    var theirs := Iban(invoice.iban);
    ZeroIffEqual(theirs, approved.value);
    if theirs == approved.value {
      return Passes;
    }
    var edits := Differences(theirs, approved.value);
    if edits <= NEAR_MISS {
      return Passes;
    }
    return Fires;
  }

  /** `evaluate` of R17, over the same loop with the complementary verdict. */
  method EvaluateR17(invoice: Invoice, suppliers: seq<SupplierRow>) returns (verdict: Verdict)
    ensures verdict == R17(invoice, suppliers)
  {
    var approved := ApprovedAccount(invoice, suppliers);
    if approved.None? {
      return Passes;
    }
    var theirs := Iban(invoice.iban);
    ZeroIffEqual(theirs, approved.value);
    if theirs == approved.value {
      return Passes;
    }
    var edits := Differences(theirs, approved.value);
    if edits > NEAR_MISS {
      return Passes;
    }
    return Fires;
  }

  lemma {:induction false} TwoMembers<T>(s: set<T>, x: T, y: T)
    requires x in s && y in s && x != y
    ensures |s| > 1
  {
    assert |s - {x}| == |s| - 1 && y in s - {x};
  }

  lemma {:induction false} Disagreement<T>(s: set<T>) returns (x: T, y: T)
    requires |s| > 1
    ensures x in s && y in s && x != y
  {
    x :| x in s;
    assert |s - {x}| > 0;
    y :| y in s - {x};
  }

  /** The pairs R04 looks at disagree exactly when the ids or the accounts of the rows do. */
  lemma {:induction false} PairsDisagree(nif: string, suppliers: seq<SupplierRow>)
    ensures var theirs := Theirs(nif, suppliers);
            var pairs := set r | r in suppliers && Key(r.nif) == nif :: (TextOf(r.id), Iban(r.iban));
            |pairs| > 1 <==> |set r | r in theirs :: TextOf(r.id)| > 1
                             || |set r | r in theirs :: Iban(r.iban)| > 1
  {
    var theirs := Theirs(nif, suppliers);
    var pairs := set r | r in suppliers && Key(r.nif) == nif :: (TextOf(r.id), Iban(r.iban));
    var ids := set r | r in theirs :: TextOf(r.id);
    var accounts := set r | r in theirs :: Iban(r.iban);
    if |pairs| > 1 {
      var x, y := Disagreement(pairs);
      assert x.0 in ids && y.0 in ids && x.1 in accounts && y.1 in accounts;
      if x.0 != y.0 {
        TwoMembers(ids, x.0, y.0);
      } else {
        TwoMembers(accounts, x.1, y.1);
      }
    }
    if |ids| > 1 {
      var x, y := Disagreement(ids);
      var r :| r in theirs && TextOf(r.id) == x;
      var s :| s in theirs && TextOf(s.id) == y;
      TwoMembers(pairs, (TextOf(r.id), Iban(r.iban)), (TextOf(s.id), Iban(s.iban)));
    }
    if |accounts| > 1 {
      var x, y := Disagreement(accounts);
      var r :| r in theirs && Iban(r.iban) == x;
      var s :| s in theirs && Iban(s.iban) == y;
      TwoMembers(pairs, (TextOf(r.id), Iban(r.iban)), (TextOf(s.id), Iban(s.iban)));
    }
  }

  /** The master cannot answer exactly when the invoice does not ask, or R02 or R04 fires. */
  lemma {:induction false} NoApprovedAccount(invoice: Invoice, suppliers: seq<SupplierRow>)
    ensures ApprovedAccount(invoice, suppliers).None? <==>
            || Key(invoice.issuerNif) == ""
            || Empty(invoice.iban)
            || R02(invoice, suppliers).Fires?
            || R04(invoice, suppliers).Fires?
  {
    var nif := Key(invoice.issuerNif);
    PairsDisagree(nif, suppliers);
    var theirs := Theirs(nif, suppliers);
    if theirs != [] {
      assert theirs[0] in suppliers;
    }
  }

  /** An account the master approves is the account of every row it has for that supplier. */
  lemma {:induction false} ApprovedByEveryRow(invoice: Invoice, suppliers: seq<SupplierRow>, row: SupplierRow)
    requires ApprovedAccount(invoice, suppliers).Some?
    requires row in suppliers && Key(row.nif) == Key(invoice.issuerNif)
    ensures Iban(row.iban) == ApprovedAccount(invoice, suppliers).value
  {
    var theirs := Theirs(Key(invoice.issuerNif), suppliers);
    var accounts := set r | r in theirs :: Iban(r.iban);
    if Iban(row.iban) != Iban(theirs[0].iban) {
      TwoMembers(accounts, Iban(row.iban), Iban(theirs[0].iban));
    }
  }

  /** R04 fires exactly when two rows of the supplier have different ids or different accounts. */
  lemma {:induction false} R04Iff(invoice: Invoice, suppliers: seq<SupplierRow>)
    ensures R04(invoice, suppliers).Fires? <==>
            Key(invoice.issuerNif) != "" &&
            exists r, s ::
              && r in suppliers && Key(r.nif) == Key(invoice.issuerNif)
              && s in suppliers && Key(s.nif) == Key(invoice.issuerNif)
              && (TextOf(r.id) != TextOf(s.id) || Iban(r.iban) != Iban(s.iban))
  {
    var nif := Key(invoice.issuerNif);
    var pairs := set r | r in suppliers && Key(r.nif) == nif :: (TextOf(r.id), Iban(r.iban));
    if |pairs| > 1 {
      var x, y := Disagreement(pairs);
      var r :| r in suppliers && Key(r.nif) == nif && (TextOf(r.id), Iban(r.iban)) == x;
      var s :| s in suppliers && Key(s.nif) == nif && (TextOf(s.id), Iban(s.iban)) == y;
      assert TextOf(r.id) != TextOf(s.id) || Iban(r.iban) != Iban(s.iban);
    }
    if r, s :| r in suppliers && Key(r.nif) == nif && s in suppliers && Key(s.nif) == nif
               && (TextOf(r.id) != TextOf(s.id) || Iban(r.iban) != Iban(s.iban)) {
      TwoMembers(pairs, (TextOf(r.id), Iban(r.iban)), (TextOf(s.id), Iban(s.iban)));
    }
  }

  /** Where the master approves an account, R03 and R17 both pass exactly when the printed account
      and the master's differ in spaces and in the case of letters only. */
  lemma {:induction false} BothPassIffSameAccount(invoice: Invoice, suppliers: seq<SupplierRow>, row: SupplierRow)
    requires ApprovedAccount(invoice, suppliers).Some?
    requires row in suppliers && Key(row.nif) == Key(invoice.issuerNif)
    requires invoice.iban.Some? && row.iban.Some?
    ensures R03(invoice, suppliers) == R17(invoice, suppliers) == Passes <==>
            SameButSpacing(invoice.iban.value, row.iban.value)
  {
    ApprovedByEveryRow(invoice, suppliers, row);
    ThreeDistances(invoice, suppliers);
    SameIbanIff(invoice.iban.value, row.iban.value);
  }

  // ----- the five-way partition

  /** R02 fires, R04 fires, the account is the approved one, R17 fires, R03 fires. */
  function Cases(invoice: Invoice, suppliers: seq<SupplierRow>): seq<bool> {
    [R02(invoice, suppliers).Fires?,
     R04(invoice, suppliers).Fires?,
     ApprovedAccount(invoice, suppliers) == Some(Iban(invoice.iban)),
     R17(invoice, suppliers).Fires?,
     R03(invoice, suppliers).Fires?]
  }

  ghost predicate ExactlyOne(cases: seq<bool>) {
    exists k :: 0 <= k < |cases| && cases[k] && forall j :: 0 <= j < |cases| && j != k ==> !cases[j]
  }

  lemma {:induction false} NoRowsNoPairs(invoice: Invoice, suppliers: seq<SupplierRow>)
    requires R02(invoice, suppliers).Fires?
    ensures !R04(invoice, suppliers).Fires?
  {
    var pairs := set r | r in suppliers && Key(r.nif) == Key(invoice.issuerNif)
                 :: (TextOf(r.id), Iban(r.iban));
    assert pairs == {};
  }

  /** Once the master answers, the distance alone separates the last three cases. */
  lemma {:induction false} ThreeDistances(invoice: Invoice, suppliers: seq<SupplierRow>)
    requires ApprovedAccount(invoice, suppliers).Some?
    ensures var edits := Lev(Iban(invoice.iban), ApprovedAccount(invoice, suppliers).value);
            && (ApprovedAccount(invoice, suppliers) == Some(Iban(invoice.iban)) <==> edits == 0)
            && (R17(invoice, suppliers).Fires? <==> 0 < edits <= NEAR_MISS)
            && (R03(invoice, suppliers).Fires? <==> edits > NEAR_MISS)
  {
    ZeroIffEqual(Iban(invoice.iban), ApprovedAccount(invoice, suppliers).value);
  }

  lemma {:induction false} CountCases(r02: bool, r04: bool, same: bool, r17: bool, r03: bool)
    requires !(r02 && r04)
    requires r02 || r04 ==> !same && !r17 && !r03
    requires !(same && r17) && !(same && r03) && !(r17 && r03)
    ensures ExactlyOne([r02, r04, same, r17, r03]) <==> r02 || r04 || same || r17 || r03
  {
    var cases := [r02, r04, same, r17, r03];
    if r02 || r04 || same || r17 || r03 {
      var k := if r02 then 0 else if r04 then 1 else if same then 2 else if r17 then 3 else 4;
      assert cases[k] && forall j :: 0 <= j < |cases| && j != k ==> !cases[j];
    }
  }

  /** The five cases never overlap, and one of them holds exactly when the invoice names an issuer
      and either names an account or already stops at R02 or R04. */
  lemma {:induction false} FiveWayPartition(invoice: Invoice, suppliers: seq<SupplierRow>)
    ensures ExactlyOne(Cases(invoice, suppliers)) <==>
            && Key(invoice.issuerNif) != ""
            && (!Empty(invoice.iban)
                || R02(invoice, suppliers).Fires? || R04(invoice, suppliers).Fires?)
  {
    var r02, r04 := R02(invoice, suppliers).Fires?, R04(invoice, suppliers).Fires?;
    var same := ApprovedAccount(invoice, suppliers) == Some(Iban(invoice.iban));
    var r17, r03 := R17(invoice, suppliers).Fires?, R03(invoice, suppliers).Fires?;
    assert Cases(invoice, suppliers) == [r02, r04, same, r17, r03];
    NoApprovedAccount(invoice, suppliers);
    if r02 {
      NoRowsNoPairs(invoice, suppliers);
    }
    if ApprovedAccount(invoice, suppliers).Some? {
      ThreeDistances(invoice, suppliers);
    }
    CountCases(r02, r04, same, r17, r03);
  }

  // ----- a misreading is never refused

  /** R03 refuses exactly the accounts that no four edits turn into the approved one. */
  lemma {:induction false} RefusedIffFarFromApproved(invoice: Invoice, suppliers: seq<SupplierRow>)
    ensures R03(invoice, suppliers).Fires? <==>
            && ApprovedAccount(invoice, suppliers).Some?
            && forall s :: Turns(s, Iban(invoice.iban), ApprovedAccount(invoice, suppliers).value)
                           ==> |s| > 4
  {
    var approved := ApprovedAccount(invoice, suppliers);
    if approved.Some? {
      DistanceIsLeastScript(Iban(invoice.iban), approved.value,
                            Lev(Iban(invoice.iban), approved.value));
    }
  }

  /** Whatever at most four edits make of the approved account, R03 lets it pass; R17 asks for a
      second reading unless the edits undid each other. */
  lemma {:induction false} MisreadingIsReadAgain(invoice: Invoice, suppliers: seq<SupplierRow>, script: seq<Edit>)
    requires ApprovedAccount(invoice, suppliers).Some?
    requires Turns(script, ApprovedAccount(invoice, suppliers).value, Iban(invoice.iban))
    requires |script| <= 4
    ensures R03(invoice, suppliers) == Passes
    ensures R17(invoice, suppliers).Fires? <==>
            Iban(invoice.iban) != ApprovedAccount(invoice, suppliers).value
  {
    var approved := ApprovedAccount(invoice, suppliers).value;
    NoShorterScript(script, approved, Iban(invoice.iban));
    Symmetric(approved, Iban(invoice.iban));
    ZeroIffEqual(Iban(invoice.iban), approved);
  }
}
