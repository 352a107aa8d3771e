/**
 The rules about the order an invoice charges: R01 (the symbols are there), R05 (the order exists),
 R07 (the amount ordered), R08 and R10 (the invoice's own arithmetic), R13, R14 and R15 (the
 accounting entry) and R16 (nobody else charges it).
 */
module OrderRules {
  import opened Text
  import opened Invoices
  import opened Amounts

  /** The last position of `k`, the one a loop that keeps overwriting ends on; -1 without one. */
  function LastIndex(keys: seq<string>, k: string): (i: int)
    ensures -1 <= i < |keys|
    ensures i >= 0 ==> keys[i] == k
    ensures forall j :: i < j < |keys| ==> keys[j] != k
  {
    if keys == [] then -1
    else if keys[|keys| - 1] == k then |keys| - 1
    else LastIndex(keys[..|keys| - 1], k)
  }

  function OrderKeys(rows: seq<OrderRow>): (keys: seq<string>)
    ensures |keys| == |rows|
  {
    seq(|rows|, i requires 0 <= i < |rows| => Key(rows[i].purchaseOrder))
  }

  function ErpKeys(rows: seq<ErpRow>): (keys: seq<string>)
    ensures |keys| == |rows|
  {
    seq(|rows|, i requires 0 <= i < |rows| => Key(rows[i].purchaseOrder))
  }

  function LastOrder(rows: seq<OrderRow>, order: string): Option<OrderRow> {
    var i := LastIndex(OrderKeys(rows), order);
    if i < 0 then None else Some(rows[i])
  }

  function LastEntry(rows: seq<ErpRow>, order: string): Option<ErpRow> {
    var i := LastIndex(ErpKeys(rows), order);
    if i < 0 then None else Some(rows[i])
  }

  lemma {:induction false} LastOrderStep(rows: seq<OrderRow>, i: nat, order: string)
    requires i < |rows|
    ensures LastOrder(rows[..i + 1], order)
         == if Key(rows[i].purchaseOrder) == order then Some(rows[i]) else LastOrder(rows[..i], order)
  {
    assert OrderKeys(rows[..i + 1])[..i] == OrderKeys(rows[..i]);
  }

  lemma {:induction false} LastEntryStep(rows: seq<ErpRow>, i: nat, order: string)
    requires i < |rows|
    ensures LastEntry(rows[..i + 1], order)
         == if Key(rows[i].purchaseOrder) == order then Some(rows[i]) else LastEntry(rows[..i], order)
  {
    assert ErpKeys(rows[..i + 1])[..i] == ErpKeys(rows[..i]);
  }

  lemma {:induction false} EntryKnown(rows: seq<ErpRow>, i: nat, order: string)
    requires i < |rows| && Key(rows[i].purchaseOrder) == order
    ensures LastEntry(rows, order).Some?
  {
    assert ErpKeys(rows)[i] == order;
  }

  // ----- the verdicts

  function R01(invoice: Invoice): Verdict {
    FiresIf(
      || Empty(invoice.issuerNif) || Empty(invoice.iban)
      || Empty(invoice.purchaseOrder) || Empty(invoice.date)
      || invoice.base.Blank? || invoice.vatRate.Blank?
      || invoice.vatAmount.Blank? || invoice.total.Blank?)
  }

  function R05(invoice: Invoice, sources: Sources): Verdict {
    var order := Key(invoice.purchaseOrder);
    FiresIf(order != "" && forall r :: r in sources.orders ==> Key(r.purchaseOrder) != order)
  }

  /** The comparison of two amounts that are not blank. */
  function Compare(one: Amount, other: Amount): Verdict
    requires !one.Blank? && !other.Blank?
  {
    if one.Garbled? || other.Garbled? then Raises else FiresIf(!Matches(one.value, other.value))
  }

  function R07(invoice: Invoice, sources: Sources): Verdict {
    var order := Key(invoice.purchaseOrder);
    if order == "" || invoice.total.Blank? then Passes
    else
      var its := LastOrder(sources.orders, order);
      if its.None? || its.value.totalAmount.Blank? then Passes
      else Compare(invoice.total, its.value.totalAmount)
  }

  function R08(invoice: Invoice): Verdict {
    if invoice.base.Blank? || invoice.vatRate.Blank? || invoice.vatAmount.Blank? then Passes
    else if invoice.base.Garbled? || invoice.vatRate.Garbled? then Raises
    else
      Compare(invoice.vatAmount, Number(ToCents(VatDue(invoice.base.value, invoice.vatRate.value))))
  }

  function R10(invoice: Invoice): Verdict {
    if invoice.base.Blank? || invoice.vatAmount.Blank? || invoice.total.Blank? then Passes
    else if invoice.base.Garbled? || invoice.vatAmount.Garbled? then Raises
    else Compare(invoice.total, Number(invoice.base.value + invoice.vatAmount.value))
  }

  function R13(invoice: Invoice, sources: Sources): Verdict {
    var order := Key(invoice.purchaseOrder);
    FiresIf(
      && order != ""
      && LastOrder(sources.orders, order).Some?
      && LastEntry(sources.erp, order).None?)
  }

  predicate AmountsDiffer(its: OrderRow, entry: ErpRow) {
    && !its.totalAmount.Blank? && !entry.amount.Blank?
    && Compare(entry.amount, its.totalAmount).Fires?
  }

  predicate NifsDiffer(its: OrderRow, entry: ErpRow) {
    !Empty(its.nif) && !Empty(entry.nif) && Key(entry.nif) != Key(its.nif)
  }

  datatype Column = AMOUNT | SUPPLIER_ID | NIF

  /** What the workbook and the ERP disagree about, in the order the rule lists it. */
  function Differences(its: OrderRow, entry: ErpRow): seq<Column> {
    (if AmountsDiffer(its, entry) then [AMOUNT] else [])
    + (if TextOf(entry.supplierId) != TextOf(its.supplierId) then [SUPPLIER_ID] else [])
    + (if NifsDiffer(its, entry) then [NIF] else [])
  }

  function R14(invoice: Invoice, sources: Sources): Verdict {
    var order := Key(invoice.purchaseOrder);
    var its := LastOrder(sources.orders, order);
    var entry := LastEntry(sources.erp, order);
    if order == "" || its.None? || entry.None? then Passes
    else if !its.value.totalAmount.Blank? && !entry.value.amount.Blank?
            && Compare(entry.value.amount, its.value.totalAmount).Raises? then Raises
    else FiresIf(Differences(its.value, entry.value) != [])
  }

  /** The rule only asks for PENDIENTE when the entry states a status at all. */
  predicate MayBePaid(entry: ErpRow) {
    Empty(entry.status) || Upper(TextOf(entry.status)) == "PENDIENTE"
  }

  function R15(invoice: Invoice, sources: Sources): Verdict {
    var order := Key(invoice.purchaseOrder);
    var entry := LastEntry(sources.erp, order);
    FiresIf(order != "" && entry.Some? && !MayBePaid(entry.value))
  }

  function R16(invoice: Invoice, others: seq<Invoice>): Verdict {
    var order := Key(invoice.purchaseOrder);
    FiresIf(order != "" && exists o :: o in others && Key(o.purchaseOrder) == order)
  }

  // ----- `evaluate` of the rules that loop, as they loop

  /** The loop of R07 and R14 over the orders: the last matching row overwrites the others. */
  method FindOrder(rows: seq<OrderRow>, order: string) returns (its: Option<OrderRow>)
    ensures its == LastOrder(rows, order)
  {
    its := None;
    for i := 0 to |rows|
      invariant its == LastOrder(rows[..i], order)
    {
      LastOrderStep(rows, i, order);
      if Key(rows[i].purchaseOrder) == order {
        its := Some(rows[i]);
      }
    }
    assert rows[..|rows|] == rows;
  }

  /** The loop of R14 and R15 over the ERP. */
  method FindEntry(rows: seq<ErpRow>, order: string) returns (entry: Option<ErpRow>)
    ensures entry == LastEntry(rows, order)
  {
    entry := None;
    for i := 0 to |rows|
      invariant entry == LastEntry(rows[..i], order)
    {
      LastEntryStep(rows, i, order);
      if Key(rows[i].purchaseOrder) == order {
        entry := Some(rows[i]);
      }
    }
    assert rows[..|rows|] == rows;
  }

  method EvaluateR07(invoice: Invoice, sources: Sources) returns (verdict: Verdict)
    ensures verdict == R07(invoice, sources)
  {
    var order := Key(invoice.purchaseOrder);
    if order == "" || invoice.total.Blank? {
      return Passes;
    }
    var its := FindOrder(sources.orders, order);
    if its.None? || its.value.totalAmount.Blank? {
      return Passes;
    }
    return Compare(invoice.total, its.value.totalAmount);
  }

  method EvaluateR13(invoice: Invoice, sources: Sources) returns (verdict: Verdict)
    ensures verdict == R13(invoice, sources)
  {
    var order := Key(invoice.purchaseOrder);
    if order == "" {
      return Passes;
    }
    var known := false;
    for i := 0 to |sources.orders|
      invariant known == LastOrder(sources.orders[..i], order).Some?
    {
      LastOrderStep(sources.orders, i, order);
      if Key(sources.orders[i].purchaseOrder) == order {
        known := true;
      }
    }
    assert sources.orders[..|sources.orders|] == sources.orders;
    if !known {
      return Passes;
    }
    for i := 0 to |sources.erp|
      invariant LastEntry(sources.erp[..i], order).None?
    {
      LastEntryStep(sources.erp, i, order);
      if Key(sources.erp[i].purchaseOrder) == order {
        EntryKnown(sources.erp, i, order);
        return Passes;
      }
    }
    assert sources.erp[..|sources.erp|] == sources.erp;
    return Fires;
  }

  method EvaluateR14(invoice: Invoice, sources: Sources) returns (verdict: Verdict, differ: seq<Column>)
    ensures verdict == R14(invoice, sources)
    ensures verdict.Fires? ==>
              var order := Key(invoice.purchaseOrder);
              differ == Differences(LastOrder(sources.orders, order).value,
                                    LastEntry(sources.erp, order).value)
  {
    var order := Key(invoice.purchaseOrder);
    if order == "" {
      return Passes, [];
    }
    var its := FindOrder(sources.orders, order);
    var entry := FindEntry(sources.erp, order);
    if its.None? || entry.None? {
      return Passes, [];
    }
    verdict, differ := Disagree(its.value, entry.value);
  }

  /** The list of differences R14 appends to, and the verdict it returns on it. */
  method Disagree(its: OrderRow, entry: ErpRow) returns (verdict: Verdict, differ: seq<Column>)
    ensures verdict.Raises? <==> !its.totalAmount.Blank? && !entry.amount.Blank?
                                 && Compare(entry.amount, its.totalAmount).Raises?
    ensures !verdict.Raises? ==> differ == Differences(its, entry) && verdict == FiresIf(differ != [])
  {
    differ := [];
    if !its.totalAmount.Blank? && !entry.amount.Blank? {
      var amounts := Compare(entry.amount, its.totalAmount);
      match amounts {
        case Raises => return Raises, differ;
        case Fires => differ := [AMOUNT];
        case Passes =>
      }
    }
    assert differ == if AmountsDiffer(its, entry) then [AMOUNT] else [];
    ghost var first := differ;
    if TextOf(entry.supplierId) != TextOf(its.supplierId) {
      differ := differ + [SUPPLIER_ID];
    }
    ghost var second := differ;
    assert second == first
                     + if TextOf(entry.supplierId) != TextOf(its.supplierId) then [SUPPLIER_ID] else [];
    if !Empty(its.nif) && !Empty(entry.nif) {
      if Key(entry.nif) != Key(its.nif) {
        differ := differ + [NIF];
      }
    }
    assert differ == second + if NifsDiffer(its, entry) then [NIF] else [];
    return FiresIf(differ != []), differ;
  }

  method EvaluateR15(invoice: Invoice, sources: Sources) returns (verdict: Verdict)
    ensures verdict == R15(invoice, sources)
  {
    var order := Key(invoice.purchaseOrder);
    if order == "" {
      return Passes;
    }
    var entry := FindEntry(sources.erp, order);
    if entry.None? || Empty(entry.value.status) {
      return Passes;
    }
    var status := Upper(TextOf(entry.value.status));
    return FiresIf(status != "PENDIENTE");
  }

  /** A comparison that passes is between two numbers, within a cent. */
  lemma {:induction false} ComparePasses(one: Amount, other: Amount)
    requires !one.Blank? && !other.Blank? && Compare(one, other) == Passes
    ensures one.Number? && other.Number? && Matches(one.value, other.value)
    ensures Cents(one.value) <= Cents(other.value) + 1
  {
  }

  // ----- what the verdicts mean, in characters and figures

  /** A status that reads PENDIENTE, in whatever case. */
  predicate ReadsPending(status: string) {
    && |status| == 9
    && forall i :: 0 <= i < 9 ==> status[i] == "PENDIENTE"[i] || status[i] == "pendiente"[i]
  }

  lemma {:induction false} UpperIsPending(status: string)
    ensures Upper(status) == "PENDIENTE" <==> ReadsPending(status)
  {
    if |status| == 9 {
      forall i | 0 <= i < 9
        ensures Upper(status)[i] == "PENDIENTE"[i] <==>
                status[i] == "PENDIENTE"[i] || status[i] == "pendiente"[i]
      {
        UpperAt(status, i);
        CapitalOfPending(status[i], i);
      }
    }
  }

  lemma {:induction false} CapitalOfPending(c: char, i: nat)
    requires i < 9
    ensures UpperChar(c) == "PENDIENTE"[i] <==> c == "PENDIENTE"[i] || c == "pendiente"[i]
  {
  }

  /** The last row of the ERP with this order, if there is one. */
  ghost predicate IsLastEntry(erp: seq<ErpRow>, order: string, k: int) {
    && 0 <= k < |erp| && Key(erp[k].purchaseOrder) == order
    && forall j :: k < j < |erp| ==> Key(erp[j].purchaseOrder) != order
  }

  /** The last entry of the order states no status, or PENDIENTE. */
  ghost predicate AwaitsPayment(erp: seq<ErpRow>, order: string) {
    exists k :: IsLastEntry(erp, order, k)
                && (TextOf(erp[k].status) == "" || ReadsPending(TextOf(erp[k].status)))
  }

  lemma {:induction false} LastEntryIs(erp: seq<ErpRow>, order: string)
    ensures LastEntry(erp, order).Some? <==> exists k :: IsLastEntry(erp, order, k)
    ensures forall k :: IsLastEntry(erp, order, k) ==> LastEntry(erp, order) == Some(erp[k])
  {
    var keys, i := ErpKeys(erp), LastIndex(ErpKeys(erp), order);
    assert forall j :: 0 <= j < |erp| ==> keys[j] == Key(erp[j].purchaseOrder);
    if i >= 0 {
      assert IsLastEntry(erp, order, i);
    }
    forall k | IsLastEntry(erp, order, k)
      ensures k == i
    {
      assert keys[k] == order;
    }
  }

  lemma {:induction false} PayableEntryAwaits(erp: seq<ErpRow>, order: string)
    ensures LastEntry(erp, order).Some? && MayBePaid(LastEntry(erp, order).value) <==>
            AwaitsPayment(erp, order)
  {
    hide LastEntry;
    LastEntryIs(erp, order);
    if LastEntry(erp, order).Some? {
      UpperIsPending(TextOf(LastEntry(erp, order).value.status));
    }
  }

  /** R15 passes exactly when the invoice names no order, accounting has no entry for it, or the last
      entry is blank or reads PENDIENTE; otherwise it fires. */
  lemma {:induction false} R15Iff(invoice: Invoice, sources: Sources)
    ensures var order := Key(invoice.purchaseOrder);
            R15(invoice, sources)
            == FiresIf(order != "" && (exists k :: IsLastEntry(sources.erp, order, k))
                       && !AwaitsPayment(sources.erp, order))
  {
    LastEntryIs(sources.erp, Key(invoice.purchaseOrder));
    PayableEntryAwaits(sources.erp, Key(invoice.purchaseOrder));
  }

  /** The columns R14 lists: amounts more than a cent apart, suppliers with different ids, and NIFs
      that are stated on both sides with different keys; in this order, each once. */
  lemma {:induction false} DifferencesAre(its: OrderRow, entry: ErpRow)
    ensures var differ := Differences(its, entry);
            && (AMOUNT in differ <==>
                  its.totalAmount.Number? && entry.amount.Number?
                  && Abs(Cents(entry.amount.value) - Cents(its.totalAmount.value)) > 1)
            && (SUPPLIER_ID in differ <==> TextOf(entry.supplierId) != TextOf(its.supplierId))
            && (NIF in differ <==>
                  TextOf(its.nif) != "" && TextOf(entry.nif) != "" && Key(entry.nif) != Key(its.nif))
            && (forall a, b :: 0 <= a < b < |differ| ==> Place(differ[a]) < Place(differ[b]))
  {
  }

  function Place(column: Column): nat {
    match column
    case AMOUNT => 0 case SUPPLIER_ID => 1 case NIF => 2
  }

  /** The last row of the orders with this order, if there is one. */
  ghost predicate IsLastOrder(rows: seq<OrderRow>, order: string, k: int) {
    && 0 <= k < |rows| && Key(rows[k].purchaseOrder) == order
    && forall j :: k < j < |rows| ==> Key(rows[j].purchaseOrder) != order
  }

  lemma {:induction false} LastOrderIs(rows: seq<OrderRow>, order: string)
    ensures LastOrder(rows, order).Some? <==> exists r :: r in rows && Key(r.purchaseOrder) == order
    ensures forall k :: IsLastOrder(rows, order, k) ==> LastOrder(rows, order) == Some(rows[k])
    ensures LastOrder(rows, order).Some? ==> exists k :: IsLastOrder(rows, order, k)
  {
    var keys, i := OrderKeys(rows), LastIndex(OrderKeys(rows), order);
    assert forall j :: 0 <= j < |rows| ==> keys[j] == Key(rows[j].purchaseOrder);
    if i >= 0 {
      assert IsLastOrder(rows, order, i) && rows[i] in rows;
    }
    forall k | IsLastOrder(rows, order, k)
      ensures k == i
    {
      assert keys[k] == order;
    }
    if r :| r in rows && Key(r.purchaseOrder) == order {
      var k :| 0 <= k < |rows| && rows[k] == r;
      assert keys[k] == order;
    }
  }

  lemma {:induction false} LastEntryExists(erp: seq<ErpRow>, order: string)
    ensures LastEntry(erp, order).Some? <==> exists e :: e in erp && Key(e.purchaseOrder) == order
  {
    var keys, i := ErpKeys(erp), LastIndex(ErpKeys(erp), order);
    assert forall j :: 0 <= j < |erp| ==> keys[j] == Key(erp[j].purchaseOrder);
    if i >= 0 {
      assert erp[i] in erp;
    }
    if e :| e in erp && Key(e.purchaseOrder) == order {
      var k :| 0 <= k < |erp| && erp[k] == e;
      assert keys[k] == order;
    }
  }

  /** Two amounts that are stated: a garbled one raises, and two numbers are told apart when their cents
      are more than one apart. */
  function Compared(one: Amount, other: Amount): Verdict {
    if one.Garbled? || other.Garbled? then Raises
    else if one.Number? && other.Number? && Abs(Cents(one.value) - Cents(other.value)) > 1 then Fires
    else Passes
  }

  /** R05 fires exactly on an order that no row of the orders has. */
  lemma {:induction false} R05Iff(invoice: Invoice, sources: Sources)
    ensures var order := Key(invoice.purchaseOrder);
            R05(invoice, sources)
            == FiresIf(order != "" && !exists r :: r in sources.orders && Key(r.purchaseOrder) == order)
  {
  }

  /** R07 compares the total with what the last row of the order states, where both state anything. */
  lemma {:induction false} R07Iff(invoice: Invoice, sources: Sources)
    ensures var order := Key(invoice.purchaseOrder);
            && (order == "" || invoice.total.Blank? ==> R07(invoice, sources) == Passes)
            && ((forall r :: r in sources.orders ==> Key(r.purchaseOrder) != order) ==>
                  R07(invoice, sources) == Passes)
            && (forall k :: IsLastOrder(sources.orders, order, k) && order != "" && !invoice.total.Blank? ==>
                  R07(invoice, sources)
                  == if sources.orders[k].totalAmount.Blank? then Passes
                     else Compared(invoice.total, sources.orders[k].totalAmount))
  {
    hide LastOrder;
    LastOrderIs(sources.orders, Key(invoice.purchaseOrder));
  }

  /** R08 compares the printed VAT with base times rate, rounded half up to cents, where all three are
      stated. */
  lemma {:induction false} R08Iff(invoice: Invoice)
    ensures invoice.base.Blank? || invoice.vatRate.Blank? || invoice.vatAmount.Blank? ==>
              R08(invoice) == Passes
    ensures !invoice.base.Blank? && !invoice.vatRate.Blank? && !invoice.vatAmount.Blank? ==>
              R08(invoice)
              == if invoice.base.Garbled? || invoice.vatRate.Garbled? || invoice.vatAmount.Garbled?
                 then Raises
                 else FiresIf(Abs(Cents(invoice.vatAmount.value)
                                  - HalfUp(invoice.base.value * invoice.vatRate.value)) > 1)
  {
    if invoice.base.Number? && invoice.vatRate.Number? {
      ToCentsKeepsCents(VatDue(invoice.base.value, invoice.vatRate.value));
      assert VatDue(invoice.base.value, invoice.vatRate.value) * 100.0
          == invoice.base.value * invoice.vatRate.value;
    }
  }

  /** R10 compares the total with base plus VAT, where all three are stated. */
  lemma {:induction false} R10Iff(invoice: Invoice)
    ensures invoice.base.Blank? || invoice.vatAmount.Blank? || invoice.total.Blank? ==>
              R10(invoice) == Passes
    ensures !invoice.base.Blank? && !invoice.vatAmount.Blank? && !invoice.total.Blank? ==>
              R10(invoice)
              == if invoice.base.Garbled? || invoice.vatAmount.Garbled? || invoice.total.Garbled?
                 then Raises
                 else FiresIf(Abs(Cents(invoice.total.value)
                                  - Cents(invoice.base.value + invoice.vatAmount.value)) > 1)
  {
  }

  /** R13 fires exactly on an order that some row of the orders has and no row of the ERP. */
  lemma {:induction false} R13Iff(invoice: Invoice, sources: Sources)
    ensures var order := Key(invoice.purchaseOrder);
            R13(invoice, sources)
            == FiresIf(&& order != ""
                       && (exists r :: r in sources.orders && Key(r.purchaseOrder) == order)
                       && !exists e :: e in sources.erp && Key(e.purchaseOrder) == order)
  {
    hide LastOrder, LastEntry;
    LastOrderIs(sources.orders, Key(invoice.purchaseOrder));
    LastEntryExists(sources.erp, Key(invoice.purchaseOrder));
  }

  predicate CannotCompare(its: OrderRow, entry: ErpRow) {
    && its.totalAmount != Blank && entry.amount != Blank
    && (its.totalAmount.Garbled? || entry.amount.Garbled?)
  }

  /** R14 asks nothing without an order, a row of the orders for it and a row of the ERP; of the last
      ones it raises on a garbled amount where both state one, and fires exactly when a column differs. */
  lemma {:induction false} R14Iff(invoice: Invoice, sources: Sources)
    ensures var order := Key(invoice.purchaseOrder);
            && (order == "" || (forall r :: r in sources.orders ==> Key(r.purchaseOrder) != order)
                || (forall e :: e in sources.erp ==> Key(e.purchaseOrder) != order) ==>
                  R14(invoice, sources) == Passes)
            && (forall k, j | IsLastOrder(sources.orders, order, k) && IsLastEntry(sources.erp, order, j) ::
                  order != "" ==>
                    R14(invoice, sources)
                    == if CannotCompare(sources.orders[k], sources.erp[j]) then Raises
                       else FiresIf(Differences(sources.orders[k], sources.erp[j]) != []))
  {
    hide LastOrder, LastEntry, Differences;
    var order := Key(invoice.purchaseOrder);
    LastOrderIs(sources.orders, order);
    LastEntryIs(sources.erp, order);
    LastEntryExists(sources.erp, order);
  }

  /** R16 fires exactly when another invoice has the same order. */
  lemma {:induction false} R16Iff(invoice: Invoice, others: seq<Invoice>)
    ensures R16(invoice, others)
         == FiresIf(Key(invoice.purchaseOrder) != ""
                    && exists i :: 0 <= i < |others|
                         && Key(others[i].purchaseOrder) == Key(invoice.purchaseOrder))
  {
  }

  /** R01 passes exactly when each of the eight symbols is there. */
  lemma {:induction false} R01Iff(invoice: Invoice)
    ensures R01(invoice) == FiresIf(
              || TextOf(invoice.issuerNif) == "" || TextOf(invoice.iban) == ""
              || TextOf(invoice.purchaseOrder) == "" || TextOf(invoice.date) == ""
              || invoice.base == Blank || invoice.vatRate == Blank
              || invoice.vatAmount == Blank || invoice.total == Blank)
  {
  }

  // ----- the tolerance chain, as the rules apply it

  /** When R07, R08, R10 and R14 all pass and every amount they read is stated, what accounting
      expects is strictly within six cents of the invoice's base plus its VAT. */
  lemma {:induction false} PassingAmountsAgree(invoice: Invoice, sources: Sources)
    requires R07(invoice, sources) == R14(invoice, sources) == Passes
    requires R08(invoice) == R10(invoice) == Passes
    requires Key(invoice.purchaseOrder) != ""
    requires !invoice.base.Blank? && !invoice.vatRate.Blank?
    requires !invoice.vatAmount.Blank? && !invoice.total.Blank?
    requires var its := LastOrder(sources.orders, Key(invoice.purchaseOrder));
             its.Some? && !its.value.totalAmount.Blank?
    requires var entry := LastEntry(sources.erp, Key(invoice.purchaseOrder));
             entry.Some? && !entry.value.amount.Blank?
    ensures var entry := LastEntry(sources.erp, Key(invoice.purchaseOrder)).value;
            && entry.amount.Number? && invoice.base.Number? && invoice.vatRate.Number?
            && AbsReal(entry.amount.value
                       - (invoice.base.value + VatDue(invoice.base.value, invoice.vatRate.value)))
               < 0.06
  {
    var its := LastOrder(sources.orders, Key(invoice.purchaseOrder)).value;
    var entry := LastEntry(sources.erp, Key(invoice.purchaseOrder)).value;
    ComparePasses(invoice.total, its.totalAmount);
    AmountsCompared(its, entry);
    OwnArithmetic(invoice);
    ToleranceChain(invoice.base.value, invoice.vatRate.value, invoice.vatAmount.value,
                   invoice.total.value, its.totalAmount.value, entry.amount.value);
  }

  /** What R08 and R10 compared when they pass with everything stated. */
  lemma {:induction false} OwnArithmetic(invoice: Invoice)
    requires R08(invoice) == R10(invoice) == Passes
    requires !invoice.base.Blank? && !invoice.vatRate.Blank?
    requires !invoice.vatAmount.Blank? && !invoice.total.Blank?
    ensures invoice.base.Number? && invoice.vatRate.Number?
    ensures invoice.vatAmount.Number? && invoice.total.Number?
    ensures Matches(invoice.vatAmount.value,
                    ToCents(VatDue(invoice.base.value, invoice.vatRate.value)))
    ensures Matches(invoice.total.value, invoice.base.value + invoice.vatAmount.value)
  {
    ComparePasses(invoice.vatAmount,
                  Number(ToCents(VatDue(invoice.base.value, invoice.vatRate.value))));
    ComparePasses(invoice.total, Number(invoice.base.value + invoice.vatAmount.value));
  }

  lemma {:induction false} AmountsCompared(its: OrderRow, entry: ErpRow)
    requires !its.totalAmount.Blank? && !entry.amount.Blank?
    requires !Compare(entry.amount, its.totalAmount).Raises? && Differences(its, entry) == []
    ensures entry.amount.Number? && its.totalAmount.Number?
    ensures Matches(entry.amount.value, its.totalAmount.value)
  {
    assert !Compare(entry.amount, its.totalAmount).Fires?;
    ComparePasses(entry.amount, its.totalAmount);
  }
}
