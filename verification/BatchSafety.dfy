/**
 What the order rules are for, over a whole batch: no order is paid twice, nothing is paid that
 accounting does not hold as pending, and not more is paid than was ordered, but for the cent of
 tolerance each invoice has.
 */
module BatchSafety {
  import opened Text
  import opened Invoices
  import opened Amounts
  import opened OrderRules

  /** The rest of the batch, which is what a rule receives as `others`. */
  function Others<T>(batch: seq<T>, i: nat): seq<T>
    requires i < |batch|
  {
    batch[..i] + batch[i + 1..]
  }

  /** None of the order rules fires on the invoice, and none raises. */
  predicate Clean(invoice: Invoice, others: seq<Invoice>, sources: Sources) {
    && R01(invoice) == Passes
    && R05(invoice, sources) == Passes
    && R07(invoice, sources) == Passes
    && R13(invoice, sources) == Passes
    && R15(invoice, sources) == Passes
    && R16(invoice, others) == Passes
  }

  /** A clean invoice whose order reference is more than separators. */
  predicate Payable(batch: seq<Invoice>, i: nat, sources: Sources)
    requires i < |batch|
  {
    Key(batch[i].purchaseOrder) != "" && Clean(batch[i], Others(batch, i), sources)
  }

  /** A payable invoice's order is nobody else's, payable or not. */
  lemma {:induction false} NobodyElseCharges(batch: seq<Invoice>, i: nat, j: nat, sources: Sources)
    requires i < |batch| && j < |batch| && i != j
    requires Payable(batch, i, sources)
    ensures Key(batch[i].purchaseOrder) != Key(batch[j].purchaseOrder)
  {
    hide Key, R01, R05, R07, R13, R15;
    var others := Others(batch, i);
    assert others[if j < i then j else j - 1] == batch[j];
    assert batch[j] in others;
  }

  /** A payable invoice's order has an accounting entry, and the last one may be paid. */
  lemma {:induction false} AccountingAwaitsPayment(batch: seq<Invoice>, i: nat, sources: Sources)
    requires i < |batch| && Payable(batch, i, sources)
    ensures AwaitsPayment(sources.erp, Key(batch[i].purchaseOrder))
  {
    OrderHasARow(batch[i], sources);
    PayableEntryAwaits(sources.erp, Key(batch[i].purchaseOrder));
  }

  /** An order R05 lets pass has a last row. */
  lemma {:induction false} OrderHasARow(invoice: Invoice, sources: Sources)
    requires Key(invoice.purchaseOrder) != "" && R05(invoice, sources) == Passes
    ensures 0 <= RowOf(invoice, sources) < |sources.orders|
    ensures LastOrder(sources.orders, Key(invoice.purchaseOrder))
         == Some(sources.orders[RowOf(invoice, sources)])
  {
    var order := Key(invoice.purchaseOrder);
    var row :| row in sources.orders && Key(row.purchaseOrder) == order;
    var k :| 0 <= k < |sources.orders| && sources.orders[k] == row;
    assert OrderKeys(sources.orders)[k] == order;
  }

  /** The row a payable invoice is compared with states an amount. */
  predicate ChargedRowsStated(batch: seq<Invoice>, sources: Sources) {
    forall i :: 0 <= i < |batch| && Payable(batch, i, sources) ==>
      RowStated(batch[i], sources)
  }

  predicate RowStated(invoice: Invoice, sources: Sources) {
    var row := LastOrder(sources.orders, Key(invoice.purchaseOrder));
    row.Some? && !row.value.totalAmount.Blank?
  }

  /** No row outside `used` states a negative amount. */
  predicate RestNotNegative(rows: seq<OrderRow>, used: set<nat>) {
    forall k: nat :: k < |rows| && k !in used ==> RowCents(rows[k]) >= 0
  }

  function RowCents(row: OrderRow): int {
    if row.totalAmount.Number? then Cents(row.totalAmount.value) else 0
  }

  /** The cents of the rows at the positions `used`. */
  function CentsAt(rows: seq<OrderRow>, used: set<nat>): int {
    if rows == [] then 0
    else
      var k := |rows| - 1;
      CentsAt(rows[..k], used) + if k in used then RowCents(rows[k]) else 0
  }

  function AllCents(rows: seq<OrderRow>): int {
    if rows == [] then 0 else AllCents(rows[..|rows| - 1]) + RowCents(rows[|rows| - 1])
  }

  lemma {:induction false} OneMoreRow(rows: seq<OrderRow>, used: set<nat>, k: nat)
    requires k !in used
    ensures CentsAt(rows, used + {k})
         == CentsAt(rows, used) + if k < |rows| then RowCents(rows[k]) else 0
  {
    if rows != [] {
      OneMoreRow(rows[..|rows| - 1], used, k);
    }
  }

  lemma {:induction false} PartOfTheWhole(rows: seq<OrderRow>, used: set<nat>)
    requires RestNotNegative(rows, used)
    ensures CentsAt(rows, used) <= AllCents(rows)
  {
    if rows != [] {
      PartOfTheWhole(rows[..|rows| - 1], used);
    }
  }

  /** The cents paid by the payable invoices among the first `n`, and how many they are. */
  function PaidCents(batch: seq<Invoice>, n: nat, sources: Sources): int
    requires n <= |batch|
  {
    if n == 0 then 0
    else
      PaidCents(batch, n - 1, sources)
      + if Payable(batch, n - 1, sources) && batch[n - 1].total.Number?
        then Cents(batch[n - 1].total.value) else 0
  }

  function PaidCount(batch: seq<Invoice>, n: nat, sources: Sources): nat
    requires n <= |batch|
  {
    if n == 0 then 0
    else PaidCount(batch, n - 1, sources) + if Payable(batch, n - 1, sources) then 1 else 0
  }

  function Payables(batch: seq<Invoice>, n: nat, sources: Sources): set<nat>
    requires n <= |batch|
  {
    set i: nat | i < n && Payable(batch, i, sources)
  }

  lemma {:induction false} CountOfPayables(batch: seq<Invoice>, n: nat, sources: Sources)
    requires n <= |batch|
    ensures PaidCount(batch, n, sources) == |Payables(batch, n, sources)|
  {
    hide Payable;
    if n == 0 {
      assert Payables(batch, 0, sources) == {};
    } else {
      CountOfPayables(batch, n - 1, sources);
      assert Payables(batch, n, sources)
          == Payables(batch, n - 1, sources) + if Payable(batch, n - 1, sources) then {n - 1} else {};
    }
  }

  /** All that was ordered is what the rows state, all of them. */
  lemma {:induction false} AllRowsCount(rows: seq<OrderRow>, used: set<nat>)
    requires forall k: nat :: k < |rows| ==> k in used
    ensures CentsAt(rows, used) == AllCents(rows)
  {
    if rows != [] {
      AllRowsCount(rows[..|rows| - 1], used);
    }
  }

  /** The order rows the payable invoices among the first `n` were compared with. */
  function RowsUsed(batch: seq<Invoice>, n: nat, sources: Sources): set<nat>
    requires n <= |batch|
  {
    set i: nat | i < n && Payable(batch, i, sources) && RowOf(batch[i], sources) >= 0
               :: RowOf(batch[i], sources)
  }

  function RowOf(invoice: Invoice, sources: Sources): int {
    LastIndex(OrderKeys(sources.orders), Key(invoice.purchaseOrder))
  }

  /** The total is a number, at most a cent above what the row of the order states. */
  predicate WithinOrder(invoice: Invoice, sources: Sources) {
    var k := RowOf(invoice, sources);
    && 0 <= k < |sources.orders|
    && invoice.total.Number?
    && Cents(invoice.total.value) <= RowCents(sources.orders[k]) + 1
  }

  /** A clean invoice asks for what its row states, if it states anything, within a cent. */
  lemma {:induction false} AsksForWhatWasOrdered(invoice: Invoice, others: seq<Invoice>, sources: Sources)
    requires Key(invoice.purchaseOrder) != "" && Clean(invoice, others, sources)
    requires RowStated(invoice, sources)
    ensures WithinOrder(invoice, sources)
  {
    OrderHasARow(invoice, sources);
    ComparePasses(invoice.total, sources.orders[RowOf(invoice, sources)].totalAmount);
  }

  /** No two payable invoices were compared with the same row. */
  lemma {:induction false} RowsAreNotShared(batch: seq<Invoice>, n: nat, sources: Sources)
    requires n < |batch| && Payable(batch, n, sources) && RowOf(batch[n], sources) >= 0
    ensures RowOf(batch[n], sources) !in RowsUsed(batch, n, sources)
  {
    forall i: nat | i < n && Payable(batch, i, sources) && RowOf(batch[i], sources) >= 0
      ensures RowOf(batch[i], sources) != RowOf(batch[n], sources)
    {
      NobodyElseCharges(batch, i, n, sources);
    }
  }

  lemma {:induction false} PayableAsksForItsRow(batch: seq<Invoice>, i: nat, sources: Sources)
    requires i < |batch| && Payable(batch, i, sources) && RowStated(batch[i], sources)
    ensures WithinOrder(batch[i], sources)
  {
    AsksForWhatWasOrdered(batch[i], Others(batch, i), sources);
  }

  lemma {:induction false} PaidFromRowsUsed(batch: seq<Invoice>, n: nat, sources: Sources)
    requires n <= |batch| && ChargedRowsStated(batch, sources)
    ensures PaidCents(batch, n, sources)
         <= CentsAt(sources.orders, RowsUsed(batch, n, sources)) + PaidCount(batch, n, sources)
  {
    hide Payable, RowOf, CentsAt, RowCents, Cents, RowStated;
    if n == 0 {
      NoRowsNoCents(sources.orders);
      assert RowsUsed(batch, 0, sources) == {};
    } else {
      PaidFromRowsUsed(batch, n - 1, sources);
      var before := RowsUsed(batch, n - 1, sources);
      if Payable(batch, n - 1, sources) {
        PayableAsksForItsRow(batch, n - 1, sources);
        RowsAreNotShared(batch, n - 1, sources);
        var k := RowOf(batch[n - 1], sources);
        OneMoreRow(sources.orders, before, k);
        assert RowsUsed(batch, n, sources) == before + {k};
      } else {
        assert RowsUsed(batch, n, sources) == before;
      }
    }
  }

  lemma {:induction false} NoRowsNoCents(rows: seq<OrderRow>)
    ensures CentsAt(rows, {}) == 0
  {
    if rows != [] {
      NoRowsNoCents(rows[..|rows| - 1]);
    }
  }

  /** The safety of a batch: the payable invoices charge pairwise different orders, each awaiting
      payment in accounting; and where the rows they are compared with state amounts, they charge
      together at most what those rows state plus one cent each. */
  lemma {:induction false} BatchPaymentSafety(batch: seq<Invoice>, sources: Sources)
    ensures forall i, j :: 0 <= i < j < |batch| && Payable(batch, i, sources) && Payable(batch, j, sources)
              ==> Key(batch[i].purchaseOrder) != Key(batch[j].purchaseOrder)
    ensures forall i :: 0 <= i < |batch| && Payable(batch, i, sources)
              ==> AwaitsPayment(sources.erp, Key(batch[i].purchaseOrder))
    ensures ChargedRowsStated(batch, sources) ==>
              PaidCents(batch, |batch|, sources)
              <= CentsAt(sources.orders, RowsUsed(batch, |batch|, sources))
                 + PaidCount(batch, |batch|, sources)
  {
    forall i, j | 0 <= i < j < |batch| && Payable(batch, i, sources) && Payable(batch, j, sources)
      ensures Key(batch[i].purchaseOrder) != Key(batch[j].purchaseOrder)
    {
      NobodyElseCharges(batch, i, j, sources);
    }
    forall i | 0 <= i < |batch| && Payable(batch, i, sources)
      ensures AwaitsPayment(sources.erp, Key(batch[i].purchaseOrder))
    {
      AccountingAwaitsPayment(batch, i, sources);
    }
    if ChargedRowsStated(batch, sources) {
      PaidFromRowsUsed(batch, |batch|, sources);
    }
  }

  /** Hence at most all that was ordered, when no row that nobody charges states a negative amount. */
  lemma {:induction false} NotMoreThanWasOrdered(batch: seq<Invoice>, sources: Sources)
    requires ChargedRowsStated(batch, sources)
    requires RestNotNegative(sources.orders, RowsUsed(batch, |batch|, sources))
    ensures PaidCents(batch, |batch|, sources)
         <= AllCents(sources.orders) + PaidCount(batch, |batch|, sources)
  {
    BatchPaymentSafety(batch, sources);
    PartOfTheWhole(sources.orders, RowsUsed(batch, |batch|, sources));
  }

  // ----- where the guarantee stops, exactly

  /** An order reference of nothing but separators passes every order rule but R01, whatever else
      charges it and whatever the sources say: with an empty key, clean is having the symbols. */
  lemma {:induction false} SeparatorsPassEveryOrderRule(invoice: Invoice, others: seq<Invoice>, sources: Sources)
    requires Key(invoice.purchaseOrder) == ""
    ensures Clean(invoice, others, sources) <==> R01(invoice) == Passes
  {
  }

  /** Nobody else charges the order, and accounting holds it as payable. */
  ghost predicate Guarded(invoice: Invoice, others: seq<Invoice>, sources: Sources) {
    var order := Key(invoice.purchaseOrder);
    && (forall o :: o in others ==> Key(o.purchaseOrder) != order)
    && AwaitsPayment(sources.erp, order)
  }

  /** Being clean guards an order, in every batch and for all sources, exactly when its reference is
      more than separators. */
  lemma {:induction false} GuardedIffKey(invoice: Invoice)
    requires R01(invoice) == Passes
    ensures Key(invoice.purchaseOrder) != "" <==>
            forall others, sources ::
              Clean(invoice, others, sources) ==> Guarded(invoice, others, sources)
  {
    if Key(invoice.purchaseOrder) == "" {
      var nothing := Sources([], [], []);
      SeparatorsPassEveryOrderRule(invoice, [invoice], nothing);
      assert !Guarded(invoice, [invoice], nothing);
    } else {
      forall others, sources | Clean(invoice, others, sources)
        ensures Guarded(invoice, others, sources)
      {
        OrderHasARow(invoice, sources);
        PayableEntryAwaits(sources.erp, Key(invoice.purchaseOrder));
      }
    }
  }

  /** R01 does not close that door: "-" is an order reference to it. */
  lemma {:induction false} DashIsAnOrderToR01(invoice: Invoice)
    requires R01(invoice) == Passes
    ensures R01(invoice.(purchaseOrder := Some("-"))) == Passes
    ensures Key(Some("-")) == ""
  {
    assert StripLeft("-") == "-" && StripRight("-") == "-";
    assert Upper("-") == "-" by {
      assert Upper("-"[1..]) == "";
    }
    KeyIgnoresStrip("-");
    assert Without("-", {' ', '-', '.'}) == "" by {
      assert Without("-"[1..], {' ', '-', '.'}) == "";
    }
  }

  /** An order whose last row states no amount lets any total pass. */
  lemma {:induction false} BlankOrderAmountPassesAnyTotal(invoice: Invoice, others: seq<Invoice>, sources: Sources, total: Amount)
    requires Clean(invoice, others, sources)
    requires var its := LastOrder(sources.orders, Key(invoice.purchaseOrder));
             its.Some? && its.value.totalAmount.Blank?
    requires !total.Blank?
    ensures Clean(invoice.(total := total), others, sources)
  {
  }

  /** What a clean invoice may charge is bounded by its order, exactly when the row it is compared
      with states an amount: otherwise some number beyond the bound gets through. */
  lemma {:induction false} BoundedIffRowStated(invoice: Invoice, others: seq<Invoice>, sources: Sources)
    requires Key(invoice.purchaseOrder) != "" && Clean(invoice, others, sources)
    ensures RowStated(invoice, sources) ==>
              forall total :: Clean(invoice.(total := total), others, sources) ==>
                                WithinOrder(invoice.(total := total), sources)
    ensures RowStated(invoice, sources) <==>
            forall v: real :: Clean(invoice.(total := Number(v)), others, sources) ==>
                                WithinOrder(invoice.(total := Number(v)), sources)
  {
    OrderHasARow(invoice, sources);
    if RowStated(invoice, sources) {
      forall total | Clean(invoice.(total := total), others, sources)
        ensures WithinOrder(invoice.(total := total), sources)
      {
        AsksForWhatWasOrdered(invoice.(total := total), others, sources);
      }
    } else {
      BlankOrderAmountPassesAnyTotal(invoice, others, sources, Number(1.0));
      HalfUpOfWhole(100);
      assert !WithinOrder(invoice.(total := Number(1.0)), sources);
    }
  }
}
