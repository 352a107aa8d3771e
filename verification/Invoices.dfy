/** The entities the payment rules read, and the verdict a rule returns. */
module Invoices {
  import opened Text

  /**
   An amount symbol or cell. Blank is an absent or whitespace value; Number is a text `Decimal`
   reads as a finite number; Garbled is any other text, on which the arithmetic of a rule raises.
   */
  datatype Amount = Blank | Number(value: real) | Garbled

  datatype Invoice = Invoice(
    name: string,
    issuerNif: Field,
    iban: Field,
    purchaseOrder: Field,
    date: Field,
    base: Amount,
    vatRate: Amount,
    vatAmount: Amount,
    total: Amount)

  datatype SupplierRow = SupplierRow(id: Field, nif: Field, iban: Field)

  datatype OrderRow = OrderRow(purchaseOrder: Field, totalAmount: Amount, supplierId: Field, nif: Field)

  datatype ErpRow = ErpRow(purchaseOrder: Field, amount: Amount, supplierId: Field, nif: Field, status: Field)

  datatype Sources = Sources(suppliers: seq<SupplierRow>, orders: seq<OrderRow>, erp: seq<ErpRow>)

  /** Raises is an exception inside the rule; the engine then escalates the invoice. */
  datatype Verdict = Passes | Fires | Raises

  function FiresIf(condition: bool): Verdict {
    if condition then Fires else Passes
  }
}
