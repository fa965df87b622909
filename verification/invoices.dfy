/** The invoice service: line and invoice totals, the invoice that a
    create or an update produces, and the guard in front of a payment.
    Amounts are exact reals; the invoice number, the stored invoice and
    the repository's answers are inputs. */
module Invoices {
  import opened Common

  /** `InvoiceItemInput`. */
  datatype ItemInput = ItemInput(
    productId: Option<string>,
    description: string,
    quantity: real,
    unitPrice: real,
    taxRate: Option<real>,
    discountAmount: Option<real>)

  function LineTotal(item: ItemInput): real { item.quantity * item.unitPrice }

  /** Tax on a line: `taxRate` is a percentage, absent meaning 0. */
  function ItemTax(item: ItemInput): real { LineTotal(item) * (OrZero(item.taxRate) / 100.0) }

  function ItemDiscount(item: ItemInput): real { OrZero(item.discountAmount) }

  /** `calculateItemTotal`: the line, plus its tax, less its discount. */
  function ItemTotal(item: ItemInput): (r: real)
    ensures r == item.quantity * item.unitPrice * (1.0 + OrZero(item.taxRate) / 100.0) - OrZero(item.discountAmount)
    ensures item.taxRate.None? && item.discountAmount.None? ==> r == item.quantity * item.unitPrice
  {
    LineTotal(item) + ItemTax(item) - ItemDiscount(item)
  }

  datatype Totals = Totals(subtotal: real, taxAmount: real, discountAmount: real, totalAmount: real)

  /** What `calculateInvoiceTotals` accumulates: each column summed over the
      items, and the total from the three sums. */
  function InvoiceTotals(items: seq<ItemInput>): (t: Totals)
    ensures t.totalAmount == t.subtotal + t.taxAmount - t.discountAmount
  {
    var subtotal := SumBy(items, LineTotal);
    var taxAmount := SumBy(items, ItemTax);
    var discountAmount := SumBy(items, ItemDiscount);
    Totals(subtotal, taxAmount, discountAmount, subtotal + taxAmount - discountAmount)
  }

  /** The invoice total is the sum of the item totals. */
  lemma TotalIsSumOfItemTotals(items: seq<ItemInput>)
    ensures InvoiceTotals(items).totalAmount == SumBy(items, ItemTotal)
  {
    SumByCombine(items, LineTotal, ItemTax, ItemDiscount, ItemTotal);
  }

  /** `calculateInvoiceTotals`: one pass over the items. */
  method CalculateInvoiceTotals(items: seq<ItemInput>) returns (t: Totals)
    ensures t == InvoiceTotals(items)
    ensures t.totalAmount == SumBy(items, ItemTotal)
  {
    var subtotal, taxAmount, discountAmount := 0.0, 0.0, 0.0;
    var i := 0;
    while i < |items|
      invariant 0 <= i <= |items|
      invariant subtotal == SumBy(items[..i], LineTotal)
      invariant taxAmount == SumBy(items[..i], ItemTax)
      invariant discountAmount == SumBy(items[..i], ItemDiscount)
    {
      var item := items[i];
      var lineTotal := item.quantity * item.unitPrice;
      assert items[..i + 1][..i] == items[..i];
      subtotal := subtotal + lineTotal;
      taxAmount := taxAmount + lineTotal * (OrZero(item.taxRate) / 100.0);
      discountAmount := discountAmount + OrZero(item.discountAmount);
      i := i + 1;
    }
    assert items[..i] == items;
    t := Totals(subtotal, taxAmount, discountAmount, subtotal + taxAmount - discountAmount);
    TotalIsSumOfItemTotals(items);
  }

  datatype Status = Draft | PartiallyPaid | Paid | OtherStatus(name: string)

  /** A stored invoice line: defaults filled in, its total computed. */
  datatype Line = Line(
    productId: Option<string>,
    description: string,
    quantity: real,
    unitPrice: real,
    taxRate: real,
    discountAmount: real,
    totalAmount: real)

  /** The mapping from an input item to the stored line: `productId ||
      undefined`, `taxRate || 0`, `discountAmount || 0`. */
  function LineOf(item: ItemInput): (l: Line)
    ensures l.totalAmount == ItemTotal(item)
    ensures l.productId.Some? <==> item.productId.Some? && item.productId.value != ""
  {
    Line(
      if item.productId.Some? && item.productId.value != "" then item.productId else None,
      item.description, item.quantity, item.unitPrice,
      OrZero(item.taxRate), OrZero(item.discountAmount), ItemTotal(item))
  }

  function LinesOf(items: seq<ItemInput>): (ls: seq<Line>)
    ensures |ls| == |items|
    ensures forall i :: 0 <= i < |items| ==> ls[i] == LineOf(items[i])
  {
    seq(|items|, i requires 0 <= i < |items| => LineOf(items[i]))
  }

  function LineAmount(l: Line): real { l.totalAmount }

  lemma {:induction false} LinesAddUp(items: seq<ItemInput>)
    ensures SumBy(LinesOf(items), LineAmount) == SumBy(items, ItemTotal)
  {
    if |items| > 0 {
      var init := items[..|items| - 1];
      assert LinesOf(items)[..|items| - 1] == LinesOf(init);
      LinesAddUp(init);
    }
  }

  datatype Invoice = Invoice(
    number: string,
    contactId: string,
    status: Status,
    totals: Totals,
    paidAmount: real,
    balanceAmount: real,
    lines: seq<Line>)

  /** What is still owed equals the total less what has been paid. */
  predicate Balanced(inv: Invoice)
  {
    inv.balanceAmount == inv.totals.totalAmount - inv.paidAmount
  }

  /** The stored line totals add up to the stored invoice total. */
  predicate LinesMatchTotal(inv: Invoice)
  {
    SumBy(inv.lines, LineAmount) == inv.totals.totalAmount
  }

  /** `createInvoice`: an invoice needs at least one item; a new invoice
      is a draft with nothing paid and everything owed. */
  function CreateInvoice(number: string, contactId: string, items: seq<ItemInput>): (r: Result<Invoice>)
    ensures r.Failure? <==> |items| == 0
    ensures r.Failure? ==> r.error == Validation("Invoice must have at least one item")
    ensures r.Success? ==>
      && r.value.number == number && r.value.contactId == contactId
      && r.value.status == Draft
      && r.value.paidAmount == 0.0
      && |r.value.lines| == |items|
      && r.value.totals.totalAmount == SumBy(items, ItemTotal)
      && Balanced(r.value) && LinesMatchTotal(r.value)
  {
    if |items| == 0 then Failure(Validation("Invoice must have at least one item"))
    else
      var totals := InvoiceTotals(items);
      TotalIsSumOfItemTotals(items);
      LinesAddUp(items);
      Success(Invoice(number, contactId, Draft, totals, 0.0, totals.totalAmount, LinesOf(items)))
  }

  /** `updateInvoice`: a truthy `contactId` replaces the contact; a given
      item list (even an empty one) replaces the lines and the totals and
      recomputes the balance against what was already paid; without one the
      amounts stay as they were. */
  function UpdateInvoice(existing: Option<Invoice>, contactId: Option<string>, items: Option<seq<ItemInput>>): (r: Result<Invoice>)
    ensures r.Failure? <==> existing.None?
    ensures r.Failure? ==> r.error == NotFound("Invoice")
    ensures r.Success? ==>
      && r.value.number == existing.value.number
      && r.value.status == existing.value.status
      && r.value.paidAmount == existing.value.paidAmount
      && r.value.contactId == OrStr(contactId, existing.value.contactId)
    ensures r.Success? && items.None? ==>
      && r.value.totals == existing.value.totals
      && r.value.balanceAmount == existing.value.balanceAmount
      && r.value.lines == existing.value.lines
    ensures r.Success? && items.Some? ==>
      && r.value.totals.totalAmount == SumBy(items.value, ItemTotal)
      && Balanced(r.value) && LinesMatchTotal(r.value)
  {
    if existing.None? then Failure(NotFound("Invoice"))
    else
      var inv := existing.value;
      var inv' := inv.(contactId := OrStr(contactId, inv.contactId));
      if items.None? then Success(inv')
      else
        var totals := InvoiceTotals(items.value);
        TotalIsSumOfItemTotals(items.value);
        LinesAddUp(items.value);
        Success(inv'.(totals := totals,
                      balanceAmount := totals.totalAmount - inv.paidAmount,
                      lines := LinesOf(items.value)))
  }

  /** An update keeps a balanced invoice balanced, and one with items
      balances any invoice. */
  lemma UpdateKeepsBalance(existing: Invoice, contactId: Option<string>, items: Option<seq<ItemInput>>)
    requires Balanced(existing) || items.Some?
    ensures Balanced(UpdateInvoice(Some(existing), contactId, items).value)
  {
  }

  /** What `recordPayment` hands to the repository. */
  datatype PaymentRequest = PaymentRequest(contactId: string, amount: real, paymentMethod: string)

  /** `recordPayment`'s guard: the invoice must exist and the amount must be
      positive; the payment method defaults to "CASH". */
  function RecordPayment(invoice: Option<Invoice>, amount: real, paymentMethod: Option<string>): (r: Result<PaymentRequest>)
    ensures r.Success? <==> invoice.Some? && amount > 0.0
    ensures invoice.None? ==> r == Failure(NotFound("Invoice"))
    ensures invoice.Some? && amount <= 0.0 ==> r == Failure(Validation("Payment amount must be greater than 0"))
    ensures r.Success? ==>
      && r.value.amount == amount
      && r.value.contactId == invoice.value.contactId
      && (paymentMethod.None? || paymentMethod.value == "" ==> r.value.paymentMethod == "CASH")
      && (paymentMethod.Some? && paymentMethod.value != "" ==> r.value.paymentMethod == paymentMethod.value)
  {
    if invoice.None? then Failure(NotFound("Invoice"))
    else if amount <= 0.0 then Failure(Validation("Payment amount must be greater than 0"))
    else Success(PaymentRequest(invoice.value.contactId, amount, OrStr(paymentMethod, "CASH")))
  }
}
