/**
  What the credit handlers compute, as functions of the store they start from. Stock
  is reconciled as for orders but on each item's full quantity. Totals are computed on
  the server. Deleting a credit returns no stock, and an update stores its amounts
  through a query that runs no save hook, so the status is not re-derived there.
*/
module CreditController {
  import opened Wrappers
  import opened Numbering
  import opened StockLedger
  import opened CreditModel

  /** The fields of a create or update request; absent fields are `None`. */
  datatype CreditRequest = CreditRequest(
    customerName: Option<string>,
    items: seq<CreditItem>,
    creditDate: Option<int>,
    paidAmount: Option<int>,
    dueDate: Option<int>,
    payments: Option<seq<Payment>>)

  predicate NumberTaken(credits: map<nat, Credit>, number: string) {
    exists id | id in credits :: credits[id].creditNumber == number
  }

  /**
    The credit a create builds before saving: total from the items, paid defaulting to
    0, remaining as their difference, no due date and the default status; an absent
    customer is stored empty, which the schema then refuses.
  */
  function NewCredit(number: string, req: CreditRequest, now: int): Credit {
    var total := CreditTotal(req.items);
    var paid := req.paidAmount.GetOr(0);
    Credit(number, req.customerName.GetOr(""), req.items, req.creditDate.GetOr(now), total, paid, total - paid,
           None, Active, req.payments.GetOr([]))
  }

  /**
    The credit an update stores: the fields the request sends over the old ones, the total
    recomputed, and the remaining amount taken against the request's paid amount unless
    that is absent or 0, in which case the stored paid amount is used instead.
  */
  function UpdatedCredit(previous: Credit, req: CreditRequest): Credit {
    var total := CreditTotal(req.items);
    var basis := if req.paidAmount.Some? && req.paidAmount.value != 0 then req.paidAmount.value
                 else previous.paidAmount;
    previous.(
      customerName := req.customerName.GetOr(previous.customerName),
      items := req.items,
      creditDate := req.creditDate.GetOr(previous.creditDate),
      paidAmount := req.paidAmount.GetOr(previous.paidAmount),
      dueDate := if req.dueDate.Some? then req.dueDate else previous.dueDate,
      payments := req.payments.GetOr(previous.payments),
      totalAmount := total,
      remainingAmount := total - basis)
  }

  /**
    Create: number from the count of existing credits, debit every item's quantity, then
    save: the schema is checked first, the pre-save hook runs, and a number already in
    use fails the insert.
  */
  function CreateCreditTx(stock: Stock, credits: map<nat, Credit>, req: CreditRequest, now: int): Result<Commit<Credit>, Error> {
    var credit := NewCredit(RecordNumber(|credits|), req, now);
    match DebitAll(stock, CreditLines(req.items))
    case Err(e) => Err(e)
    case Ok(debited) =>
      match CheckInsert(credits, credit)
      case Fail(e) => Err(e)
      case Pass => Ok(Commit(debited, PreSave(credit, now)))
  }

  /** What an insert checks before the hook runs and the record is stored: the schema, then the unique number. */
  function CheckInsert(credits: map<nat, Credit>, credit: Credit): Outcome<Error> {
    if !ValidCredit(credit) then Fail(ValidationFailed)
    else if NumberTaken(credits, credit.creditNumber) then Fail(DuplicateNumber(credit.creditNumber))
    else Pass
  }

  /** Update: credit back the old quantities, debit the new ones, store the new fields if they pass the schema. */
  function UpdateCreditTx(stock: Stock, credits: map<nat, Credit>, id: nat, req: CreditRequest): Result<Commit<Credit>, Error> {
    if id !in credits then Err(RecordNotFound)
    else
      var previous := credits[id];
      match Reconcile(stock, CreditLines(previous.items), CreditLines(req.items))
      case Err(e) => Err(e)
      case Ok(reconciled) =>
        var updated := UpdatedCredit(previous, req);
        if !ValidCredit(updated) then Err(ValidationFailed) else Ok(Commit(reconciled, updated))
  }

  /**
    A payment: append it, add its amount to the paid amount, recompute the remaining
    amount, then save: the schema is checked first (a missing amount fails it), then the
    pre-save hook runs.
  */
  function PaymentTx(c: Credit, amount: Option<int>, paymentDate: Option<int>, now: int): Result<Credit, Error> {
    match amount
    case None => Err(ValidationFailed)
    case Some(a) =>
      var next := WithPayment(c, a, paymentDate.GetOr(now));
      if !ValidCredit(next) then Err(ValidationFailed) else Ok(PreSave(next, now))
  }

  /** The create handler: number the credit, debit the products item by item, then save. */
  method HandleCreateCredit(stock: Stock, credits: map<nat, Credit>, req: CreditRequest, now: int)
    returns (r: Result<Commit<Credit>, Error>)
    ensures r == CreateCreditTx(stock, credits, req, now)
  {
    var credit := NewCredit(RecordNumber(|credits|), req, now);
    var debited := Debit(stock, CreditLines(req.items));
    if debited.Err? {
      return Err(debited.error);
    }
    var check := CheckInsert(credits, credit);
    if check.Fail? {
      return Err(check.error);
    }
    var document := new CreditDocument(credit);
    document.RunPreSave(now);
    return Ok(Commit(debited.value, document.data));
  }

  /** The update handler: look the credit up, credit back its old items, debit the new ones, then validate. */
  method HandleUpdateCredit(stock: Stock, credits: map<nat, Credit>, id: nat, req: CreditRequest)
    returns (r: Result<Commit<Credit>, Error>)
    ensures r == UpdateCreditTx(stock, credits, id, req)
  {
    if id !in credits {
      return Err(RecordNotFound);
    }
    var previous := credits[id];
    var restocked := Restock(stock, CreditLines(previous.items));
    var debited := Debit(restocked, CreditLines(req.items));
    if debited.Err? {
      return Err(debited.error);
    }
    var updated := UpdatedCredit(previous, req);
    if !ValidCredit(updated) {
      return Err(ValidationFailed);
    }
    return Ok(Commit(debited.value, updated));
  }

  /**
    The payment handler: record the payment on the document, then save it, which checks
    the schema and then runs the pre-save hook.
  */
  method HandlePayment(c: Credit, amount: Option<int>, paymentDate: Option<int>, now: int)
    returns (r: Result<Credit, Error>)
    ensures r == PaymentTx(c, amount, paymentDate, now)
  {
    if amount.None? {
      return Err(ValidationFailed);
    }
    var document := new CreditDocument(c);
    document.RecordPayment(amount.value, paymentDate.GetOr(now));
    if !ValidCredit(document.data) {
      return Err(ValidationFailed);
    }
    document.RunPreSave(now);
    return Ok(document.data);
  }

  /**
    A created credit debits each product by the quantity its items demand; it has the
    request's customer (a create lacking one fails); its total is the items' value, its
    remaining amount is total minus paid, and it is never Overdue since a create sets no
    due date.
  */
  lemma CreateCreditEffect(stock: Stock, credits: map<nat, Credit>, req: CreditRequest, now: int)
    requires CreateCreditTx(stock, credits, req, now).Ok?
    ensures var c := CreateCreditTx(stock, credits, req, now).value;
      && c.stock.Keys == stock.Keys
      && (forall n | n in stock :: c.stock[n] == stock[n] - Demand(CreditLines(req.items), n))
      && c.record.totalAmount == CreditTotal(req.items)
      && c.record.paidAmount == req.paidAmount.GetOr(0)
      && Some(c.record.customerName) == req.customerName
      && c.record.remainingAmount == c.record.totalAmount - c.record.paidAmount >= 0
      && c.record.creditNumber == RecordNumber(|credits|)
      && !NumberTaken(credits, c.record.creditNumber)
      && (c.record.status == Paid <==> c.record.remainingAmount == 0)
      && c.record.status != Overdue
      && ValidCredit(c.record)
  {
    DebitAllEffect(stock, CreditLines(req.items));
  }

  /** A create never leaves a product below zero. */
  lemma CreateCreditKeepsStockNonNegative(stock: Stock, credits: map<nat, Credit>, req: CreditRequest, now: int)
    requires NonNegative(stock) && CreateCreditTx(stock, credits, req, now).Ok?
    ensures NonNegative(CreateCreditTx(stock, credits, req, now).value.stock)
  {
    DebitAllKeepsNonNegative(stock, CreditLines(req.items));
  }

  /**
    An update moves each product by the difference between the old and new quantities and
    keeps the status; a request without a customer keeps the stored one. A non-zero paid
    amount is stored and the remaining amount is the new total less it; without a paid
    amount the stored one is kept and the remaining amount is the new total less that.
  */
  lemma UpdateCreditNetDelta(stock: Stock, credits: map<nat, Credit>, id: nat, req: CreditRequest)
    requires UpdateCreditTx(stock, credits, id, req).Ok?
    ensures id in credits
    ensures var c := UpdateCreditTx(stock, credits, id, req).value;
      && c.stock.Keys == stock.Keys
      && (forall n | n in stock ::
            c.stock[n] == stock[n] + Demand(CreditLines(credits[id].items), n) - Demand(CreditLines(req.items), n))
      && c.record.totalAmount == CreditTotal(req.items)
      && c.record.status == credits[id].status
      && c.record.creditNumber == credits[id].creditNumber
      && c.record.customerName == req.customerName.GetOr(credits[id].customerName)
      && (req.paidAmount.Some? && req.paidAmount.value != 0 ==>
            c.record.paidAmount == req.paidAmount.value
            && c.record.remainingAmount == c.record.totalAmount - c.record.paidAmount)
      && (req.paidAmount.None? ==>
            c.record.paidAmount == credits[id].paidAmount
            && c.record.remainingAmount == c.record.totalAmount - credits[id].paidAmount)
  {
    ReconcileIsNetDelta(stock, CreditLines(credits[id].items), CreditLines(req.items));
  }

  /**
    An update that sends a paid amount of 0 stores 0 as paid but computes the remaining
    amount against the previously stored paid amount, so remaining no longer equals
    total minus paid.
  */
  lemma UpdateCreditZeroPaidFallsBack(stock: Stock, credits: map<nat, Credit>, id: nat, req: CreditRequest)
    requires UpdateCreditTx(stock, credits, id, req).Ok?
    requires req.paidAmount == Some(0)
    ensures id in credits
    ensures var r := UpdateCreditTx(stock, credits, id, req).value.record;
      && r.paidAmount == 0
      && r.remainingAmount == r.totalAmount - credits[id].paidAmount
      && (credits[id].paidAmount != 0 ==> r.remainingAmount != r.totalAmount - r.paidAmount)
  {
  }

  /**
    On a credit that obeys the schema, a payment of `a` is accepted exactly when
    0 <= a <= total - paid. An accepted payment appends exactly one payment, raises the
    paid amount by `a`, leaves total minus paid as the remaining amount, and derives the
    status, which is Paid exactly when the payment settles the balance.
  */
  lemma PaymentEffect(c: Credit, a: int, paymentDate: Option<int>, now: int)
    requires ValidCredit(c)
    ensures PaymentTx(c, Some(a), paymentDate, now).Ok? <==> 0 <= a <= c.totalAmount - c.paidAmount
    ensures PaymentTx(c, Some(a), paymentDate, now).Ok? ==>
      var r := PaymentTx(c, Some(a), paymentDate, now).value;
      && r.payments == c.payments + [Payment(a, paymentDate.GetOr(now))]
      && r.paidAmount == c.paidAmount + a
      && r.remainingAmount == c.totalAmount - r.paidAmount >= 0
      && r.totalAmount == c.totalAmount && r.items == c.items && r.creditNumber == c.creditNumber
      && (r.status == Paid <==> a == c.totalAmount - c.paidAmount)
  {
    var next := WithPayment(c, a, paymentDate.GetOr(now));
    if 0 <= a <= c.totalAmount - c.paidAmount {
      assert forall k | 0 <= k < |next.payments| :: next.payments[k].amount >= 0 by {
        forall k | 0 <= k < |next.payments| ensures next.payments[k].amount >= 0 {
          if k < |c.payments| { assert next.payments[k] == c.payments[k]; }
        }
      }
      assert ValidCredit(next);
    } else if a < 0 {
      assert next.payments[|c.payments|].amount < 0;
    }
  }

  /**
    The worked example: on a credit of 850000 with 400000 paid, a payment of 500000 is
    refused and one of 450000 settles it.
  */
  lemma SettlingPaymentExample(c: Credit, now: int)
    requires ValidCredit(c) && c.totalAmount == 850000 && c.paidAmount == 400000
    ensures PaymentTx(c, Some(500000), None, now) == Err(ValidationFailed)
    ensures PaymentTx(c, Some(450000), None, now).Ok?
    ensures PaymentTx(c, Some(450000), None, now).value.remainingAmount == 0
    ensures PaymentTx(c, Some(450000), None, now).value.status == Paid
  {
    PaymentEffect(c, 500000, None, now);
    PaymentEffect(c, 450000, None, now);
  }
}
