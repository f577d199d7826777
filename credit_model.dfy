/**
  The stored credit (accounts-receivable) document, its schema rules and its pre-save
  hook. Dates are integer timestamps and "now" is a parameter. Free-text fields (phone
  number, notes) are not part of this model.
*/
module CreditModel {
  import opened Wrappers
  import opened StockLedger

  datatype Status = Active | Paid | Overdue

  datatype CreditItem = CreditItem(name: string, quantity: int, price: int)

  datatype Payment = Payment(amount: int, paymentDate: int)

  datatype Credit = Credit(
    creditNumber: string,
    customerName: string,
    items: seq<CreditItem>,
    creditDate: int,
    totalAmount: int,
    paidAmount: int,
    remainingAmount: int,
    dueDate: Option<int>,
    status: Status,
    payments: seq<Payment>)

  /** Item rules: a name is required, quantity and price are at least 0. */
  predicate ValidCreditItem(item: CreditItem) {
    item.name != "" && item.quantity >= 0 && item.price >= 0
  }

  /**
    Document rules: number and customer are required; total, paid and remaining amounts
    and every payment amount are at least 0. `status` is one of three values by its type.
  */
  predicate ValidCredit(c: Credit) {
    && c.creditNumber != ""
    && c.customerName != ""
    && (forall k | 0 <= k < |c.items| :: ValidCreditItem(c.items[k]))
    && c.totalAmount >= 0
    && c.paidAmount >= 0
    && c.remainingAmount >= 0
    && (forall k | 0 <= k < |c.payments| :: c.payments[k].amount >= 0)
  }

  /** The ledger lines of a credit: each item's full quantity (credits have no returns). */
  function CreditLines(items: seq<CreditItem>): seq<Line> {
    seq(|items|, k requires 0 <= k < |items| => Line(items[k].name, items[k].quantity))
  }

  /** The server-side total: the sum of quantity times price over the items. */
  function CreditTotal(items: seq<CreditItem>): int
    decreases |items|
  {
    if items == [] then 0 else items[0].quantity * items[0].price + CreditTotal(items[1..])
  }

  /** The status the hook derives: settled, past due, or running. */
  function DeriveStatus(remaining: int, dueDate: Option<int>, now: int): Status {
    if remaining <= 0 then Paid
    else if dueDate.Some? && dueDate.value < now then Overdue
    else Active
  }

  /** The pre-save hook: recompute the remaining amount from total and paid, then the status. */
  function PreSave(c: Credit, now: int): (r: Credit)
    ensures r.remainingAmount == r.totalAmount - r.paidAmount
    ensures r.(remainingAmount := c.remainingAmount, status := c.status) == c
  {
    var remaining := c.totalAmount - c.paidAmount;
    c.(remainingAmount := remaining, status := DeriveStatus(remaining, c.dueDate, now))
  }

  /** A payment as recorded: appended to the history, added to the paid amount, remaining recomputed. */
  function WithPayment(c: Credit, amount: int, paymentDate: int): (r: Credit)
    ensures |r.payments| == |c.payments| + 1 && r.payments[|c.payments|] == Payment(amount, paymentDate)
    ensures r.payments[..|c.payments|] == c.payments
    ensures r.paidAmount == c.paidAmount + amount
    ensures r.remainingAmount == r.totalAmount - r.paidAmount
    ensures r.(payments := c.payments, paidAmount := c.paidAmount, remainingAmount := c.remainingAmount) == c
  {
    var paid := c.paidAmount + amount;
    c.(payments := c.payments + [Payment(amount, paymentDate)],
       paidAmount := paid,
       remainingAmount := c.totalAmount - paid)
  }

  /**
    A credit document being saved: its fields are updated in place by the payment
    handler and by the pre-save hook.
  */
  class CreditDocument {
    var data: Credit

    constructor (c: Credit)
      ensures data == c
    {
      data := c;
    }

    /** The pre-save hook: assign the remaining amount, then the status. */
    method RunPreSave(now: int)
      modifies this
      ensures data == PreSave(old(data), now)
    {
      data := data.(remainingAmount := data.totalAmount - data.paidAmount);
      if data.remainingAmount <= 0 {
        data := data.(status := Paid);
      } else if data.dueDate.Some? && data.dueDate.value < now {
        data := data.(status := Overdue);
      } else {
        data := data.(status := Active);
      }
    }

    /** Push the payment, add its amount to the paid amount, recompute the remaining amount. */
    method RecordPayment(amount: int, paymentDate: int)
      modifies this
      ensures data == WithPayment(old(data), amount, paymentDate)
    {
      data := data.(payments := data.payments + [Payment(amount, paymentDate)]);
      data := data.(paidAmount := data.paidAmount + amount);
      data := data.(remainingAmount := data.totalAmount - data.paidAmount);
    }
  }

  /** Each status holds exactly under its own condition. */
  lemma DeriveStatusCases(remaining: int, dueDate: Option<int>, now: int)
    ensures DeriveStatus(remaining, dueDate, now) == Paid <==> remaining <= 0
    ensures DeriveStatus(remaining, dueDate, now) == Overdue <==>
      remaining > 0 && dueDate.Some? && dueDate.value < now
    ensures DeriveStatus(remaining, dueDate, now) == Active <==>
      remaining > 0 && (dueDate.None? || dueDate.value >= now)
  {
  }

  /** The hook's result depends only on total, paid, due date and now, so running it twice changes nothing. */
  lemma PreSaveIdempotent(c: Credit, now: int)
    ensures PreSave(PreSave(c, now), now) == PreSave(c, now)
  {
  }

  /** After the hook, a credit is Paid exactly when nothing remains to be paid. */
  lemma PreSaveStatus(c: Credit, now: int)
    ensures PreSave(c, now).status == Paid <==> c.paidAmount >= c.totalAmount
  {
  }

  lemma CreditItemsHaveNonNegativeLines(items: seq<CreditItem>)
    requires forall k | 0 <= k < |items| :: ValidCreditItem(items[k])
    ensures NonNegativeUnits(CreditLines(items))
  {
  }

  /** Items within the schema's bounds never add up to a negative total. */
  lemma {:induction false} CreditTotalNonNegative(items: seq<CreditItem>)
    requires forall k | 0 <= k < |items| :: ValidCreditItem(items[k])
    ensures CreditTotal(items) >= 0
    decreases |items|
  {
    if items != [] {
      assert ValidCreditItem(items[0]);
      assert forall k | 0 <= k < |items[1..]| :: items[1..][k] == items[k + 1];
      CreditTotalNonNegative(items[1..]);
    }
  }
}
