/**
  The credit form of the warehouse frontend: its total and remaining amount, the checks
  it runs before submitting, its per-item edit handler, and the guard in front of the
  payment request. Items refer to products by name.
*/
module CreditForm {
  import opened Wrappers
  import opened FormValues
  import opened CreditModel
  import CreditController

  /** An item as the form holds it; `maxQuantity` records the chosen product's stock. */
  datatype CreditFormItem = CreditFormItem(name: string, quantity: Field, price: Field, maxQuantity: Option<int>)

  datatype CreditDraft = CreditDraft(customerName: string, items: seq<CreditFormItem>, paidAmount: Field)

  /** The form's total: quantity times price summed over the items, empty fields counting as 0. */
  function CreditFormTotal(items: seq<CreditFormItem>): int
    decreases |items|
  {
    if items == [] then 0
    else Value(items[0].quantity) * Value(items[0].price) + CreditFormTotal(items[1..])
  }

  /** The remaining amount the form shows. */
  function FormRemaining(draft: CreditDraft): (r: int)
    ensures r >= 0
    ensures r == 0 <==> CreditFormTotal(draft.items) <= Value(draft.paidAmount)
    ensures r > 0 ==> r + Value(draft.paidAmount) == CreditFormTotal(draft.items)
  {
    var difference := CreditFormTotal(draft.items) - Value(draft.paidAmount);
    if difference > 0 then difference else 0
  }

  /** The total of a list with one more item is the old total plus that item's value. */
  lemma {:induction false} CreditFormTotalAppend(items: seq<CreditFormItem>, item: CreditFormItem)
    ensures CreditFormTotal(items + [item]) == CreditFormTotal(items) + Value(item.quantity) * Value(item.price)
    decreases |items|
  {
    if items == [] {
      assert [] + [item] == [item];
    } else {
      assert (items + [item])[1..] == items[1..] + [item];
      CreditFormTotalAppend(items[1..], item);
    }
  }

  /**
    Once the fields are filled in, the form's total is the total the server computes from
    the same quantities and prices.
  */
  lemma {:induction false} FormTotalMatchesServer(items: seq<CreditFormItem>, sent: seq<CreditItem>)
    requires |sent| == |items|
    requires forall k | 0 <= k < |items| ::
      sent[k].quantity == Value(items[k].quantity) && sent[k].price == Value(items[k].price)
    ensures CreditFormTotal(items) == CreditTotal(sent)
    decreases |items|
  {
    if items != [] {
      FormTotalMatchesServer(items[1..], sent[1..]);
    }
  }

  // ---------------------------------------------------------------- submission checks

  /** What the form demands of one item: a product with that name, with stock for the quantity, and a positive quantity. */
  predicate ItemAcceptable(item: CreditFormItem, products: seq<Product>) {
    && Find(products, ByName(item.name)).Some?
    && 0 < Value(item.quantity) <= Find(products, ByName(item.name)).value.quantity
  }

  /** The first check one item fails, in the order the form runs them. */
  function ItemProblem(item: CreditFormItem, products: seq<Product>): Option<FormError> {
    match Find(products, ByName(item.name))
    case None => Some(ProductMissing(item.name))
    case Some(p) =>
      if Value(item.quantity) > p.quantity then Some(NotEnoughInventory(item.name, p.quantity))
      else if Value(item.quantity) <= 0 then Some(QuantityNotPositive(item.name))
      else None
  }

  function FirstProblemFrom(items: seq<CreditFormItem>, products: seq<Product>, i: nat): Option<FormError>
    requires i <= |items|
    decreases |items| - i
  {
    if i == |items| then None
    else if ItemProblem(items[i], products).Some? then ItemProblem(items[i], products)
    else FirstProblemFrom(items, products, i + 1)
  }

  /** The form's verdict: customer and first item first, then each item in turn. */
  function Verdict(draft: CreditDraft, products: seq<Product>): Outcome<FormError> {
    if IsBlank(draft.customerName) then Fail(CustomerRequired)
    else if |draft.items| == 0 || draft.items[0].name == "" then Fail(ItemRequired)
    else match FirstProblemFrom(draft.items, products, 0)
      case Some(e) => Fail(e)
      case None => Pass
  }

  /** The submit handler's checks: stop at the first item that fails. */
  method CheckCreditSubmission(draft: CreditDraft, products: seq<Product>) returns (r: Outcome<FormError>)
    ensures r == Verdict(draft, products)
  {
    if IsBlank(draft.customerName) {
      return Fail(CustomerRequired);
    }
    if |draft.items| == 0 || draft.items[0].name == "" {
      return Fail(ItemRequired);
    }
    var i := 0;
    while i < |draft.items|
      invariant 0 <= i <= |draft.items|
      invariant FirstProblemFrom(draft.items, products, 0) == FirstProblemFrom(draft.items, products, i)
    {
      var problem := ItemProblem(draft.items[i], products);
      if problem.Some? {
        return Fail(problem.value);
      }
      i := i + 1;
    }
    return Pass;
  }

  lemma {:induction false} FirstProblemNoneIff(items: seq<CreditFormItem>, products: seq<Product>, i: nat)
    requires i <= |items|
    ensures FirstProblemFrom(items, products, i).None? <==>
      forall k | i <= k < |items| :: ItemAcceptable(items[k], products)
    decreases |items| - i
  {
    if i < |items| {
      FirstProblemNoneIff(items, products, i + 1);
    }
  }

  /**
    The form submits exactly when the customer name is not blank, the first item is
    named, and every item names a product with a positive quantity within its stock.
  */
  lemma VerdictPassIff(draft: CreditDraft, products: seq<Product>)
    ensures Verdict(draft, products) == Pass <==>
      && !IsBlank(draft.customerName)
      && |draft.items| > 0 && draft.items[0].name != ""
      && forall k | 0 <= k < |draft.items| :: ItemAcceptable(draft.items[k], products)
  {
    FirstProblemNoneIff(draft.items, products, 0);
  }

  // ---------------------------------------------------------------- item edits

  datatype CreditItemEdit = SelectName(name: string) | SetQuantity(entry: Entry) | SetPrice(entry: Entry)

  /** The item an edit leaves, or the message it shows instead of storing anything. */
  function EditedCreditItem(item: CreditFormItem, edit: CreditItemEdit, products: seq<Product>): Result<CreditFormItem, FormError> {
    match edit
    case SelectName(name) =>
      (match Find(products, ByName(name))
       case None => Ok(item)
       case Some(p) => Ok(item.(name := name, price := Num(p.price), maxQuantity := Some(p.quantity))))
    case SetPrice(e) => Ok(item.(price := Sanitize(e)))
    case SetQuantity(e) =>
      match Find(products, ByName(item.name))
      case Some(p) => if e.Whole? && e.n > p.quantity then Err(OnlyAvailable(p.quantity))
                      else Ok(item.(quantity := Sanitize(e)))
      case None => Ok(item.(quantity := Sanitize(e)))
  }

  /** The item-change handler: it updates the item at `index` in place, or shows a message and stores nothing. */
  method ChangeCreditItem(items: array<CreditFormItem>, index: nat, edit: CreditItemEdit, products: seq<Product>)
    returns (r: Outcome<FormError>)
    requires index < items.Length
    modifies items
    ensures match EditedCreditItem(old(items[index]), edit, products)
      case Ok(item) => r == Pass && items[..] == old(items[..])[index := item]
      case Err(e) => r == Fail(e) && items[..] == old(items[..])
  {
    var current := items[index];
    match edit {
      case SelectName(name) =>
        var product := Find(products, ByName(name));
        if product.Some? {
          items[index] := current.(name := name, price := Num(product.value.price), maxQuantity := Some(product.value.quantity));
        }
      case SetPrice(e) =>
        items[index] := current.(price := Sanitize(e));
      case SetQuantity(e) =>
        if e.Whole? {
          var product := Find(products, ByName(current.name));
          if product.Some? && e.n > product.value.quantity {
            return Fail(OnlyAvailable(product.value.quantity));
          }
        }
        items[index] := current.(quantity := Sanitize(e));
    }
    r := Pass;
  }

  /**
    The edit rules: a quantity above the stock of the item's product is refused; any other
    entry is stored as entered, with a negative number stored as 0, so an accepted
    numeric edit never stores a negative number. Choosing a product copies its price and
    records its stock, and leaves the quantity alone.
  */
  lemma CreditItemEditRules(item: CreditFormItem, products: seq<Product>, e: Entry, name: string)
    ensures EditedCreditItem(item, SetQuantity(e), products).Err? <==>
      e.Whole? && Find(products, ByName(item.name)).Some? && e.n > Find(products, ByName(item.name)).value.quantity
    ensures EditedCreditItem(item, SetQuantity(e), products).Ok? ==>
      var q := EditedCreditItem(item, SetQuantity(e), products).value.quantity;
      Value(q) >= 0 && (e.Blank? <==> q == Empty)
    ensures Value(EditedCreditItem(item, SetPrice(e), products).value.price) >= 0
    ensures Find(products, ByName(name)).Some? ==>
      var s := EditedCreditItem(item, SelectName(name), products).value;
      && s.name == name && s.price == Num(Find(products, ByName(name)).value.price)
      && s.maxQuantity == Some(Find(products, ByName(name)).value.quantity)
      && s.quantity == item.quantity
  {
  }

  // ---------------------------------------------------------------- payments

  /** The guard in front of the payment request, read against the credit's stored remaining amount. */
  function PaymentGuard(amount: Field, remaining: int): (r: Outcome<FormError>)
    ensures r == Pass <==> 0 < Value(amount) <= remaining
  {
    if Value(amount) <= 0 then Fail(AmountNotPositive)
    else if Value(amount) > remaining then Fail(AmountAboveRemaining(remaining))
    else Pass
  }

  /**
    On a stored credit whose remaining amount is total minus paid, a payment the guard
    lets through is one the server accepts, and it leaves the remaining amount at or
    above 0.
  */
  lemma GuardedPaymentIsAccepted(c: Credit, a: int, paymentDate: Option<int>, now: int)
    requires ValidCredit(c) && c.remainingAmount == c.totalAmount - c.paidAmount
    requires PaymentGuard(Num(a), c.remainingAmount) == Pass
    ensures CreditController.PaymentTx(c, Some(a), paymentDate, now).Ok?
    ensures CreditController.PaymentTx(c, Some(a), paymentDate, now).value.remainingAmount >= 0
  {
    CreditController.PaymentEffect(c, a, paymentDate, now);
  }

  /** On a credit not yet overpaid, the server accepts a payment of 0 that the guard refuses. */
  lemma GuardStricterThanServer(c: Credit, now: int)
    requires ValidCredit(c) && c.paidAmount <= c.totalAmount
    ensures PaymentGuard(Num(0), c.remainingAmount) == Fail(AmountNotPositive)
    ensures CreditController.PaymentTx(c, Some(0), None, now).Ok?
  {
    CreditController.PaymentEffect(c, 0, None, now);
  }
}
