/**
  The order form of the warehouse frontend: its running total, the checks it runs
  before submitting, the request it sends, and its per-item edit handler. Items refer
  to products by id; the form keeps quantity and returned as fields that may be empty.
*/
module OrderForm {
  import opened Wrappers
  import opened FormValues
  import opened StockLedger
  import opened OrderModel
  import OrderController

  datatype OrderFormItem = OrderFormItem(productId: string, name: string, quantity: Field, returned: Field, price: Field)

  datatype OrderDraft = OrderDraft(customerName: string, items: seq<OrderFormItem>, orderDate: int)

  /** The form's total: price times quantity, less price times returned, summed over the items. */
  function OrderFormTotal(items: seq<OrderFormItem>): int
    decreases |items|
  {
    if items == [] then 0
    else
      var item := items[0];
      Value(item.price) * Value(item.quantity) - Value(item.price) * Value(item.returned) + OrderFormTotal(items[1..])
  }

  /** The total of a list with one more item is the old total plus that item's contribution. */
  lemma {:induction false} OrderFormTotalAppend(items: seq<OrderFormItem>, item: OrderFormItem)
    ensures OrderFormTotal(items + [item]) ==
      OrderFormTotal(items) + Value(item.price) * Value(item.quantity) - Value(item.price) * Value(item.returned)
    decreases |items|
  {
    if items == [] {
      assert [] + [item] == [item];
    } else {
      assert (items + [item])[1..] == items[1..] + [item];
      OrderFormTotalAppend(items[1..], item);
    }
  }

  // ---------------------------------------------------------------- submission checks

  /** What the form demands of one item: a known product, a positive quantity, returns between 0 and the quantity, and for a new order enough stock for the whole quantity. */
  predicate ItemAcceptable(item: OrderFormItem, products: seq<Product>, isNew: bool) {
    && Find(products, ById(item.productId)).Some?
    && Value(item.quantity) > 0
    && 0 <= Value(item.returned) <= Value(item.quantity)
    && (isNew ==> Value(item.quantity) <= Find(products, ById(item.productId)).value.quantity)
  }

  /** The first check one item fails, in the order the form runs them. */
  function ItemProblem(item: OrderFormItem, products: seq<Product>, isNew: bool): Option<FormError> {
    match Find(products, ById(item.productId))
    case None => Some(UnknownProduct)
    case Some(p) =>
      if Value(item.quantity) <= 0 then Some(QuantityNotPositive(p.name))
      else if Value(item.returned) < 0 then Some(ReturnedNegative(p.name))
      else if Value(item.returned) > Value(item.quantity) then Some(ReturnedExceedsOrdered(p.name))
      else if isNew && Value(item.quantity) > p.quantity then Some(NotEnoughInventory(p.name, p.quantity))
      else None
  }

  /** The first problem among the items from position `i` on. */
  function FirstProblemFrom(items: seq<OrderFormItem>, products: seq<Product>, isNew: bool, i: nat): Option<FormError>
    requires i <= |items|
    decreases |items| - i
  {
    if i == |items| then None
    else if ItemProblem(items[i], products, isNew).Some? then ItemProblem(items[i], products, isNew)
    else FirstProblemFrom(items, products, isNew, i + 1)
  }

  /** The form's verdict: customer and first item first, then each item in turn. */
  function Verdict(draft: OrderDraft, products: seq<Product>, isNew: bool): Outcome<FormError> {
    if IsBlank(draft.customerName) then Fail(CustomerRequired)
    else if |draft.items| == 0 || draft.items[0].productId == "" then Fail(ItemRequired)
    else match FirstProblemFrom(draft.items, products, isNew, 0)
      case Some(e) => Fail(e)
      case None => Pass
  }

  /** The submit handler's checks: stop at the first item that fails. */
  method CheckOrderSubmission(draft: OrderDraft, products: seq<Product>, isNew: bool) returns (r: Outcome<FormError>)
    ensures r == Verdict(draft, products, isNew)
  {
    if IsBlank(draft.customerName) {
      return Fail(CustomerRequired);
    }
    if |draft.items| == 0 || draft.items[0].productId == "" {
      return Fail(ItemRequired);
    }
    var i := 0;
    while i < |draft.items|
      invariant 0 <= i <= |draft.items|
      invariant FirstProblemFrom(draft.items, products, isNew, 0) == FirstProblemFrom(draft.items, products, isNew, i)
    {
      var problem := ItemProblem(draft.items[i], products, isNew);
      if problem.Some? {
        return Fail(problem.value);
      }
      i := i + 1;
    }
    return Pass;
  }

  lemma ItemProblemNoneIff(item: OrderFormItem, products: seq<Product>, isNew: bool)
    ensures ItemProblem(item, products, isNew).None? <==> ItemAcceptable(item, products, isNew)
  {
  }

  lemma {:induction false} FirstProblemNoneIff(items: seq<OrderFormItem>, products: seq<Product>, isNew: bool, i: nat)
    requires i <= |items|
    ensures FirstProblemFrom(items, products, isNew, i).None? <==>
      forall k | i <= k < |items| :: ItemAcceptable(items[k], products, isNew)
    decreases |items| - i
  {
    if i < |items| {
      ItemProblemNoneIff(items[i], products, isNew);
      FirstProblemNoneIff(items, products, isNew, i + 1);
    }
  }

  /**
    The form submits exactly when the customer name is not blank, the first item has a
    product, and every item is acceptable.
  */
  lemma VerdictPassIff(draft: OrderDraft, products: seq<Product>, isNew: bool)
    ensures Verdict(draft, products, isNew) == Pass <==>
      && !IsBlank(draft.customerName)
      && |draft.items| > 0 && draft.items[0].productId != ""
      && forall k | 0 <= k < |draft.items| :: ItemAcceptable(draft.items[k], products, isNew)
  {
    FirstProblemNoneIff(draft.items, products, isNew, 0);
  }

  // ---------------------------------------------------------------- the request

  /** One item as sent: the name taken from the product when it has one, empty fields as 0. */
  function PayloadItem(item: OrderFormItem, products: seq<Product>): OrderItem {
    var name := match Find(products, ById(item.productId))
      case Some(p) => if p.name != "" then p.name else item.name
      case None => item.name;
    OrderItem(name, Value(item.quantity), Value(item.returned), Value(item.price))
  }

  function PayloadItems(items: seq<OrderFormItem>, products: seq<Product>): seq<OrderItem> {
    seq(|items|, k requires 0 <= k < |items| => PayloadItem(items[k], products))
  }

  /** The create or update request the form sends: its total is the form's own total. */
  function Payload(draft: OrderDraft, products: seq<Product>): OrderController.OrderRequest {
    OrderController.OrderRequest(Some(draft.customerName), PayloadItems(draft.items, products),
                                 Some(draft.orderDate), Some(OrderFormTotal(draft.items)))
  }

  lemma {:induction false} FormTotalIsItemsValue(items: seq<OrderFormItem>, products: seq<Product>)
    ensures OrderFormTotal(items) == ItemsValue(PayloadItems(items, products))
    decreases |items|
  {
    if items != [] {
      assert PayloadItems(items, products)[1..] == PayloadItems(items[1..], products);
      FormTotalIsItemsValue(items[1..], products);
      var p, q, r := Value(items[0].price), Value(items[0].quantity), Value(items[0].returned);
      assert p * q - p * r == p * (q - r);
    }
  }

  /** The total the form sends is the value of the items it sends, net of returns. */
  lemma PayloadTotalIsItemsValue(draft: OrderDraft, products: seq<Product>)
    ensures Payload(draft, products).totalAmount == Some(ItemsValue(Payload(draft, products).items))
  {
    FormTotalIsItemsValue(draft.items, products);
  }

  /**
    A form that passes its checks sends items with a positive quantity and returns
    between 0 and the quantity, so the stored order returns no more than it ordered.
  */
  lemma PassingFormSendsWellFormedItems(draft: OrderDraft, products: seq<Product>, isNew: bool)
    requires Verdict(draft, products, isNew) == Pass
    ensures var items := Payload(draft, products).items;
      && ReturnsWithinQuantity(items)
      && forall k | 0 <= k < |items| :: items[k].quantity > 0 && items[k].returned >= 0
  {
    VerdictPassIff(draft, products, isNew);
  }

  /**
    The form checks each item's gross quantity against the stock on its own, while the
    server debits net quantities one after another. Two items of 3 units on a product
    holding 5 pass the form and fail on the server.
  */
  lemma FormPassesWhatServerRejects()
    ensures var products := [Product("p1", "Flour", 5, 100)];
      var item := OrderFormItem("p1", "Flour", Num(3), Num(0), Num(100));
      var draft := OrderDraft("Ali", [item, item], 0);
      && Verdict(draft, products, true) == Pass
      && DebitAll(map["Flour" := 5], OrderLines(Payload(draft, products).items)) ==
         Err(InsufficientStock("Flour", 2, 3))
  {
    var products := [Product("p1", "Flour", 5, 100)];
    var item := OrderFormItem("p1", "Flour", Num(3), Num(0), Num(100));
    var draft := OrderDraft("Ali", [item, item], 0);
    assert !IsTrimmed(draft.customerName[0]);
    VerdictPassIff(draft, products, true);
    var lines := OrderLines(Payload(draft, products).items);
    assert lines == [Line("Flour", 3), Line("Flour", 3)];
    assert lines[1..] == [Line("Flour", 3)];
    assert map["Flour" := 5]["Flour" := 2] == map["Flour" := 2];
  }

  /**
    The other direction: an item of 6 units with 2 returned needs only 4 units on the
    server, but the form refuses it against a stock of 5 because 6 exceeds it.
  */
  lemma FormRejectsWhatServerAccepts()
    ensures var products := [Product("p1", "Flour", 5, 100)];
      var draft := OrderDraft("Ali", [OrderFormItem("p1", "Flour", Num(6), Num(2), Num(100))], 0);
      && Verdict(draft, products, true) == Fail(NotEnoughInventory("Flour", 5))
      && DebitAll(map["Flour" := 5], OrderLines(Payload(draft, products).items)) == Ok(map["Flour" := 1])
  {
    var products := [Product("p1", "Flour", 5, 100)];
    var draft := OrderDraft("Ali", [OrderFormItem("p1", "Flour", Num(6), Num(2), Num(100))], 0);
    assert !IsTrimmed(draft.customerName[0]);
    var lines := OrderLines(Payload(draft, products).items);
    assert lines == [Line("Flour", 4)];
    assert lines[1..] == [];
    assert map["Flour" := 5]["Flour" := 1] == map["Flour" := 1];
  }

  // ---------------------------------------------------------------- item edits

  datatype OrderItemEdit = SelectProduct(id: string) | SetQuantity(entry: Entry) | SetReturned(entry: Entry)

  /** The item an edit leaves, or the message it shows instead of storing anything. */
  function EditedOrderItem(item: OrderFormItem, edit: OrderItemEdit, products: seq<Product>): Result<OrderFormItem, FormError> {
    match edit
    case SelectProduct(id) =>
      (match Find(products, ById(id))
       case None => Ok(item)
       case Some(p) => Ok(item.(productId := id, price := Num(p.price), name := p.name,
                                quantity := Num(Value(item.quantity)), returned := Num(Value(item.returned)))))
    case SetQuantity(Blank) => Ok(item.(quantity := Empty))
    case SetReturned(Blank) => Ok(item.(returned := Empty))
    case SetReturned(Whole(n)) =>
      if n > Value(item.quantity) then Err(ReturnedAboveQuantity(Value(item.quantity)))
      else Ok(item.(returned := Num(n)))
    case SetQuantity(Whole(n)) =>
      if n < 0 then Err(QuantityNegative)
      else if Value(item.returned) > n then Ok(item.(returned := Num(0), quantity := Num(n)))
      else Ok(item.(quantity := Num(n)))
  }

  /** The item-change handler: it updates the item at `index` in place, or shows a message and stores nothing. */
  method ChangeOrderItem(items: array<OrderFormItem>, index: nat, edit: OrderItemEdit, products: seq<Product>)
    returns (r: Outcome<FormError>)
    requires index < items.Length
    modifies items
    ensures match EditedOrderItem(old(items[index]), edit, products)
      case Ok(item) => r == Pass && items[..] == old(items[..])[index := item]
      case Err(e) => r == Fail(e) && items[..] == old(items[..])
  {
    var current := items[index];
    match edit {
      case SelectProduct(id) =>
        var product := Find(products, ById(id));
        if product.Some? {
          items[index] := current.(productId := id, price := Num(product.value.price), name := product.value.name,
                                   quantity := Num(Value(current.quantity)), returned := Num(Value(current.returned)));
        }
      case SetQuantity(Blank) =>
        items[index] := current.(quantity := Empty);
      case SetReturned(Blank) =>
        items[index] := current.(returned := Empty);
      case SetReturned(Whole(n)) =>
        if n > Value(current.quantity) {
          return Fail(ReturnedAboveQuantity(Value(current.quantity)));
        }
        items[index] := current.(returned := Num(n));
      case SetQuantity(Whole(n)) =>
        if n < 0 {
          return Fail(QuantityNegative);
        }
        if Value(current.returned) > n {
          current := current.(returned := Num(0));
        }
        items[index] := current.(quantity := Num(n));
    }
    r := Pass;
  }

  /**
    The edit rules: returns above the quantity and negative quantities are refused; a
    quantity below the returns resets them to 0; choosing a product copies its price and
    name and keeps the quantities.
  */
  lemma OrderItemEditRules(item: OrderFormItem, products: seq<Product>, n: int, id: string)
    ensures EditedOrderItem(item, SetReturned(Whole(n)), products).Err? <==> n > Value(item.quantity)
    ensures EditedOrderItem(item, SetQuantity(Whole(n)), products).Err? <==> n < 0
    ensures n >= 0 ==> var e := EditedOrderItem(item, SetQuantity(Whole(n)), products).value;
      e.quantity == Num(n) && (Value(e.returned) == 0 <==> Value(item.returned) > n || Value(item.returned) == 0)
    ensures Find(products, ById(id)).Some? ==> var e := EditedOrderItem(item, SelectProduct(id), products).value;
      && e.price == Num(Find(products, ById(id)).value.price) && e.name == Find(products, ById(id)).value.name
      && Value(e.quantity) == Value(item.quantity) && Value(e.returned) == Value(item.returned)
  {
  }

  /** An accepted numeric edit keeps the returns at or below the quantity. */
  lemma EditKeepsReturnsWithinQuantity(item: OrderFormItem, edit: OrderItemEdit, products: seq<Product>)
    requires Value(item.returned) <= Value(item.quantity)
    requires edit.SetQuantity? || edit.SetReturned? ==> edit.entry.Whole?
    requires EditedOrderItem(item, edit, products).Ok?
    ensures Value(EditedOrderItem(item, edit, products).value.returned) <=
            Value(EditedOrderItem(item, edit, products).value.quantity)
  {
  }

  /** Clearing the quantity field keeps the returns, which can then exceed the (empty) quantity. */
  lemma ClearingQuantityKeepsReturns()
    ensures var item := OrderFormItem("p1", "Flour", Num(4), Num(2), Num(100));
      var e := EditedOrderItem(item, SetQuantity(Blank), []).value;
      Value(e.returned) > Value(e.quantity)
  {
  }
}
