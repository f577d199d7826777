/**
  What the order handlers compute, as functions of the store they start from. Each
  handler runs in one transaction, so it either commits its whole result or changes
  nothing; the `Warehouse` class carries that out. Every `*Tx` function gives the
  committed result or the error that aborts the transaction.
*/
module OrderController {
  import opened Wrappers
  import opened Numbering
  import opened StockLedger
  import opened OrderModel

  /** The fields of a create or update request; absent customer, date and total are `None`. */
  datatype OrderRequest = OrderRequest(
    customerName: Option<string>,
    items: seq<OrderItem>,
    orderDate: Option<int>,
    totalAmount: Option<int>)

  predicate NumberTaken(orders: map<nat, Order>, number: string) {
    exists id | id in orders :: orders[id].orderNumber == number
  }

  /**
    The order a create builds: the request's fields, the date defaulting to now, the total
    taken as sent; an absent customer is stored empty, which the schema then refuses.
  */
  function NewOrder(number: string, req: OrderRequest, now: int): Order {
    Order(number, req.customerName.GetOr(""), req.items, req.orderDate.GetOr(now), req.totalAmount.GetOr(0))
  }

  /** The order an update stores: the fields the request sends over the old ones; the number is kept. */
  function UpdatedOrder(previous: Order, req: OrderRequest): Order {
    previous.(
      customerName := req.customerName.GetOr(previous.customerName),
      items := req.items,
      orderDate := req.orderDate.GetOr(previous.orderDate),
      totalAmount := req.totalAmount.GetOr(previous.totalAmount))
  }

  /**
    Create: number the order from the count of existing orders, debit every item's net
    quantity, then save, which fails on a schema violation (including a missing total)
    or on a number already in use.
  */
  function CreateOrderTx(stock: Stock, orders: map<nat, Order>, req: OrderRequest, now: int): Result<Commit<Order>, Error> {
    var order := NewOrder(RecordNumber(|orders|), req, now);
    match DebitAll(stock, OrderLines(req.items))
    case Err(e) => Err(e)
    case Ok(debited) =>
      match CheckInsert(orders, order, req.totalAmount.Some?)
      case Fail(e) => Err(e)
      case Pass => Ok(Commit(debited, order))
  }

  /**
    What an insert checks before the record is stored: the schema (a total must be
    present), then the unique number.
  */
  function CheckInsert(orders: map<nat, Order>, order: Order, hasTotal: bool): Outcome<Error> {
    if !hasTotal || !ValidOrder(order) then Fail(ValidationFailed)
    else if NumberTaken(orders, order.orderNumber) then Fail(DuplicateNumber(order.orderNumber))
    else Pass
  }

  /**
    Update: credit back the old items' net quantities, debit the new items' net
    quantities, then store the new fields, which must pass the schema.
  */
  function UpdateOrderTx(stock: Stock, orders: map<nat, Order>, id: nat, req: OrderRequest): Result<Commit<Order>, Error> {
    if id !in orders then Err(RecordNotFound)
    else
      var previous := orders[id];
      match Reconcile(stock, OrderLines(previous.items), OrderLines(req.items))
      case Err(e) => Err(e)
      case Ok(reconciled) =>
        var updated := UpdatedOrder(previous, req);
        if !ValidOrder(updated) then Err(ValidationFailed) else Ok(Commit(reconciled, updated))
  }

  /** Delete: credit back every item's net quantity to the products that still exist. */
  function DeleteOrderTx(stock: Stock, orders: map<nat, Order>, id: nat): Result<Stock, Error> {
    if id !in orders then Err(RecordNotFound) else Ok(CreditBack(stock, OrderLines(orders[id].items)))
  }

  /**
    The create handler: number the order, debit the products item by item, then run the
    save checks. It returns what the transaction commits, or the error that aborts it.
  */
  method HandleCreateOrder(stock: Stock, orders: map<nat, Order>, req: OrderRequest, now: int)
    returns (r: Result<Commit<Order>, Error>)
    ensures r == CreateOrderTx(stock, orders, req, now)
  {
    var order := NewOrder(RecordNumber(|orders|), req, now);
    var debited := Debit(stock, OrderLines(req.items));
    if debited.Err? {
      return Err(debited.error);
    }
    var check := CheckInsert(orders, order, req.totalAmount.Some?);
    if check.Fail? {
      return Err(check.error);
    }
    return Ok(Commit(debited.value, order));
  }

  /** The update handler: look the order up, credit back its old items, debit the new ones, then validate. */
  method HandleUpdateOrder(stock: Stock, orders: map<nat, Order>, id: nat, req: OrderRequest)
    returns (r: Result<Commit<Order>, Error>)
    ensures r == UpdateOrderTx(stock, orders, id, req)
  {
    if id !in orders {
      return Err(RecordNotFound);
    }
    var previous := orders[id];
    var restocked := Restock(stock, OrderLines(previous.items));
    var debited := Debit(restocked, OrderLines(req.items));
    if debited.Err? {
      return Err(debited.error);
    }
    var updated := UpdatedOrder(previous, req);
    if !ValidOrder(updated) {
      return Err(ValidationFailed);
    }
    return Ok(Commit(debited.value, updated));
  }

  /** The delete handler: look the order up and credit back its items. */
  method HandleDeleteOrder(stock: Stock, orders: map<nat, Order>, id: nat) returns (r: Result<Stock, Error>)
    ensures r == DeleteOrderTx(stock, orders, id)
  {
    if id !in orders {
      return Err(RecordNotFound);
    }
    var restocked := Restock(stock, OrderLines(orders[id].items));
    return Ok(restocked);
  }

  /**
    A created order debits each product by the net quantity its items demand, keeps
    the request's customer and total as sent (a create lacking either fails), and is
    numbered from the count of existing orders.
  */
  lemma CreateOrderEffect(stock: Stock, orders: map<nat, Order>, req: OrderRequest, now: int)
    requires CreateOrderTx(stock, orders, req, now).Ok?
    ensures var c := CreateOrderTx(stock, orders, req, now).value;
      && c.stock.Keys == stock.Keys
      && (forall n | n in stock :: c.stock[n] == stock[n] - Demand(OrderLines(req.items), n))
      && Some(c.record.totalAmount) == req.totalAmount
      && Some(c.record.customerName) == req.customerName
      && c.record.items == req.items
      && c.record.orderNumber == RecordNumber(|orders|)
      && !NumberTaken(orders, c.record.orderNumber)
      && ValidOrder(c.record)
  {
    DebitAllEffect(stock, OrderLines(req.items));
  }

  /** A create that names a product that does not exist fails, and so commits nothing. */
  lemma CreateOrderNeedsProducts(stock: Stock, orders: map<nat, Order>, req: OrderRequest, now: int, k: nat)
    requires k < |req.items| && req.items[k].name !in stock
    ensures CreateOrderTx(stock, orders, req, now).Err?
  {
    assert OrderLines(req.items)[k].name == req.items[k].name;
  }

  /** A create never leaves a product below zero. */
  lemma CreateOrderKeepsStockNonNegative(stock: Stock, orders: map<nat, Order>, req: OrderRequest, now: int)
    requires NonNegative(stock) && CreateOrderTx(stock, orders, req, now).Ok?
    ensures NonNegative(CreateOrderTx(stock, orders, req, now).value.stock)
  {
    DebitAllKeepsNonNegative(stock, OrderLines(req.items));
  }

  /** Deleting the order a create just stored gives back exactly the stock the create started from. */
  lemma CreateThenDeleteRestoresStock(stock: Stock, orders: map<nat, Order>, req: OrderRequest, now: int, id: nat)
    requires CreateOrderTx(stock, orders, req, now).Ok?
    ensures var c := CreateOrderTx(stock, orders, req, now).value;
      DeleteOrderTx(c.stock, orders[id := c.record], id) == Ok(stock)
  {
    DebitThenCreditBack(stock, OrderLines(req.items));
  }

  /**
    An update moves each product by the difference between the old and new net
    quantities; a request without a customer keeps the stored one.
  */
  lemma UpdateOrderNetDelta(stock: Stock, orders: map<nat, Order>, id: nat, req: OrderRequest)
    requires UpdateOrderTx(stock, orders, id, req).Ok?
    ensures id in orders
    ensures var c := UpdateOrderTx(stock, orders, id, req).value;
      && c.stock.Keys == stock.Keys
      && (forall n | n in stock ::
            c.stock[n] == stock[n] + Demand(OrderLines(orders[id].items), n) - Demand(OrderLines(req.items), n))
      && c.record.orderNumber == orders[id].orderNumber
      && c.record.items == req.items
      && c.record.customerName == req.customerName.GetOr(orders[id].customerName)
  {
    ReconcileIsNetDelta(stock, OrderLines(orders[id].items), OrderLines(req.items));
  }

  /**
    Updating a well-formed order to the items it already has succeeds and leaves every
    product's stock where it was.
  */
  lemma UpdateOrderSameItems(stock: Stock, orders: map<nat, Order>, id: nat, req: OrderRequest)
    requires NonNegative(stock)
    requires id in orders && ValidOrder(orders[id]) && ReturnsWithinQuantity(orders[id].items)
    requires forall k | 0 <= k < |orders[id].items| :: orders[id].items[k].name in stock
    requires req.items == orders[id].items && req.customerName != Some("")
    ensures UpdateOrderTx(stock, orders, id, req) == Ok(Commit(stock, UpdatedOrder(orders[id], req)))
  {
    var lines := OrderLines(req.items);
    WellFormedItemsHaveNonNegativeLines(req.items);
    ReconcileSameLines(stock, lines);
  }

  /** Deleting an existing order never fails and raises each existing product by the order's net quantity. */
  lemma DeleteOrderEffect(stock: Stock, orders: map<nat, Order>, id: nat)
    requires id in orders
    ensures DeleteOrderTx(stock, orders, id).Ok?
    ensures var s := DeleteOrderTx(stock, orders, id).value;
      s.Keys == stock.Keys &&
      forall n | n in stock :: s[n] == stock[n] + Demand(OrderLines(orders[id].items), n)
  {
    CreditBackEffect(stock, OrderLines(orders[id].items));
  }

  /**
    Numbering by count repeats a number once an earlier order is deleted: with orders
    "001" and "002" stored and "001" deleted, the count is 1, the next number is "002"
    again, and every create fails at save until the count moves on.
  */
  lemma CountNumberingCollidesAfterDelete(stock: Stock, second: Order, req: OrderRequest, now: int)
    requires second.orderNumber == "002"
    requires DebitAll(stock, OrderLines(req.items)).Ok?
    requires req.totalAmount.Some? && ValidOrder(NewOrder("002", req, now))
    ensures CreateOrderTx(stock, map[1 := second], req, now) == Err(DuplicateNumber("002"))
  {
    assert |map[1 := second]| == 1;
    assert DecimalString(2) == "2";
    assert RecordNumber(1) == "002";
    assert NumberTaken(map[1 := second], "002") by {
      assert 1 in map[1 := second];
    }
  }

  /**
    The schema lets an item return more than was ordered, and such an order raises
    stock: from 0 units of `p`, an order of 0 items returning `r` leaves `r` in stock.
  */
  lemma OverReturnRaisesStock(stock: Stock, orders: map<nat, Order>, p: string, r: int, first: OrderRequest, now: int)
    requires p in stock && stock[p] == 0 && p != "" && r > 0
    requires first == OrderRequest(Some("A"), [OrderItem(p, 0, r, 1)], None, Some(-r))
    requires !NumberTaken(orders, RecordNumber(|orders|))
    ensures CreateOrderTx(stock, orders, first, now).Ok?
    ensures CreateOrderTx(stock, orders, first, now).value.stock[p] == r
  {
    CreateSingleItem(stock, orders, first, now);
  }

  /**
    Deleting an over-returning order takes its returns back out of stock even when a
    later order has used them, so stock goes below zero although every step succeeds:
    with `r` units of `p` raised by order `id1` (see OverReturnRaisesStock), an order of
    `r` takes stock to 0, and deleting `id1` then leaves `-r`.
  */
  lemma OverReturnDrivesStockNegative(stock: Stock, orders: map<nat, Order>, p: string, r: int, id1: nat, id2: nat,
                                      second: OrderRequest, now: int)
    requires p in stock && stock[p] == r && p != "" && r > 0
    requires id1 in orders && orders[id1].items == [OrderItem(p, 0, r, 1)] && id2 !in orders
    requires second == OrderRequest(Some("A"), [OrderItem(p, r, 0, 1)], None, Some(r))
    requires !NumberTaken(orders, RecordNumber(|orders|))
    ensures var o2 := NewOrder(RecordNumber(|orders|), second, now);
      && CreateOrderTx(stock, orders, second, now) == Ok(Commit(stock[p := 0], o2))
      && DeleteOrderTx(stock[p := 0], orders[id2 := o2], id1).Ok?
      && DeleteOrderTx(stock[p := 0], orders[id2 := o2], id1).value[p] == -r
  {
    var o2 := NewOrder(RecordNumber(|orders|), second, now);
    assert CreateOrderTx(stock, orders, second, now) == Ok(Commit(stock[p := 0], o2)) by {
      CreateSingleItem(stock, orders, second, now);
      assert stock[p] - NetQuantity(second.items[0]) == 0;
    }
    assert orders[id2 := o2][id1] == orders[id1];
    DeleteSingleItem(stock[p := 0], orders[id2 := o2], id1, OrderItem(p, 0, r, 1));
  }

  /** A create of one valid item whose product covers it stores the order and debits that item alone. */
  lemma CreateSingleItem(stock: Stock, orders: map<nat, Order>, req: OrderRequest, now: int)
    requires |req.items| == 1 && ValidItem(req.items[0])
    requires req.items[0].name in stock && stock[req.items[0].name] >= NetQuantity(req.items[0])
    requires req.customerName.Some? && req.customerName.value != "" && req.totalAmount.Some?
    requires !NumberTaken(orders, RecordNumber(|orders|))
    ensures var item := req.items[0];
      CreateOrderTx(stock, orders, req, now)
        == Ok(Commit(stock[item.name := stock[item.name] - NetQuantity(item)], NewOrder(RecordNumber(|orders|), req, now)))
  {
    RecordNumberWidth(|orders|);
    var item := req.items[0];
    var order := NewOrder(RecordNumber(|orders|), req, now);
    assert ValidOrder(order) by {
      assert order.items == req.items;
    }
    assert CheckInsert(orders, order, true) == Pass;
    assert OrderLines(req.items) == [Line(item.name, NetQuantity(item))];
    DebitOneLine(stock, Line(item.name, NetQuantity(item)));
  }

  /** Deleting an order of one item credits that item's net quantity back to its product, if it exists. */
  lemma DeleteSingleItem(stock: Stock, orders: map<nat, Order>, id: nat, item: OrderItem)
    requires id in orders && orders[id].items == [item] && item.name in stock
    ensures DeleteOrderTx(stock, orders, id) == Ok(stock[item.name := stock[item.name] + NetQuantity(item)])
  {
    assert OrderLines(orders[id].items) == [Line(item.name, NetQuantity(item))];
    CreditBackOneLine(stock, Line(item.name, NetQuantity(item)));
  }
}
