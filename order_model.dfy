/**
  The stored order document and the field rules its schema declares. An item's
  `returned` count defaults to 0; an absent value and an explicit 0 behave the same
  everywhere, so the model stores a plain integer.
*/
module OrderModel {
  import opened StockLedger

  datatype OrderItem = OrderItem(name: string, quantity: int, returned: int, price: int)

  datatype Order = Order(
    orderNumber: string,
    customerName: string,
    items: seq<OrderItem>,
    orderDate: int,
    totalAmount: int)

  /**
    The schema's item rules: a name is required, quantity, returned and price are at
    least 0. Nothing relates `returned` to `quantity`.
  */
  predicate ValidItem(item: OrderItem) {
    item.name != "" && item.quantity >= 0 && item.returned >= 0 && item.price >= 0
  }

  /** The schema's order rules: number and customer are required; the total has no lower bound. */
  predicate ValidOrder(order: Order) {
    && order.orderNumber != ""
    && order.customerName != ""
    && forall k | 0 <= k < |order.items| :: ValidItem(order.items[k])
  }

  /** Units an item permanently removes from stock: ordered minus returned. */
  function NetQuantity(item: OrderItem): int {
    item.quantity - item.returned
  }

  /** No item returns more than was ordered (the forms insist on it; the schema does not). */
  predicate ReturnsWithinQuantity(items: seq<OrderItem>) {
    forall k | 0 <= k < |items| :: items[k].returned <= items[k].quantity
  }

  /** The ledger lines of an order: each item's net quantity against its product name. */
  function OrderLines(items: seq<OrderItem>): seq<Line> {
    seq(|items|, k requires 0 <= k < |items| => Line(items[k].name, NetQuantity(items[k])))
  }

  /** The value of the items net of returns: the sum of price times net quantity. */
  function ItemsValue(items: seq<OrderItem>): int
    decreases |items|
  {
    if items == [] then 0 else items[0].price * NetQuantity(items[0]) + ItemsValue(items[1..])
  }

  /** Items that obey the schema and return no more than ordered remove a non-negative number of units. */
  lemma WellFormedItemsHaveNonNegativeLines(items: seq<OrderItem>)
    requires forall k | 0 <= k < |items| :: ValidItem(items[k])
    requires ReturnsWithinQuantity(items)
    ensures NonNegativeUnits(OrderLines(items))
  {
  }

  /** The schema admits an item that returns more than it ordered, and a negative order total. */
  lemma SchemaAllowsOverReturn()
    ensures ValidOrder(Order("001", "A", [OrderItem("P", 1, 3, 10)], 0, -20))
    ensures NetQuantity(OrderItem("P", 1, 3, 10)) < 0
  {
  }
}
