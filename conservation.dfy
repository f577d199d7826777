/**
  Where the stock goes. Every unit a handler takes out of stock is held by a stored
  order or credit, so each product's stock is its starting quantity less what the stored
  records hold of it. Creates, updates and deletes of orders, credit creates and updates,
  and payments keep that balance; deleting a credit does not, since it returns nothing.
*/
module Conservation {
  import opened Wrappers
  import opened StockLedger
  import opened OrderModel
  import opened CreditModel
  import opened OrderController
  import opened CreditController

  /** Every stored record has an id below `bound`. */
  predicate KeysBelow<T>(m: map<nat, T>, bound: nat) {
    forall id | id in m :: id < bound
  }

  /** The lines an order holds against stock: its items' net quantities. */
  function OrderHolding(o: Order): seq<Line> {
    OrderLines(o.items)
  }

  /** The lines a credit holds against stock: its items' quantities. */
  function CreditHolding(c: Credit): seq<Line> {
    CreditLines(c.items)
  }

  /** Units of product `n` held by the record stored under `id`, 0 when there is none. */
  function Held<T>(records: map<nat, T>, lines: T -> seq<Line>, n: string, id: nat): int {
    if id in records then Demand(lines(records[id]), n) else 0
  }

  /** Units of product `n` held by all records with an id below `bound`. */
  function Outstanding<T>(records: map<nat, T>, lines: T -> seq<Line>, n: string, bound: nat): int
    decreases bound
  {
    if bound == 0 then 0 else Outstanding(records, lines, n, bound - 1) + Held(records, lines, n, bound - 1)
  }

  /** Two stores whose records hold the same below `bound` have the same total there. */
  lemma {:induction false} OutstandingAgree<T>(a: map<nat, T>, b: map<nat, T>, lines: T -> seq<Line>, n: string, bound: nat)
    requires forall id: nat | id < bound :: Held(a, lines, n, id) == Held(b, lines, n, id)
    ensures Outstanding(a, lines, n, bound) == Outstanding(b, lines, n, bound)
    decreases bound
  {
    if bound > 0 {
      OutstandingAgree(a, b, lines, n, bound - 1);
    }
  }

  /** Changing what one id below `bound` holds changes the total by exactly that difference. */
  lemma {:induction false} OutstandingChangeOne<T>(a: map<nat, T>, b: map<nat, T>, lines: T -> seq<Line>, n: string,
                                                   bound: nat, id: nat)
    requires id < bound
    requires forall k: nat | k < bound && k != id :: Held(a, lines, n, k) == Held(b, lines, n, k)
    ensures Outstanding(b, lines, n, bound) == Outstanding(a, lines, n, bound) - Held(a, lines, n, id) + Held(b, lines, n, id)
    decreases bound
  {
    if bound - 1 == id {
      OutstandingAgree(a, b, lines, n, bound - 1);
    } else {
      OutstandingChangeOne(a, b, lines, n, bound - 1, id);
    }
  }

  /** Storing a record under `bound` adds what it holds to the total up to `bound + 1`. */
  lemma OutstandingInsert<T>(m: map<nat, T>, lines: T -> seq<Line>, n: string, bound: nat, v: T)
    requires KeysBelow(m, bound)
    ensures Outstanding(m[bound := v], lines, n, bound + 1) == Outstanding(m, lines, n, bound) + Demand(lines(v), n)
  {
    OutstandingAgree(m, m[bound := v], lines, n, bound);
  }

  /** Raising the bound past an id with no record leaves the total unchanged. */
  lemma OutstandingSkip<T>(m: map<nat, T>, lines: T -> seq<Line>, n: string, bound: nat)
    requires bound !in m
    ensures Outstanding(m, lines, n, bound + 1) == Outstanding(m, lines, n, bound)
  {
  }

  /**
    The stock the balance expects: each starting product less the units the orders and
    credits below `bound` hold of it.
  */
  function Expected(initial: Stock, orders: map<nat, Order>, credits: map<nat, Credit>, bound: nat): Stock {
    map n | n in initial ::
      initial[n] - Outstanding(orders, OrderHolding, n, bound) - Outstanding(credits, CreditHolding, n, bound)
  }

  /** The balance: the stock is exactly what the starting stock and the stored records leave. */
  predicate Conserved(initial: Stock, stock: Stock, orders: map<nat, Order>, credits: map<nat, Credit>, bound: nat) {
    stock == Expected(initial, orders, credits, bound)
  }

  /** The balance read product by product. */
  lemma ConservedPointwise(initial: Stock, stock: Stock, orders: map<nat, Order>, credits: map<nat, Credit>, bound: nat)
    ensures Conserved(initial, stock, orders, credits, bound) <==>
      && stock.Keys == initial.Keys
      && forall n | n in stock ::
           stock[n] == initial[n] - Outstanding(orders, OrderHolding, n, bound) - Outstanding(credits, CreditHolding, n, bound)
  {
    var expected := Expected(initial, orders, credits, bound);
    if stock.Keys == initial.Keys && forall n | n in stock :: stock[n] == expected[n] {
      assert stock == expected;
    }
  }

  /** Before any record is stored, the stock is the starting stock. */
  lemma StartConserved(initial: Stock)
    ensures Conserved(initial, initial, map[], map[], 0)
  {
    ConservedPointwise(initial, initial, map[], map[], 0);
  }

  /** A created order, stored under the next id, holds exactly what the create took from stock. */
  lemma CreateOrderConserves(initial: Stock, stock: Stock, orders: map<nat, Order>, credits: map<nat, Credit>,
                             bound: nat, req: OrderRequest, now: int, c: Commit<Order>)
    requires KeysBelow(orders, bound) && KeysBelow(credits, bound)
    requires Conserved(initial, stock, orders, credits, bound)
    requires CreateOrderTx(stock, orders, req, now) == Ok(c)
    ensures Conserved(initial, c.stock, orders[bound := c.record], credits, bound + 1)
  {
    ConservedPointwise(initial, stock, orders, credits, bound);
    ConservedPointwise(initial, c.stock, orders[bound := c.record], credits, bound + 1);
    CreateOrderEffect(stock, orders, req, now);
    var stored := orders[bound := c.record];
    forall n | n in c.stock
      ensures c.stock[n] == initial[n] - Outstanding(stored, OrderHolding, n, bound + 1)
                                       - Outstanding(credits, CreditHolding, n, bound + 1)
    {
      OutstandingInsert(orders, OrderHolding, n, bound, c.record);
      OutstandingSkip(credits, CreditHolding, n, bound);
    }
  }

  /** An order update moves stock by exactly the change in what the order holds. */
  lemma UpdateOrderConserves(initial: Stock, stock: Stock, orders: map<nat, Order>, credits: map<nat, Credit>,
                             bound: nat, id: nat, req: OrderRequest, c: Commit<Order>)
    requires KeysBelow(orders, bound)
    requires Conserved(initial, stock, orders, credits, bound)
    requires UpdateOrderTx(stock, orders, id, req) == Ok(c)
    ensures Conserved(initial, c.stock, orders[id := c.record], credits, bound)
  {
    ConservedPointwise(initial, stock, orders, credits, bound);
    ConservedPointwise(initial, c.stock, orders[id := c.record], credits, bound);
    UpdateOrderNetDelta(stock, orders, id, req);
    var stored := orders[id := c.record];
    forall n | n in c.stock
      ensures c.stock[n] == initial[n] - Outstanding(stored, OrderHolding, n, bound)
                                       - Outstanding(credits, CreditHolding, n, bound)
    {
      OutstandingChangeOne(orders, stored, OrderHolding, n, bound, id);
    }
  }

  /** An order delete returns exactly what the order held. */
  lemma DeleteOrderConserves(initial: Stock, stock: Stock, orders: map<nat, Order>, credits: map<nat, Credit>,
                             bound: nat, id: nat, restocked: Stock)
    requires KeysBelow(orders, bound)
    requires Conserved(initial, stock, orders, credits, bound)
    requires DeleteOrderTx(stock, orders, id) == Ok(restocked)
    ensures Conserved(initial, restocked, orders - {id}, credits, bound)
  {
    ConservedPointwise(initial, stock, orders, credits, bound);
    ConservedPointwise(initial, restocked, orders - {id}, credits, bound);
    DeleteOrderEffect(stock, orders, id);
    var kept := orders - {id};
    forall n | n in restocked
      ensures restocked[n] == initial[n] - Outstanding(kept, OrderHolding, n, bound)
                                         - Outstanding(credits, CreditHolding, n, bound)
    {
      OutstandingChangeOne(orders, kept, OrderHolding, n, bound, id);
    }
  }

  /** A created credit, stored under the next id, holds exactly what the create took from stock. */
  lemma CreateCreditConserves(initial: Stock, stock: Stock, orders: map<nat, Order>, credits: map<nat, Credit>,
                              bound: nat, req: CreditRequest, now: int, c: Commit<Credit>)
    requires KeysBelow(orders, bound) && KeysBelow(credits, bound)
    requires Conserved(initial, stock, orders, credits, bound)
    requires CreateCreditTx(stock, credits, req, now) == Ok(c)
    ensures Conserved(initial, c.stock, orders, credits[bound := c.record], bound + 1)
  {
    ConservedPointwise(initial, stock, orders, credits, bound);
    ConservedPointwise(initial, c.stock, orders, credits[bound := c.record], bound + 1);
    CreateCreditEffect(stock, credits, req, now);
    var stored := credits[bound := c.record];
    assert c.record.items == req.items;
    forall n | n in c.stock
      ensures c.stock[n] == initial[n] - Outstanding(orders, OrderHolding, n, bound + 1)
                                       - Outstanding(stored, CreditHolding, n, bound + 1)
    {
      OutstandingInsert(credits, CreditHolding, n, bound, c.record);
      OutstandingSkip(orders, OrderHolding, n, bound);
    }
  }

  /** A credit update moves stock by exactly the change in what the credit holds. */
  lemma UpdateCreditConserves(initial: Stock, stock: Stock, orders: map<nat, Order>, credits: map<nat, Credit>,
                              bound: nat, id: nat, req: CreditRequest, c: Commit<Credit>)
    requires KeysBelow(credits, bound)
    requires Conserved(initial, stock, orders, credits, bound)
    requires UpdateCreditTx(stock, credits, id, req) == Ok(c)
    ensures Conserved(initial, c.stock, orders, credits[id := c.record], bound)
  {
    ConservedPointwise(initial, stock, orders, credits, bound);
    ConservedPointwise(initial, c.stock, orders, credits[id := c.record], bound);
    UpdateCreditNetDelta(stock, credits, id, req);
    var stored := credits[id := c.record];
    forall n | n in c.stock
      ensures c.stock[n] == initial[n] - Outstanding(orders, OrderHolding, n, bound)
                                       - Outstanding(stored, CreditHolding, n, bound)
    {
      OutstandingChangeOne(credits, stored, CreditHolding, n, bound, id);
    }
  }

  /** A payment keeps the credit's items, so the stock stays balanced. */
  lemma PaymentConserves(initial: Stock, stock: Stock, orders: map<nat, Order>, credits: map<nat, Credit>,
                         bound: nat, id: nat, amount: Option<int>, paymentDate: Option<int>, now: int, paid: Credit)
    requires id in credits
    requires Conserved(initial, stock, orders, credits, bound)
    requires PaymentTx(credits[id], amount, paymentDate, now) == Ok(paid)
    ensures Conserved(initial, stock, orders, credits[id := paid], bound)
  {
    ConservedPointwise(initial, stock, orders, credits, bound);
    ConservedPointwise(initial, stock, orders, credits[id := paid], bound);
    var stored := credits[id := paid];
    assert paid.items == credits[id].items;
    forall n | n in stock
      ensures Outstanding(stored, CreditHolding, n, bound) == Outstanding(credits, CreditHolding, n, bound)
    {
      OutstandingAgree(credits, stored, CreditHolding, n, bound);
    }
  }

  /**
    Deleting a credit keeps the stock its items took, so afterwards each product is short
    of the balance by exactly what that credit held of it, and the balance fails for any
    product the credit held a nonzero quantity of.
  */
  lemma DeleteCreditLeaks(initial: Stock, stock: Stock, orders: map<nat, Order>, credits: map<nat, Credit>,
                          bound: nat, id: nat, n: string)
    requires KeysBelow(credits, bound) && id in credits && n in stock
    requires Conserved(initial, stock, orders, credits, bound)
    ensures stock[n] == initial[n] - Outstanding(orders, OrderHolding, n, bound)
                                   - Outstanding(credits - {id}, CreditHolding, n, bound)
                                   - Demand(CreditLines(credits[id].items), n)
    ensures Demand(CreditLines(credits[id].items), n) != 0 ==> !Conserved(initial, stock, orders, credits - {id}, bound)
  {
    ConservedPointwise(initial, stock, orders, credits, bound);
    ConservedPointwise(initial, stock, orders, credits - {id}, bound);
    OutstandingChangeOne(credits, credits - {id}, CreditHolding, n, bound, id);
  }
}
