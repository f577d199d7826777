/**
  The backend's persistent state and its order and credit handlers. Product stock,
  orders and credits are fields that each handler updates in place. A handler debits and
  credits a working copy of the stock, item by item, as the handlers' loops do, and
  assigns the copy and the record only when every step succeeded: that is the
  all-or-nothing transaction. Record ids stand for the database's fresh object ids.
*/
module Warehouse {
  import opened Wrappers
  import opened Numbering
  import opened StockLedger
  import opened OrderModel
  import opened CreditModel
  import opened OrderController
  import opened CreditController
  import opened Conservation

  predicate OrdersSound(orders: map<nat, Order>) {
    forall id | id in orders :: ValidOrder(orders[id]) && ReturnsWithinQuantity(orders[id].items)
  }

  predicate CreditsSound(credits: map<nat, Credit>) {
    forall id | id in credits :: ValidCredit(credits[id])
  }

  predicate OrderNumbersUnique(orders: map<nat, Order>) {
    forall a, b | a in orders && b in orders && a != b :: orders[a].orderNumber != orders[b].orderNumber
  }

  predicate CreditNumbersUnique(credits: map<nat, Credit>) {
    forall a, b | a in credits && b in credits && a != b :: credits[a].creditNumber != credits[b].creditNumber
  }

  /**
    The ledger's consistency: no product below zero, every stored record within its
    schema, record numbers unique, and no stored order returning more than it ordered.
  */
  predicate Consistent(stock: Stock, orders: map<nat, Order>, credits: map<nat, Credit>) {
    && NonNegative(stock)
    && OrdersSound(orders) && OrderNumbersUnique(orders)
    && CreditsSound(credits) && CreditNumbersUnique(credits)
  }

  /** Storing an order whose number is unused, under a fresh id, keeps the order numbers unique. */
  lemma InsertOrderKeepsNumbersUnique(orders: map<nat, Order>, id: nat, o: Order)
    requires OrderNumbersUnique(orders) && id !in orders && !OrderController.NumberTaken(orders, o.orderNumber)
    ensures OrderNumbersUnique(orders[id := o])
  {
    var stored := orders[id := o];
    forall a, b | a in stored && b in stored && a != b
      ensures stored[a].orderNumber != stored[b].orderNumber
    {
      if a == id { assert orders[b].orderNumber != o.orderNumber; }
      if b == id { assert orders[a].orderNumber != o.orderNumber; }
    }
  }

  /** A successful order create, stored under a fresh id, keeps the ledger consistent when no item over-returns. */
  lemma CreateOrderKeepsConsistent(stock: Stock, orders: map<nat, Order>, credits: map<nat, Credit>,
                                   req: OrderRequest, now: int, id: nat, c: Commit<Order>)
    requires id !in orders
    requires CreateOrderTx(stock, orders, req, now) == Ok(c)
    ensures Consistent(stock, orders, credits) && ReturnsWithinQuantity(req.items) ==>
      Consistent(c.stock, orders[id := c.record], credits)
  {
    if Consistent(stock, orders, credits) && ReturnsWithinQuantity(req.items) {
      CreateOrderEffect(stock, orders, req, now);
      CreateOrderKeepsStockNonNegative(stock, orders, req, now);
      InsertOrderKeepsNumbersUnique(orders, id, c.record);
    }
  }

  /** A successful order update keeps the ledger consistent when no new item over-returns. */
  lemma UpdateOrderKeepsConsistent(stock: Stock, orders: map<nat, Order>, credits: map<nat, Credit>,
                                   id: nat, req: OrderRequest, c: Commit<Order>)
    requires UpdateOrderTx(stock, orders, id, req) == Ok(c)
    ensures Consistent(stock, orders, credits) && ReturnsWithinQuantity(req.items) ==>
      Consistent(c.stock, orders[id := c.record], credits)
  {
    if Consistent(stock, orders, credits) && ReturnsWithinQuantity(req.items) {
      var previous := orders[id];
      WellFormedItemsHaveNonNegativeLines(previous.items);
      CreditBackKeepsNonNegative(stock, OrderLines(previous.items));
      DebitAllKeepsNonNegative(CreditBack(stock, OrderLines(previous.items)), OrderLines(req.items));
    }
  }

  /** A successful order delete keeps the ledger consistent. */
  lemma DeleteOrderKeepsConsistent(stock: Stock, orders: map<nat, Order>, credits: map<nat, Credit>, id: nat,
                                   restocked: Stock)
    requires DeleteOrderTx(stock, orders, id) == Ok(restocked)
    ensures Consistent(stock, orders, credits) ==> Consistent(restocked, orders - {id}, credits)
  {
    if Consistent(stock, orders, credits) {
      WellFormedItemsHaveNonNegativeLines(orders[id].items);
      CreditBackKeepsNonNegative(stock, OrderLines(orders[id].items));
    }
  }

  /** Storing a credit whose number is unused, under a fresh id, keeps the credit numbers unique. */
  lemma InsertCreditKeepsNumbersUnique(credits: map<nat, Credit>, id: nat, cr: Credit)
    requires CreditNumbersUnique(credits) && id !in credits && !CreditController.NumberTaken(credits, cr.creditNumber)
    ensures CreditNumbersUnique(credits[id := cr])
  {
    var stored := credits[id := cr];
    forall a, b | a in stored && b in stored && a != b
      ensures stored[a].creditNumber != stored[b].creditNumber
    {
      if a == id { assert credits[b].creditNumber != cr.creditNumber; }
      if b == id { assert credits[a].creditNumber != cr.creditNumber; }
    }
  }

  /** A successful credit create, stored under a fresh id, keeps the ledger consistent. */
  lemma CreateCreditKeepsConsistent(stock: Stock, orders: map<nat, Order>, credits: map<nat, Credit>,
                                    req: CreditRequest, now: int, id: nat, c: Commit<Credit>)
    requires id !in credits
    requires CreateCreditTx(stock, credits, req, now) == Ok(c)
    ensures Consistent(stock, orders, credits) ==> Consistent(c.stock, orders, credits[id := c.record])
  {
    if Consistent(stock, orders, credits) {
      CreateCreditEffect(stock, credits, req, now);
      CreateCreditKeepsStockNonNegative(stock, credits, req, now);
      InsertCreditKeepsNumbersUnique(credits, id, c.record);
    }
  }

  /** A successful credit update keeps the ledger consistent. */
  lemma UpdateCreditKeepsConsistent(stock: Stock, orders: map<nat, Order>, credits: map<nat, Credit>,
                                    id: nat, req: CreditRequest, c: Commit<Credit>)
    requires UpdateCreditTx(stock, credits, id, req) == Ok(c)
    ensures Consistent(stock, orders, credits) ==> Consistent(c.stock, orders, credits[id := c.record])
  {
    if Consistent(stock, orders, credits) {
      var previous := credits[id];
      CreditItemsHaveNonNegativeLines(previous.items);
      CreditBackKeepsNonNegative(stock, CreditLines(previous.items));
      DebitAllKeepsNonNegative(CreditBack(stock, CreditLines(previous.items)), CreditLines(req.items));
    }
  }

  /** An accepted payment keeps the ledger consistent. */
  lemma PaymentKeepsConsistent(stock: Stock, orders: map<nat, Order>, credits: map<nat, Credit>,
                               id: nat, amount: Option<int>, paymentDate: Option<int>, now: int, paid: Credit)
    requires id in credits
    requires PaymentTx(credits[id], amount, paymentDate, now) == Ok(paid)
    ensures Consistent(stock, orders, credits) ==> Consistent(stock, orders, credits[id := paid])
  {
  }

  /** Storing under the next id keeps every id below the advanced counter. */
  lemma StoreUnderNextId<T>(m: map<nat, T>, next: nat, v: T)
    requires KeysBelow(m, next)
    ensures next !in m && KeysBelow(m[next := v], next + 1)
  {
  }

  /** What storing a created order under the next id keeps: the ids, the consistency (no over-return), the balance. */
  lemma OrderCreated(initial: Stock, stock: Stock, orders: map<nat, Order>, credits: map<nat, Credit>,
                     next: nat, req: OrderRequest, now: int, c: Commit<Order>)
    requires KeysBelow(orders, next) && KeysBelow(credits, next)
    requires CreateOrderTx(stock, orders, req, now) == Ok(c)
    ensures KeysBelow(orders[next := c.record], next + 1) && KeysBelow(credits, next + 1)
    ensures Consistent(stock, orders, credits) && ReturnsWithinQuantity(req.items) ==>
      Consistent(c.stock, orders[next := c.record], credits)
    ensures Conserved(initial, stock, orders, credits, next) ==> Conserved(initial, c.stock, orders[next := c.record], credits, next + 1)
  {
    StoreUnderNextId(orders, next, c.record);
    CreateOrderKeepsConsistent(stock, orders, credits, req, now, next, c);
    if Conserved(initial, stock, orders, credits, next) {
      CreateOrderConserves(initial, stock, orders, credits, next, req, now, c);
    }
  }

  /** What storing a created credit under the next id keeps: the ids, the consistency, the balance. */
  lemma CreditCreated(initial: Stock, stock: Stock, orders: map<nat, Order>, credits: map<nat, Credit>,
                      next: nat, req: CreditRequest, now: int, c: Commit<Credit>)
    requires KeysBelow(orders, next) && KeysBelow(credits, next)
    requires CreateCreditTx(stock, credits, req, now) == Ok(c)
    ensures KeysBelow(orders, next + 1) && KeysBelow(credits[next := c.record], next + 1)
    ensures Consistent(stock, orders, credits) ==> Consistent(c.stock, orders, credits[next := c.record])
    ensures Conserved(initial, stock, orders, credits, next) ==> Conserved(initial, c.stock, orders, credits[next := c.record], next + 1)
  {
    StoreUnderNextId(credits, next, c.record);
    CreateCreditKeepsConsistent(stock, orders, credits, req, now, next, c);
    if Conserved(initial, stock, orders, credits, next) {
      CreateCreditConserves(initial, stock, orders, credits, next, req, now, c);
    }
  }

  class Warehouse {
    var stock: Stock
    var orders: map<nat, Order>
    var credits: map<nat, Credit>
    var nextId: nat
    /** The stock the warehouse started from, against which the balance is kept. */
    ghost var initial: Stock

    /** Every stored record has an id below the next one to hand out. */
    ghost predicate Valid()
      reads this
    {
      KeysBelow(orders, nextId) && KeysBelow(credits, nextId)
    }

    ghost predicate Sound()
      reads this
    {
      Consistent(stock, orders, credits)
    }

    /** Each product's stock is its starting quantity less what the stored records hold. */
    ghost predicate Balanced()
      reads this
    {
      Conserved(initial, stock, orders, credits, nextId)
    }

    constructor (start: Stock)
      ensures Valid() && Balanced()
      ensures stock == start && initial == start && orders == map[] && credits == map[]
      ensures NonNegative(start) ==> Sound()
    {
      stock := start;
      initial := start;
      orders := map[];
      credits := map[];
      nextId := 0;
    }

    method CreateOrder(req: OrderRequest, now: int) returns (r: Result<nat, Error>)
      requires Valid()
      modifies this
      ensures Valid() && credits == old(credits) && initial == old(initial)
      ensures var tx := CreateOrderTx(old(stock), old(orders), req, now);
        if tx.Ok? then
          r == Ok(old(nextId)) && stock == tx.value.stock && orders == old(orders)[old(nextId) := tx.value.record]
        else
          r == Err(tx.error) && stock == old(stock) && orders == old(orders)
      ensures nextId == if r.Ok? then old(nextId) + 1 else old(nextId)
      ensures old(Sound()) && ReturnsWithinQuantity(req.items) ==> Sound()
      ensures old(Balanced()) ==> Balanced()
    {
      var tx := HandleCreateOrder(stock, orders, req, now);
      if tx.Err? {
        return Err(tx.error);
      }
      r := Ok(nextId);
      StoreOrder(req, now, tx.value);
    }

    /** Commits a successful order create: its stock, and the order under the next id. */
    method StoreOrder(req: OrderRequest, now: int, c: Commit<Order>)
      requires Valid() && CreateOrderTx(stock, orders, req, now) == Ok(c)
      modifies this
      ensures Valid() && credits == old(credits) && initial == old(initial)
      ensures stock == c.stock && orders == old(orders)[old(nextId) := c.record] && nextId == old(nextId) + 1
      ensures old(Sound()) && ReturnsWithinQuantity(req.items) ==> Sound()
      ensures old(Balanced()) ==> Balanced()
    {
      OrderCreated(initial, stock, orders, credits, nextId, req, now, c);
      Store(c.stock, orders[nextId := c.record], credits, nextId + 1);
    }

    method UpdateOrder(id: nat, req: OrderRequest) returns (r: Outcome<Error>)
      requires Valid()
      modifies this
      ensures Valid() && credits == old(credits) && nextId == old(nextId) && initial == old(initial)
      ensures var tx := UpdateOrderTx(old(stock), old(orders), id, req);
        if tx.Ok? then
          r == Pass && stock == tx.value.stock && orders == old(orders)[id := tx.value.record]
        else
          r == Fail(tx.error) && stock == old(stock) && orders == old(orders)
      ensures old(Sound()) && ReturnsWithinQuantity(req.items) ==> Sound()
      ensures old(Balanced()) ==> Balanced()
    {
      // The state as the handler finds it; the commit below writes every field back.
      var current, placed, issued, next := stock, orders, credits, nextId;
      ghost var start, balanced := initial, Balanced();
      var tx := HandleUpdateOrder(current, placed, id, req);
      if tx.Err? {
        return Fail(tx.error);
      }
      UpdateOrderKeepsConsistent(current, placed, issued, id, req, tx.value);
      if balanced {
        UpdateOrderConserves(start, current, placed, issued, next, id, req, tx.value);
      }
      stock, orders, credits, nextId := tx.value.stock, placed[id := tx.value.record], issued, next;
      initial := start;
      r := Pass;
    }

    method DeleteOrder(id: nat) returns (r: Outcome<Error>)
      requires Valid()
      modifies this
      ensures Valid() && credits == old(credits) && nextId == old(nextId) && initial == old(initial)
      ensures var tx := DeleteOrderTx(old(stock), old(orders), id);
        if tx.Ok? then
          r == Pass && stock == tx.value && orders == old(orders) - {id}
        else
          r == Fail(tx.error) && stock == old(stock) && orders == old(orders)
      ensures old(Sound()) ==> Sound()
      ensures old(Balanced()) ==> Balanced()
    {
      // The state as the handler finds it; the commit below writes every field back.
      var current, placed, issued, next := stock, orders, credits, nextId;
      ghost var start, balanced := initial, Balanced();
      var tx := HandleDeleteOrder(current, placed, id);
      if tx.Err? {
        return Fail(tx.error);
      }
      DeleteOrderKeepsConsistent(current, placed, issued, id, tx.value);
      if balanced {
        DeleteOrderConserves(start, current, placed, issued, next, id, tx.value);
      }
      stock, orders, credits, nextId := tx.value, placed - {id}, issued, next;
      initial := start;
      r := Pass;
    }

    method CreateCredit(req: CreditRequest, now: int) returns (r: Result<nat, Error>)
      requires Valid()
      modifies this
      ensures Valid() && orders == old(orders) && initial == old(initial)
      ensures var tx := CreateCreditTx(old(stock), old(credits), req, now);
        if tx.Ok? then
          r == Ok(old(nextId)) && stock == tx.value.stock && credits == old(credits)[old(nextId) := tx.value.record]
        else
          r == Err(tx.error) && stock == old(stock) && credits == old(credits)
      ensures nextId == if r.Ok? then old(nextId) + 1 else old(nextId)
      ensures old(Sound()) ==> Sound()
      ensures old(Balanced()) ==> Balanced()
    {
      var tx := HandleCreateCredit(stock, credits, req, now);
      if tx.Err? {
        return Err(tx.error);
      }
      r := Ok(nextId);
      StoreCredit(req, now, tx.value);
    }

    /** Commits a successful credit create: its stock, and the credit under the next id. */
    method StoreCredit(req: CreditRequest, now: int, c: Commit<Credit>)
      requires Valid() && CreateCreditTx(stock, credits, req, now) == Ok(c)
      modifies this
      ensures Valid() && orders == old(orders) && initial == old(initial)
      ensures stock == c.stock && credits == old(credits)[old(nextId) := c.record] && nextId == old(nextId) + 1
      ensures old(Sound()) ==> Sound()
      ensures old(Balanced()) ==> Balanced()
    {
      CreditCreated(initial, stock, orders, credits, nextId, req, now, c);
      Store(c.stock, orders, credits[nextId := c.record], nextId + 1);
    }

    /** Writes a whole new state. */
    method Store(s: Stock, o: map<nat, Order>, c: map<nat, Credit>, n: nat)
      modifies this
      ensures stock == s && orders == o && credits == c && nextId == n && initial == old(initial)
    {
      stock, orders, credits, nextId := s, o, c, n;
    }

    method UpdateCredit(id: nat, req: CreditRequest) returns (r: Outcome<Error>)
      requires Valid()
      modifies this
      ensures Valid() && orders == old(orders) && nextId == old(nextId) && initial == old(initial)
      ensures var tx := UpdateCreditTx(old(stock), old(credits), id, req);
        if tx.Ok? then
          r == Pass && stock == tx.value.stock && credits == old(credits)[id := tx.value.record]
        else
          r == Fail(tx.error) && stock == old(stock) && credits == old(credits)
      ensures old(Sound()) ==> Sound()
      ensures old(Balanced()) ==> Balanced()
    {
      // The state as the handler finds it; the commit below writes every field back.
      var current, placed, issued, next := stock, orders, credits, nextId;
      ghost var start, balanced := initial, Balanced();
      var tx := HandleUpdateCredit(current, issued, id, req);
      if tx.Err? {
        return Fail(tx.error);
      }
      UpdateCreditKeepsConsistent(current, placed, issued, id, req, tx.value);
      if balanced {
        UpdateCreditConserves(start, current, placed, issued, next, id, req, tx.value);
      }
      stock, orders, credits, nextId := tx.value.stock, placed, issued[id := tx.value.record], next;
      initial := start;
      r := Pass;
    }

    /**
      Deleting a credit removes the record and returns no stock, so the stock its items
      took is no longer held by any record: each product falls short of the balance by
      what the deleted credit held of it.
    */
    method DeleteCredit(id: nat) returns (r: Outcome<Error>)
      requires Valid()
      modifies this
      ensures Valid() && stock == old(stock) && orders == old(orders) && nextId == old(nextId)
      ensures initial == old(initial)
      ensures r == (if id in old(credits) then Pass else Fail(RecordNotFound))
      ensures credits == old(credits) - {id}
      ensures old(Sound()) ==> Sound()
      ensures id !in old(credits) ==> (old(Balanced()) ==> Balanced())
      ensures id in old(credits) && old(Balanced()) ==>
        forall n | n in stock ::
          stock[n] == initial[n] - Outstanding(orders, OrderHolding, n, nextId)
                                 - Outstanding(credits, CreditHolding, n, nextId)
                                 - Demand(CreditLines(old(credits)[id].items), n)
    {
      if id !in credits {
        return Fail(RecordNotFound);
      }
      if Balanced() {
        forall n | n in stock
          ensures stock[n] == initial[n] - Outstanding(orders, OrderHolding, n, nextId)
                                         - Outstanding(credits - {id}, CreditHolding, n, nextId)
                                         - Demand(CreditLines(credits[id].items), n)
        {
          DeleteCreditLeaks(initial, stock, orders, credits, nextId, id, n);
        }
      }
      credits := credits - {id};
      r := Pass;
    }

    method AddPayment(id: nat, amount: Option<int>, paymentDate: Option<int>, now: int) returns (r: Outcome<Error>)
      requires Valid()
      modifies this
      ensures Valid() && stock == old(stock) && orders == old(orders) && nextId == old(nextId)
      ensures initial == old(initial)
      ensures id !in old(credits) ==> r == Fail(RecordNotFound) && credits == old(credits)
      ensures id in old(credits) ==>
        var tx := PaymentTx(old(credits)[id], amount, paymentDate, now);
        if tx.Ok? then r == Pass && credits == old(credits)[id := tx.value]
        else r == Fail(tx.error) && credits == old(credits)
      ensures old(Sound()) ==> Sound()
      ensures old(Balanced()) ==> Balanced()
    {
      if id !in credits {
        return Fail(RecordNotFound);
      }
      // The state as the handler finds it; the commit below writes every field back.
      var current, placed, issued, next := stock, orders, credits, nextId;
      ghost var start, balanced := initial, Balanced();
      var tx := HandlePayment(issued[id], amount, paymentDate, now);
      if tx.Err? {
        return Fail(tx.error);
      }
      PaymentKeepsConsistent(current, placed, issued, id, amount, paymentDate, now, tx.value);
      if balanced {
        PaymentConserves(start, current, placed, issued, next, id, amount, paymentDate, now, tx.value);
      }
      stock, orders, credits, nextId := current, placed, issued[id := tx.value], next;
      initial := start;
      r := Pass;
    }
  }
}
