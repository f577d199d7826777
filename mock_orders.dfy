/**
  The stand-alone orders page, which keeps its orders in memory instead of calling the
  server: numbering by list length, edits by id, deletion by id, and the clamping item
  editor. Every operation builds a new list; none changes its argument.
*/
module MockOrders {
  import opened FormValues
  import opened Numbering
  import opened ListOps
  import opened OrderModel

  /** An item as the page holds it; the numeric fields hold the sanitised entry. */
  datatype MockItem = MockItem(name: string, quantity: Field, returned: Field, price: Field)

  datatype MockOrder = MockOrder(
    id: int,
    orderNumber: string,
    customerName: string,
    items: seq<MockItem>,
    orderDate: string,
    totalAmount: int)

  /** The page's total: price times quantity, less price times returned, summed over the items. */
  function MockTotal(items: seq<MockItem>): int
    decreases |items|
  {
    if items == [] then 0
    else
      var item := items[0];
      Value(item.price) * Value(item.quantity) - Value(item.price) * Value(item.returned) + MockTotal(items[1..])
  }

  /** The page's total is the server's value of the same items net of returns. */
  lemma {:induction false} MockTotalIsItemsValue(items: seq<MockItem>, stored: seq<OrderItem>)
    requires |stored| == |items|
    requires forall k | 0 <= k < |items| ::
      && stored[k].quantity == Value(items[k].quantity)
      && stored[k].returned == Value(items[k].returned)
      && stored[k].price == Value(items[k].price)
    ensures MockTotal(items) == ItemsValue(stored)
    decreases |items|
  {
    if items != [] {
      MockTotalIsItemsValue(items[1..], stored[1..]);
      var p, q, r := Value(items[0].price), Value(items[0].quantity), Value(items[0].returned);
      assert p * q - p * r == p * (q - r);
    }
  }

  // ---------------------------------------------------------------- submit

  /** Create: append the form as an order numbered after the list's length, with its total recomputed. */
  function SubmitNew(orders: seq<MockOrder>, form: MockOrder): (r: seq<MockOrder>)
    ensures |r| == |orders| + 1 && r[..|orders|] == orders
  {
    orders + [form.(id := |orders| + 1, orderNumber := RecordNumber(|orders|), totalAmount := MockTotal(form.items))]
  }

  /** Edit: every order carrying the edited id becomes the form, keeping its id, with the total recomputed. */
  function SubmitEdit(orders: seq<MockOrder>, editId: int, form: MockOrder): seq<MockOrder> {
    seq(|orders|, k requires 0 <= k < |orders| =>
      if orders[k].id == editId then form.(id := orders[k].id, totalAmount := MockTotal(form.items)) else orders[k])
  }

  /** Delete: keep exactly the orders whose id differs. */
  function DeleteOrder(orders: seq<MockOrder>, id: int): seq<MockOrder> {
    Filter(orders, (o: MockOrder) => o.id != id)
  }

  /**
    A created order has id length + 1, a number that reads back as length + 1 with at
    least three digits, the form's customer, items and date, and the total of its items.
  */
  lemma SubmitNewNumbering(orders: seq<MockOrder>, form: MockOrder)
    ensures var created := SubmitNew(orders, form)[|orders|];
      && created.id == |orders| + 1
      && IsDigits(created.orderNumber) && ParseDecimal(created.orderNumber) == |orders| + 1
      && |created.orderNumber| >= 3
      && created.customerName == form.customerName && created.items == form.items
      && created.orderDate == form.orderDate
      && created.totalAmount == MockTotal(form.items)
  {
    RecordNumberRoundTrip(|orders|);
    RecordNumberWidth(|orders|);
  }

  /** Ids 1, 2, ..., n in list order: what creating alone produces. */
  predicate SequentialIds(orders: seq<MockOrder>) {
    forall k | 0 <= k < |orders| :: orders[k].id == k + 1
  }

  predicate UniqueIds(orders: seq<MockOrder>) {
    forall j, k | 0 <= j < k < |orders| :: orders[j].id != orders[k].id
  }

  /** Sequential ids are unique. */
  lemma SequentialIdsAreUnique(orders: seq<MockOrder>)
    requires SequentialIds(orders)
    ensures UniqueIds(orders)
  {
  }

  /** Creating keeps the ids sequential, and so unique. */
  lemma SubmitNewKeepsIdsSequential(orders: seq<MockOrder>, form: MockOrder)
    requires SequentialIds(orders)
    ensures SequentialIds(SubmitNew(orders, form))
    ensures UniqueIds(SubmitNew(orders, form))
  {
    var r := SubmitNew(orders, form);
    forall k | 0 <= k < |r| ensures r[k].id == k + 1 {
      if k < |orders| {
        assert r[k] == r[..|orders|][k];
      }
    }
    SequentialIdsAreUnique(r);
  }

  /** An edit changes only the orders with the edited id; those keep their id and take the form's fields and total. */
  lemma SubmitEditReplacesOnlyMatching(orders: seq<MockOrder>, editId: int, form: MockOrder)
    ensures var r := SubmitEdit(orders, editId, form);
      && |r| == |orders|
      && (forall k | 0 <= k < |orders| :: r[k].id == orders[k].id)
      && (forall k | 0 <= k < |orders| && orders[k].id != editId :: r[k] == orders[k])
      && (forall k | 0 <= k < |orders| && orders[k].id == editId ::
            && r[k].orderNumber == form.orderNumber && r[k].customerName == form.customerName
            && r[k].items == form.items && r[k].orderDate == form.orderDate
            && r[k].totalAmount == MockTotal(form.items))
  {
  }

  /** A delete keeps every order whose id differs, as many times as it occurred, and nothing else. */
  lemma DeleteRemovesExactlyMatching(orders: seq<MockOrder>, id: int)
    ensures forall o: MockOrder :: o in DeleteOrder(orders, id) <==> o in orders && o.id != id
    ensures forall o: MockOrder | o.id != id :: multiset(DeleteOrder(orders, id))[o] == multiset(orders)[o]
  {
    FilterCounts(orders, (o: MockOrder) => o.id != id);
    forall o ensures o in DeleteOrder(orders, id) <==> o in orders && o.id != id {
      FilterMembership(orders, (o: MockOrder) => o.id != id, o);
    }
  }

  /**
    Numbering by length reuses ids: after deleting the first of two orders, the next
    create receives the id and the number the remaining order already has.
  */
  lemma DeleteThenCreateReusesId(a: MockOrder, b: MockOrder, form: MockOrder)
    requires SequentialIds([a, b]) && b.orderNumber == RecordNumber(1)
    ensures var after := SubmitNew(DeleteOrder([a, b], 1), form);
      && |after| == 2
      && after[0] == b
      && after[1].id == b.id
      && after[1].orderNumber == b.orderNumber
      && !UniqueIds(after)
  {
    var keep := (o: MockOrder) => o.id != 1;
    assert [a, b][1..] == [b] && [b][1..] == [];
    assert Filter([b], keep) == [b];
    assert DeleteOrder([a, b], 1) == [b];
    var after := SubmitNew([b], form);
    assert after[1].id == 2;
    assert after[0].id == after[1].id;
  }

  // ---------------------------------------------------------------- item edits

  datatype MockItemEdit = SetName(name: string) | SetQuantity(entry: Entry) | SetReturned(entry: Entry) | SetPrice(entry: Entry)

  /**
    The item an edit leaves: numeric entries are sanitised, and a returned count above
    the item's quantity takes the quantity field instead.
  */
  function ChangedItem(item: MockItem, edit: MockItemEdit): MockItem {
    match edit
    case SetName(name) => item.(name := name)
    case SetQuantity(e) => item.(quantity := Sanitize(e))
    case SetPrice(e) => item.(price := Sanitize(e))
    case SetReturned(e) =>
      if e.Whole? && e.n > Value(item.quantity) then item.(returned := item.quantity)
      else item.(returned := Sanitize(e))
  }

  /** The item-change handler: a copy of the list with the item at `index` changed. */
  function ChangeItem(items: seq<MockItem>, index: nat, edit: MockItemEdit): seq<MockItem>
    requires index < |items|
  {
    items[index := ChangedItem(items[index], edit)]
  }

  /**
    An edit changes only the item at `index`, and in it only the edited field; a numeric
    entry is never stored negative; a returned count above the quantity is clamped to it.
  */
  lemma ChangeItemRules(items: seq<MockItem>, index: nat, edit: MockItemEdit)
    requires index < |items|
    ensures var r := ChangeItem(items, index, edit);
      && |r| == |items|
      && (forall k | 0 <= k < |items| && k != index :: r[k] == items[k])
      && (edit.SetName? ==> r[index] == items[index].(name := edit.name))
      && (edit.SetQuantity? ==>
            && r[index] == items[index].(quantity := r[index].quantity)
            && (edit.entry.Blank? <==> r[index].quantity == Empty) && Value(r[index].quantity) >= 0)
      && (edit.SetPrice? ==>
            && r[index] == items[index].(price := r[index].price)
            && (edit.entry.Blank? <==> r[index].price == Empty) && Value(r[index].price) >= 0)
      && (edit.SetReturned? ==>
            && r[index] == items[index].(returned := r[index].returned)
            && (Value(items[index].quantity) >= 0 ==> 0 <= Value(r[index].returned) <= Value(items[index].quantity)))
  {
  }

  /** Lowering the quantity is not clamped: it can leave the returned count above it. */
  lemma LoweringQuantityKeepsReturned()
    ensures var item := MockItem("Product 1", Num(50), Num(5), Num(25000));
      var changed := ChangeItem([item], 0, SetQuantity(Whole(2)))[0];
      Value(changed.returned) > Value(changed.quantity)
  {
  }
}
