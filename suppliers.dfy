/**
  The suppliers page, which keeps supplier credits in memory: total and remaining debt
  computed on submit, numbering by list length, edits and deletion by id, and the
  sanitising item editor. Every operation builds a new list.
*/
module Suppliers {
  import opened FormValues
  import opened Numbering
  import opened ListOps

  datatype SupplierItem = SupplierItem(name: string, quantity: Field, price: Field)

  /** A supplier credit; `paidAmount` is kept as entered, `remainingDebt` as computed on submit. */
  datatype SupplierCredit = SupplierCredit(
    id: int,
    supplierName: string,
    creditNumber: string,
    items: seq<SupplierItem>,
    creditDate: string,
    totalAmount: int,
    paidAmount: Field,
    remainingDebt: int)

  /** Price times quantity summed over the items, empty fields counting as 0. */
  function SupplierTotal(items: seq<SupplierItem>): int
    decreases |items|
  {
    if items == [] then 0 else Value(items[0].price) * Value(items[0].quantity) + SupplierTotal(items[1..])
  }

  /** The total of a list with one more item is the old total plus that item's value. */
  lemma {:induction false} SupplierTotalAppend(items: seq<SupplierItem>, item: SupplierItem)
    ensures SupplierTotal(items + [item]) == SupplierTotal(items) + Value(item.price) * Value(item.quantity)
    decreases |items|
  {
    if items == [] {
      assert [] + [item] == [item];
    } else {
      assert (items + [item])[1..] == items[1..] + [item];
      SupplierTotalAppend(items[1..], item);
    }
  }

  /** The debt submit stores: total less paid, not clamped. */
  function Debt(form: SupplierCredit): int {
    SupplierTotal(form.items) - Value(form.paidAmount)
  }

  /** The remaining debt the form displays while it is being filled in. */
  function DisplayedDebt(form: SupplierCredit): (r: int)
    ensures r >= 0
    ensures r == 0 <==> SupplierTotal(form.items) <= Value(form.paidAmount)
    ensures r > 0 ==> r == SupplierTotal(form.items) - Value(form.paidAmount)
  {
    var difference := SupplierTotal(form.items) - Value(form.paidAmount);
    if difference > 0 then difference else 0
  }

  /** Create: append the form numbered after the list's length, with total and debt computed. */
  function SubmitNew(suppliers: seq<SupplierCredit>, form: SupplierCredit): (r: seq<SupplierCredit>)
    ensures |r| == |suppliers| + 1 && r[..|suppliers|] == suppliers
  {
    suppliers + [form.(id := |suppliers| + 1, creditNumber := RecordNumber(|suppliers|),
                       totalAmount := SupplierTotal(form.items), remainingDebt := Debt(form))]
  }

  /** Edit: every record carrying the edited id becomes the form, keeping its id, with total and debt computed. */
  function SubmitEdit(suppliers: seq<SupplierCredit>, editId: int, form: SupplierCredit): seq<SupplierCredit> {
    seq(|suppliers|, k requires 0 <= k < |suppliers| =>
      if suppliers[k].id == editId
      then form.(id := suppliers[k].id, totalAmount := SupplierTotal(form.items), remainingDebt := Debt(form))
      else suppliers[k])
  }

  /** Delete: keep exactly the records whose id differs. */
  function DeleteSupplier(suppliers: seq<SupplierCredit>, id: int): seq<SupplierCredit> {
    Filter(suppliers, (s: SupplierCredit) => s.id != id)
  }

  /**
    A created record has id length + 1, a number that reads back as length + 1 with at
    least three digits, and total and debt whose difference is the paid amount; the
    display shows that debt clamped at 0.
  */
  lemma SubmitNewNumbering(suppliers: seq<SupplierCredit>, form: SupplierCredit)
    ensures var created := SubmitNew(suppliers, form)[|suppliers|];
      && created.id == |suppliers| + 1
      && IsDigits(created.creditNumber) && ParseDecimal(created.creditNumber) == |suppliers| + 1
      && |created.creditNumber| >= 3
      && created.supplierName == form.supplierName && created.items == form.items
      && created.totalAmount == SupplierTotal(form.items)
      && created.totalAmount - created.remainingDebt == Value(form.paidAmount)
      && DisplayedDebt(form) == if created.remainingDebt > 0 then created.remainingDebt else 0
  {
    RecordNumberRoundTrip(|suppliers|);
    RecordNumberWidth(|suppliers|);
  }

  /** An edit changes only the records with the edited id; those keep their id and take the form's fields, total and debt. */
  lemma SubmitEditReplacesOnlyMatching(suppliers: seq<SupplierCredit>, editId: int, form: SupplierCredit)
    ensures var r := SubmitEdit(suppliers, editId, form);
      && |r| == |suppliers|
      && (forall k | 0 <= k < |suppliers| :: r[k].id == suppliers[k].id)
      && (forall k | 0 <= k < |suppliers| && suppliers[k].id != editId :: r[k] == suppliers[k])
      && (forall k | 0 <= k < |suppliers| && suppliers[k].id == editId ::
            && r[k].creditNumber == form.creditNumber && r[k].supplierName == form.supplierName
            && r[k].items == form.items && r[k].paidAmount == form.paidAmount
            && r[k].totalAmount - r[k].remainingDebt == Value(form.paidAmount)
            && DisplayedDebt(form) == if r[k].remainingDebt > 0 then r[k].remainingDebt else 0)
  {
  }

  /** Paying more than the total stores a negative debt, which the form displays as 0. */
  lemma OverpaymentStoresNegativeDebt(suppliers: seq<SupplierCredit>, form: SupplierCredit)
    requires form.items == [SupplierItem("Product 1", Num(2), Num(10000))] && form.paidAmount == Num(25000)
    ensures SubmitNew(suppliers, form)[|suppliers|].remainingDebt == -5000
    ensures DisplayedDebt(form) == 0
  {
    assert form.items[1..] == [];
    assert SupplierTotal(form.items) == 20000;
    assert Debt(form) == -5000;
  }

  /** A delete keeps every record whose id differs, as many times as it occurred, and nothing else. */
  lemma DeleteRemovesExactlyMatching(suppliers: seq<SupplierCredit>, id: int)
    ensures forall s: SupplierCredit :: s in DeleteSupplier(suppliers, id) <==> s in suppliers && s.id != id
    ensures forall s: SupplierCredit | s.id != id ::
      multiset(DeleteSupplier(suppliers, id))[s] == multiset(suppliers)[s]
  {
    FilterCounts(suppliers, (s: SupplierCredit) => s.id != id);
    forall s ensures s in DeleteSupplier(suppliers, id) <==> s in suppliers && s.id != id {
      FilterMembership(suppliers, (s: SupplierCredit) => s.id != id, s);
    }
  }

  // ---------------------------------------------------------------- item edits

  datatype SupplierItemEdit = SetName(name: string) | SetQuantity(entry: Entry) | SetPrice(entry: Entry)

  function ChangedItem(item: SupplierItem, edit: SupplierItemEdit): SupplierItem {
    match edit
    case SetName(name) => item.(name := name)
    case SetQuantity(e) => item.(quantity := Sanitize(e))
    case SetPrice(e) => item.(price := Sanitize(e))
  }

  /** The item-change handler: a copy of the list with the item at `index` changed. */
  function ChangeItem(items: seq<SupplierItem>, index: nat, edit: SupplierItemEdit): seq<SupplierItem>
    requires index < |items|
  {
    items[index := ChangedItem(items[index], edit)]
  }

  /**
    An edit changes only the item at `index`, and in it only the edited field; an empty
    entry is stored empty and a number is never stored negative.
  */
  lemma ChangeItemRules(items: seq<SupplierItem>, index: nat, edit: SupplierItemEdit)
    requires index < |items|
    ensures var r := ChangeItem(items, index, edit);
      && |r| == |items|
      && (forall k | 0 <= k < |items| && k != index :: r[k] == items[k])
      && (edit.SetName? ==> r[index] == items[index].(name := edit.name))
      && (edit.SetQuantity? ==>
            && r[index] == items[index].(quantity := r[index].quantity)
            && (edit.entry.Blank? <==> r[index].quantity == Empty) && Value(r[index].quantity) >= 0)
      && (edit.SetPrice? ==>
            && r[index] == items[index].(price := r[index].price)
            && (edit.entry.Blank? <==> r[index].price == Empty) && Value(r[index].price) >= 0)
  {
  }

  /** Items whose fields hold sanitised values have a total of at least 0. */
  lemma {:induction false} SanitisedTotalNonNegative(items: seq<SupplierItem>)
    requires forall k | 0 <= k < |items| :: Value(items[k].quantity) >= 0 && Value(items[k].price) >= 0
    ensures SupplierTotal(items) >= 0
    decreases |items|
  {
    if items != [] {
      SanitisedTotalNonNegative(items[1..]);
      assert Value(items[0].price) * Value(items[0].quantity) >= 0;
    }
  }
}
