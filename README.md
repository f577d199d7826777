# Warehouse orders and credits: a Dafny model

This project models the core of a small warehouse application. The application has an Express/Mongoose backend and two React frontends.

- **Backend.** Two controllers move product stock as customer orders and customer credits are created, changed and deleted. Credits also take payments.
  - An order's items leave stock by their *net* quantity (ordered minus returned).
  - A credit's items leave stock by their full quantity.
  - Every stock-moving handler runs in a transaction: it commits all its writes or none.
  - Record numbers are the count of records plus one, padded to three digits (`001`, `002`, …).
  - A credit's pre-save hook keeps `remainingAmount = totalAmount - paidAmount` and derives its status (Paid, Overdue, Active).
- **Frontends.** The order and credit forms compute totals, check a submission before sending it, and edit items in place. The credit page also guards the payment request. Two further pages keep orders and supplier credits in memory: they number records by list length, edit and delete by id, and sanitise numeric entries.

Modules, one per file:

| file | module | what it holds |
|---|---|---|
| `wrappers.dfy` | `Wrappers` | `Option`, `Result`, `Outcome` |
| `numbering.dfy` | `Numbering` | decimal strings, left padding, record numbers and their round trip |
| `ledger.dfy` | `StockLedger` | the stock map, the debit loop and the credit-back loop shared by both controllers, with their specifications |
| `order_model.dfy` | `OrderModel` | the order document, its schema rules, its ledger lines and its value |
| `credit_model.dfy` | `CreditModel` | the credit document, its schema rules, the pre-save hook as a function and as a method of `CreditDocument` |
| `order_controller.dfy` | `OrderController` | create, update and delete of orders: a specification function and a handler method for each |
| `credit_controller.dfy` | `CreditController` | create, update and payment of credits, likewise |
| `conservation.dfy` | `Conservation` | the stock balance: starting stock less what the stored orders and credits hold, kept by every handler except the credit delete |
| `warehouse.dfy` | `Warehouse` | the store as a class; every handler commits only on success and preserves the store's consistency and its balance |
| `form_values.dfy` | `FormValues` | form fields that may be empty, sanitising, `trim`, product lookup, form messages |
| `list_ops.dfy` | `ListOps` | `filter` and remove-by-index |
| `order_form.dfy` | `OrderForm` | the order form of the warehouse frontend |
| `credit_form.dfy` | `CreditForm` | the credit form of the warehouse frontend |
| `mock_orders.dfy` | `MockOrders` | the stand-alone in-memory orders page |
| `suppliers.dfy` | `Suppliers` | the in-memory supplier-credit page |

Modelling choices:

- **Store and identifiers.**
  - The database is a value: a stock map from product name to quantity, and maps from record id to order and to credit.
  - A fresh record id is the next unused natural number. It stands for a Mongo ObjectId.
- **Lookups inside a handler.** They see the handler's own earlier writes. For example, a product that appears twice in one order is debited twice, and the second check sees the first debit.
- **Save order.** Saving a document checks the schema first. Then a credit's pre-save hook runs. Then the unique record number is enforced.
- **No hook on update.** `findByIdAndUpdate` runs no save hook, so an updated credit keeps its stored status.
- **Optional request fields.** A request field the client may leave out (customer name, dates, total, paid amount) is an `Option`. A create stores `''` for a missing customer, which the schema then refuses. An update keeps the stored value.
- **Money.** Amounts are whole numbers.
- **Form fields.**
  - A number input delivers either an empty entry or a whole number.
  - The forms store `''` or the number.
  - Arithmetic on a stored field reads `''` as 0 (`Value`).
- **Time.** "Now" is a parameter.

## Model

| member | source | states |
|---|---|---|
| Numbering.RecordNumberRoundTrip | warehouse-backend/controllers/orderController.js:37-38 | the padded number is all digits and reads back as count + 1 |
| Numbering.RecordNumberWidth | warehouse-backend/controllers/creditController.js:37-38 | the number has at least three characters, exactly three below 999 records |
| Numbering.RecordNumberInjective | warehouse-backend/controllers/orderController.js:37-38 | different counts give different numbers |
| StockLedger.DebitAll | warehouse-backend/controllers/orderController.js:50-66 | on success the same products remain and every line names a product; a failure names a line's product that is missing or has less stock than required |
| StockLedger.Debit | warehouse-backend/controllers/creditController.js:49-60 | the per-item loop (look up, check, subtract) computes exactly DebitAll |
| StockLedger.CreditBack | warehouse-backend/controllers/orderController.js:92-100 | adding back keeps the same products and skips unknown names |
| StockLedger.Restock | warehouse-backend/controllers/creditController.js:98-104 | the credit-back loop computes exactly CreditBack |
| StockLedger.DemandNonNegative | warehouse-backend/controllers/orderController.js:57 | lines of non-negative units demand a non-negative amount of every product |
| StockLedger.DemandOfUnmentioned | warehouse-backend/controllers/orderController.js:50-66 | a product no line names is not demanded |
| StockLedger.DebitAllEffect | warehouse-backend/controllers/orderController.js:64 | a successful debit lowers each product by exactly the total its lines demand |
| StockLedger.CreditBackEffect | warehouse-backend/controllers/orderController.js:97 | crediting back raises each product by exactly the total its lines demand |
| StockLedger.DebitAllKeepsNonNegative | warehouse-backend/controllers/orderController.js:59-61 | the stock check means a successful debit never takes a product below 0 |
| StockLedger.CreditBackKeepsNonNegative | warehouse-backend/controllers/orderController.js:92-100 | adding back non-negative units keeps stock non-negative |
| StockLedger.DebitAllSucceedsIff | warehouse-backend/controllers/orderController.js:50-66 | with non-negative lines, the sequential debit succeeds exactly when every product exists and covers its cumulative demand |
| StockLedger.ReconcileIsNetDelta | warehouse-backend/controllers/orderController.js:92-119 | an update moves each product by old demand minus new demand |
| StockLedger.ReconcileSameLines | warehouse-backend/controllers/creditController.js:98-117 | updating with the same lines leaves stock unchanged |
| StockLedger.DebitOneLine | warehouse-backend/controllers/orderController.js:59-64 | a single covered line lowers its product by its units and nothing else |
| StockLedger.CreditBackOneLine | warehouse-backend/controllers/orderController.js:157-163 | a single line credited back raises its product by its units when the product exists, and otherwise changes nothing |
| StockLedger.DebitThenCreditBack | warehouse-backend/controllers/orderController.js:157-165 | crediting back what was debited restores the stock exactly |
| OrderModel.WellFormedItemsHaveNonNegativeLines | warehouse-backend/models/Order.js:8-22 | schema-valid items that return no more than ordered remove non-negative units |
| OrderModel.SchemaAllowsOverReturn | warehouse-backend/models/Order.js:13-22 | the schema accepts returned above quantity, which gives a negative net quantity and a negative total |
| CreditModel.PreSave | warehouse-backend/models/Credit.js:90-103 | after the hook, remaining is total minus paid, and only remaining and status change |
| CreditModel.WithPayment | warehouse-backend/controllers/creditController.js:179-188 | exactly one payment appended, earlier payments kept, paid raised by the amount, remaining recomputed, nothing else changed |
| CreditModel.CreditDocument.RunPreSave | warehouse-backend/models/Credit.js:90-103 | the hook's assignments leave the document equal to PreSave of its old state |
| CreditModel.CreditDocument.RecordPayment | warehouse-backend/controllers/creditController.js:185-187 | push, `+=` and assignment leave the document equal to WithPayment of its old state |
| CreditModel.DeriveStatusCases | warehouse-backend/models/Credit.js:94-100 | Paid iff remaining <= 0; Overdue iff remaining > 0 and a due date earlier than now; Active otherwise |
| CreditModel.PreSaveIdempotent | warehouse-backend/models/Credit.js:90-103 | saving twice at the same moment equals saving once |
| CreditModel.PreSaveStatus | warehouse-backend/models/Credit.js:91-95 | a saved credit is Paid exactly when paid reaches the total |
| CreditModel.CreditItemsHaveNonNegativeLines | warehouse-backend/models/Credit.js:8-17 | schema-valid credit items remove non-negative units |
| CreditModel.CreditTotalNonNegative | warehouse-backend/models/Credit.js:8-17 | schema-valid credit items have a non-negative total |
| OrderController.HandleCreateOrder | warehouse-backend/controllers/orderController.js:31-78 | number, build, debit item by item, then save: exactly CreateOrderTx |
| OrderController.HandleUpdateOrder | warehouse-backend/controllers/orderController.js:81-143 | look up, credit back, debit, then store: exactly UpdateOrderTx |
| OrderController.HandleDeleteOrder | warehouse-backend/controllers/orderController.js:146-177 | look up, credit back the net quantities, then delete: exactly DeleteOrderTx |
| OrderController.CreateOrderEffect | warehouse-backend/controllers/orderController.js:37-68 | a created order debits each product by its net demand, carries the next count number (not already taken), the request's items and total as sent, and obeys the schema |
| OrderController.CreateOrderNeedsProducts | warehouse-backend/controllers/orderController.js:51-54 | an item naming an unknown product fails the create |
| OrderController.CreateOrderKeepsStockNonNegative | warehouse-backend/controllers/orderController.js:59-64 | a create never takes stock below 0 |
| OrderController.CreateThenDeleteRestoresStock | warehouse-backend/controllers/orderController.js:151-167 | deleting the order just created restores the stock it started from |
| OrderController.UpdateOrderNetDelta | warehouse-backend/controllers/orderController.js:86-133 | an update moves each product by old net demand minus new, and keeps the order number |
| OrderController.UpdateOrderSameItems | warehouse-backend/controllers/orderController.js:92-133 | an update with unchanged items leaves stock unchanged |
| OrderController.DeleteOrderEffect | warehouse-backend/controllers/orderController.js:151-167 | deleting an existing order always succeeds and raises each product by the order's net demand |
| OrderController.CountNumberingCollidesAfterDelete | warehouse-backend/controllers/orderController.js:37-38 | after a delete leaves one order numbered 002, the next create is numbered 002 too and fails the unique index |
| OrderController.CreateSingleItem | warehouse-backend/controllers/orderController.js:37-70 | a create of one valid, covered item with a customer and a free number stores the new order and debits that product by the item's net quantity alone |
| OrderController.DeleteSingleItem | warehouse-backend/controllers/orderController.js:151-167 | deleting a one-item order credits the item's net quantity back to its product |
| OrderController.OverReturnRaisesStock | warehouse-backend/controllers/orderController.js:57-64 | an order of 0 units that returns r > 0 passes the stock check and raises the product from 0 to r |
| OrderController.OverReturnDrivesStockNegative | warehouse-backend/controllers/orderController.js:157-163 | after that, a second order of r units takes the product back to 0, and deleting the first order then leaves it at -r |
| CreditController.HandleCreateCredit | warehouse-backend/controllers/creditController.js:31-84 | number, total, debit item by item, then save through the document's pre-save hook: exactly CreateCreditTx |
| CreditController.HandleUpdateCredit | warehouse-backend/controllers/creditController.js:87-145 | look up, credit back, debit, total, remaining, then store: exactly UpdateCreditTx |
| CreditController.HandlePayment | warehouse-backend/controllers/creditController.js:179-190 | record the payment on the document, validate, run the hook: exactly PaymentTx |
| CreditController.CreateCreditEffect | warehouse-backend/controllers/creditController.js:37-75 | a created credit debits each product by its quantity; total is the items' value, paid defaults to 0, remaining = total - paid >= 0, Paid iff remaining is 0, never Overdue, schema-valid |
| CreditController.CreateCreditKeepsStockNonNegative | warehouse-backend/controllers/creditController.js:54-58 | a create never takes stock below 0 |
| CreditController.UpdateCreditNetDelta | warehouse-backend/controllers/creditController.js:92-135 | an update moves each product by old quantity minus new, recomputes the total, keeps number and status, and keeps the customer when none is sent; a non-zero paid amount is stored and remaining becomes the new total less it; with no paid amount the stored one is kept and remaining becomes the new total less that |
| CreditController.UpdateCreditZeroPaidFallsBack | warehouse-backend/controllers/creditController.js:124 | sending paid 0 stores 0 but computes remaining against the old paid amount, so remaining differs from total - paid |
| CreditController.PaymentEffect | warehouse-backend/controllers/creditController.js:179-190 | on a valid credit a payment is accepted iff 0 <= amount <= total - paid; it appends one payment, adds to paid, leaves remaining = total - paid, and is Paid iff it settles the balance |
| CreditController.SettlingPaymentExample | warehouse-backend/controllers/creditController.js:185-190 | on 850000 with 400000 paid, 500000 is refused and 450000 settles the credit |
| Warehouse.InsertOrderKeepsNumbersUnique | warehouse-backend/models/Order.js:26-30 | storing an order whose number is not taken keeps numbers unique |
| Warehouse.InsertCreditKeepsNumbersUnique | warehouse-backend/models/Credit.js:36-40 | likewise for credits |
| Warehouse.CreateOrderKeepsConsistent | warehouse-backend/controllers/orderController.js:31-78 | a create keeps stock non-negative, every order and credit schema-valid, and numbers unique, given items that return no more than ordered |
| Warehouse.UpdateOrderKeepsConsistent | warehouse-backend/controllers/orderController.js:81-143 | likewise for an order update |
| Warehouse.DeleteOrderKeepsConsistent | warehouse-backend/controllers/orderController.js:146-177 | an order delete keeps the store consistent |
| Warehouse.CreateCreditKeepsConsistent | warehouse-backend/controllers/creditController.js:31-84 | a credit create keeps the store consistent |
| Warehouse.UpdateCreditKeepsConsistent | warehouse-backend/controllers/creditController.js:87-145 | a credit update keeps the store consistent |
| Warehouse.PaymentKeepsConsistent | warehouse-backend/controllers/creditController.js:171-195 | a payment keeps the store consistent |
| Conservation.OutstandingAgree | warehouse-backend/controllers/orderController.js:146-177 | stores whose records hold the same units below the bound hold the same total |
| Conservation.OutstandingChangeOne | warehouse-backend/controllers/orderController.js:81-143 | changing the record under one id changes the total held by exactly the difference |
| Conservation.OutstandingInsert | warehouse-backend/controllers/orderController.js:31-78 | storing a record under the bound adds what it holds to the total |
| Conservation.OutstandingSkip | warehouse-backend/controllers/creditController.js:31-84 | an id with no record adds nothing to the total |
| Conservation.ConservedPointwise | warehouse-backend/controllers/orderController.js:50-66 | the balance holds iff the products are the starting ones and each equals its start less what the orders and credits hold of it |
| Conservation.StartConserved | warehouse-backend/controllers/orderController.js:31-78 | with no records stored, the starting stock is balanced |
| Conservation.CreateOrderConserves | warehouse-backend/controllers/orderController.js:31-78 | an order create, stored under the next id, keeps the balance |
| Conservation.UpdateOrderConserves | warehouse-backend/controllers/orderController.js:81-143 | an order update keeps the balance |
| Conservation.DeleteOrderConserves | warehouse-backend/controllers/orderController.js:146-177 | an order delete keeps the balance |
| Conservation.CreateCreditConserves | warehouse-backend/controllers/creditController.js:31-84 | a credit create, stored under the next id, keeps the balance |
| Conservation.UpdateCreditConserves | warehouse-backend/controllers/creditController.js:87-145 | a credit update keeps the balance |
| Conservation.PaymentConserves | warehouse-backend/controllers/creditController.js:171-195 | a payment keeps the balance |
| Conservation.DeleteCreditLeaks | warehouse-backend/controllers/creditController.js:148-168 | after a credit delete each product falls short of the balance by what the credit held of it, so the balance fails whenever the credit held any units |
| Warehouse.StoreUnderNextId | warehouse-backend/controllers/orderController.js:68 | storing under the next id uses a free id and keeps every id below the advanced counter |
| Warehouse.OrderCreated | warehouse-backend/controllers/orderController.js:31-78 | storing a created order keeps ids below the counter, the consistency (when no item over-returns) and the balance |
| Warehouse.CreditCreated | warehouse-backend/controllers/creditController.js:31-84 | storing a created credit keeps ids below the counter, the consistency and the balance |
| Warehouse.Warehouse.CreateOrder | warehouse-backend/controllers/orderController.js:31-78 | all-or-nothing: on success stock and orders become CreateOrderTx's commit under the next id, which then advances; on failure nothing changes, the counter included; consistency (given no over-return) and the balance are preserved |
| Warehouse.Warehouse.StoreOrder | warehouse-backend/controllers/orderController.js:68-69 | writes a successful order create's stock and record under the next id, keeping the invariants |
| Warehouse.Warehouse.UpdateOrder | warehouse-backend/controllers/orderController.js:81-143 | all-or-nothing per UpdateOrderTx; consistency (given no over-return) and the balance preserved |
| Warehouse.Warehouse.DeleteOrder | warehouse-backend/controllers/orderController.js:146-177 | all-or-nothing per DeleteOrderTx: stock credited back and the order removed, or nothing changes; consistency and the balance preserved |
| Warehouse.Warehouse.CreateCredit | warehouse-backend/controllers/creditController.js:31-84 | all-or-nothing per CreateCreditTx under the next id, which advances only on success; consistency and the balance preserved |
| Warehouse.Warehouse.StoreCredit | warehouse-backend/controllers/creditController.js:75-76 | writes a successful credit create's stock and record under the next id, keeping the invariants |
| Warehouse.Warehouse.UpdateCredit | warehouse-backend/controllers/creditController.js:87-145 | all-or-nothing per UpdateCreditTx; consistency and the balance preserved |
| Warehouse.Warehouse.DeleteCredit | warehouse-backend/controllers/creditController.js:148-168 | removes exactly that credit, returns no stock, reports a missing id; consistency kept; afterwards each product is short of the balance by what the credit held |
| Warehouse.Warehouse.AddPayment | warehouse-backend/controllers/creditController.js:171-195 | a missing id changes nothing; otherwise the credit becomes PaymentTx's result or stays as it was; stock and orders untouched; consistency and the balance preserved |
| FormValues.Sanitize | src/components/Orders.js:176-187 | an empty entry stays empty, a negative number becomes 0, other numbers are kept, so the value is never negative |
| FormValues.Find | warehouse-frontend/src/components/Orders.js:176 | none iff no product matches the key (the order form's id, the credit form's name); otherwise the first product that matches |
| ListOps.Filter | src/components/Orders.js:119-125 | the result holds only accepted elements and is no longer than the input |
| ListOps.FilterCounts | src/components/Orders.js:119-125 | every accepted element is kept as many times as it occurs; every other element is dropped |
| ListOps.FilterAppend | src/components/Orders.js:119-125 | filtering keeps the original order |
| ListOps.FilterMembership | warehouse-frontend/src/components/Suppliers.js:111-117 | an element survives iff it was present and accepted |
| ListOps.RemoveAt | src/components/Orders.js:165-171 | removing position i leaves the elements before and after it, in order; an index outside the list removes nothing |
| ListOps.RemoveAtShifts | warehouse-frontend/src/components/Orders.js:248-254 | one element fewer, earlier elements in place, later ones shifted down by one |
| OrderForm.OrderFormTotalAppend | warehouse-frontend/src/components/Orders.js:36-42 | each item adds price*quantity - price*returned to the running total |
| OrderForm.CheckOrderSubmission | warehouse-frontend/src/components/Orders.js:164-202 | the loop with early returns yields exactly the verdict: customer, first item, then the first failing item |
| OrderForm.ItemProblemNoneIff | warehouse-frontend/src/components/Orders.js:176-201 | an item passes iff its product exists, quantity > 0, 0 <= returned <= quantity, and for new orders quantity <= stock |
| OrderForm.FirstProblemNoneIff | warehouse-frontend/src/components/Orders.js:175-202 | no item from position i fails iff every such item is acceptable |
| OrderForm.VerdictPassIff | warehouse-frontend/src/components/Orders.js:164-202 | the form submits iff the customer is not blank, the first item has a product, and every item is acceptable |
| OrderForm.FormTotalIsItemsValue | warehouse-frontend/src/components/Orders.js:204-215 | the form's total equals the server's net value of the items it sends |
| OrderForm.PayloadTotalIsItemsValue | warehouse-frontend/src/components/Orders.js:204-215 | the total sent agrees with the items sent |
| OrderForm.PassingFormSendsWellFormedItems | warehouse-frontend/src/components/Orders.js:175-213 | a passing form sends positive quantities and returns between 0 and the quantity |
| OrderForm.FormPassesWhatServerRejects | warehouse-frontend/src/components/Orders.js:198-201 | two items of 3 on a stock of 5 pass the per-item gross check but fail the server's cumulative debit |
| OrderForm.FormRejectsWhatServerAccepts | warehouse-frontend/src/components/Orders.js:198-201 | 6 ordered with 2 returned on a stock of 5 is refused by the form but would leave 1 on the server |
| OrderForm.ChangeOrderItem | warehouse-frontend/src/components/Orders.js:256-304 | the in-place edit of the item at index gives exactly EditedOrderItem, or leaves the array unchanged and reports the message |
| OrderForm.OrderItemEditRules | warehouse-frontend/src/components/Orders.js:259-297 | returned above quantity and negative quantity are refused; a quantity below returned resets it to 0; choosing a product copies price and name and keeps both counts |
| OrderForm.EditKeepsReturnsWithinQuantity | warehouse-frontend/src/components/Orders.js:278-295 | an accepted numeric edit keeps returned <= quantity |
| OrderForm.ClearingQuantityKeepsReturns | warehouse-frontend/src/components/Orders.js:274-275 | clearing the quantity keeps the returned count, which then exceeds it |
| CreditForm.FormRemaining | warehouse-frontend/src/components/Credits.js:297-301 | never negative; 0 iff paid covers the total; otherwise total - paid |
| CreditForm.CreditFormTotalAppend | warehouse-frontend/src/components/Credits.js:288-294 | each item adds quantity*price, empty fields counting 0 |
| CreditForm.FormTotalMatchesServer | warehouse-backend/controllers/creditController.js:41-43 | the form's total equals the server's total of the same quantities and prices |
| CreditForm.CheckCreditSubmission | warehouse-frontend/src/components/Credits.js:307-332 | the loop with early returns yields exactly the verdict |
| CreditForm.FirstProblemNoneIff | warehouse-frontend/src/components/Credits.js:318-332 | no item from position i fails iff every such item is acceptable |
| CreditForm.VerdictPassIff | warehouse-frontend/src/components/Credits.js:307-332 | the form submits iff the customer is not blank, the first item is named, and every item names a product with 0 < quantity <= stock |
| CreditForm.ChangeCreditItem | warehouse-frontend/src/components/Credits.js:157-190 | the in-place edit gives exactly EditedCreditItem, or leaves the array unchanged and reports the message |
| CreditForm.CreditItemEditRules | warehouse-frontend/src/components/Credits.js:160-183 | a quantity above the named product's stock is refused; accepted numbers are never negative; choosing a product copies its price and stock and keeps the quantity |
| CreditForm.PaymentGuard | warehouse-frontend/src/components/Credits.js:352-362 | the guard passes iff 0 < amount <= remaining |
| CreditForm.GuardedPaymentIsAccepted | warehouse-frontend/src/components/Credits.js:350-364 | on a credit whose remaining is total - paid, a guarded payment is accepted by the server and leaves remaining >= 0 |
| CreditForm.GuardStricterThanServer | warehouse-frontend/src/components/Credits.js:354-357 | a payment of 0 is refused by the guard though the server accepts it |
| MockOrders.MockTotalIsItemsValue | src/components/Orders.js:32-38 | the page's total is the net value of the same items |
| MockOrders.SubmitNew | src/components/Orders.js:138-145 | create appends one order and keeps the existing ones |
| MockOrders.SubmitNewNumbering | src/components/Orders.js:138-145 | the new order has id length + 1, a number reading back as length + 1, the form's fields, and the recomputed total |
| MockOrders.SubmitNewKeepsIdsSequential | src/components/Orders.js:138-145 | creating after creates keeps ids 1..n, hence unique |
| MockOrders.SubmitEditReplacesOnlyMatching | src/components/Orders.js:128-137 | an edit changes only the orders with that id; they keep their id and take the form's fields and recomputed total |
| MockOrders.DeleteRemovesExactlyMatching | src/components/Orders.js:119-125 | delete keeps exactly the orders with another id, with their multiplicities |
| MockOrders.DeleteThenCreateReusesId | src/components/Orders.js:119-145 | deleting the first of two orders then creating reuses the remaining order's id and number |
| MockOrders.ChangeItemRules | src/components/Orders.js:173-205 | only the item at index and only the edited field change; numbers are never stored negative; returned above quantity is clamped to it |
| MockOrders.LoweringQuantityKeepsReturned | src/components/Orders.js:173-205 | lowering the quantity does not clamp returned, which can then exceed it |
| Suppliers.SupplierTotalAppend | warehouse-frontend/src/components/Suppliers.js:28-32 | each item adds price*quantity |
| Suppliers.DisplayedDebt | warehouse-frontend/src/components/Suppliers.js:513 | never negative; 0 iff paid covers the total; otherwise total - paid |
| Suppliers.SubmitNew | warehouse-frontend/src/components/Suppliers.js:135-143 | create appends one record and keeps the existing ones |
| Suppliers.SubmitNewNumbering | warehouse-frontend/src/components/Suppliers.js:119-143 | the new record has id length + 1, a number reading back as length + 1, total minus debt equal to paid, and the display shows that debt clamped at 0 |
| Suppliers.SubmitEditReplacesOnlyMatching | warehouse-frontend/src/components/Suppliers.js:119-134 | an edit changes only the records with that id; they keep their id, take the form's fields, and total minus debt equals paid |
| Suppliers.OverpaymentStoresNegativeDebt | warehouse-frontend/src/components/Suppliers.js:120-122 | paying 25000 on a total of 20000 stores a debt of -5000 while the display shows 0 |
| Suppliers.DeleteRemovesExactlyMatching | warehouse-frontend/src/components/Suppliers.js:111-117 | delete keeps exactly the records with another id, with their multiplicities |
| Suppliers.ChangeItemRules | warehouse-frontend/src/components/Suppliers.js:171-196 | only the item at index and only the edited field change; empty stays empty; numbers are never stored negative |
| Suppliers.SanitisedTotalNonNegative | warehouse-frontend/src/components/Suppliers.js:28-32 | items holding sanitised values total at least 0 |

## Left out

- Sessions, HTTP and I/O are not modelled: MongoDB sessions, Express request and response handling, status codes, logging and the axios client. A transaction is modelled as commit-all-or-leave-unchanged.
- Concurrency is not modelled. Product lookups inside a handler are not bound to its session; the model lets them see the handler's own earlier writes and nothing else.
- Authentication middleware, the seed script, routes, the read-only handlers (`getOrders`, `getOrder`, `getCredits`, `getCredit`) and the Product schema are not part of this model. A product is a name and a quantity.
- Dates and timestamps: dates are integers, "now" is a parameter, and `createdAt`/`updatedAt` are not modelled.
- Free-text fields (`phoneNumber`, `notes`) are not modelled, nor any request field the update spreads in other than the modelled ones, such as an `orderNumber` or `status` sent by a client.
- Update validators (`runValidators`) are approximated by checking the whole updated document against the schema.
- Floating point: amounts are whole numbers, and `parseFloat` of a fractional price or paid amount is not modelled. Neither is `NaN` from an unparsable entry: a number input delivers either an empty entry or a whole number.
- Types the schema would cast or reject (strings for numbers, a missing item name) are outside the model; requests carry typed fields.
- The React state updates, dialogs, alerts and rendering are not modelled. Aliasing between the copied items array and the item objects it shares with the previous state is not modelled either: each edit writes the array slot.
- Both Inventory components are not part of this model.
- Over-returns: the schema and the controllers accept an item that returns more than it ordered. For such orders the model proves no non-negative stock: `Warehouse.Warehouse.CreateOrder`, `Warehouse.Warehouse.UpdateOrder` and `Warehouse.CreateOrderKeepsConsistent` keep the store consistent only for requests whose items return no more than they order, and `OrderController.OverReturnDrivesStockNegative` shows a product driven below 0.
- Warehouse.Warehouse.DeleteCredit: the balance is not preserved, because the handler returns no stock for the deleted credit's items. The method states the shortfall instead.

