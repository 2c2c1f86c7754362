# Movement ledger of the inventory management API

This project models the movement ledger of the inventory management API: the part of
`MovementViewSet` that keeps one integer stock balance per (product, warehouse) pair and changes
those balances as a side effect of creating, updating and deleting movements (IN receives stock,
OUT issues it, TRANSFER moves it between two warehouses).

The model follows the code as written, including its defects. The modules are:

- `Movements` (movements.dfy): the movement record, its three types, the validated fields of an
  update request (`Patch`), how an update merges those fields into the stored movement, and the
  warehouse rules that create enforces (`WellShaped`).
- `Inventory` (inventory.dfy): the table of Inventory rows as a `map<(ProductId, WarehouseId), int>`.
  It also holds get-or-create (`Touch`) and the total stock of a product (`Stock`).
- `Sums` (sums.dfy): finite sums over sets, with the induction lemmas that make them usable.
- `Steps` (steps.dfy): create, update and delete as functions from the table before a request to
  the table after it, plus the outcome.
- `Ledger` (ledger.dfy): the class `MovementLedger`. Its fields are the balances, the stored
  movements and the next movement id. Its methods `Create`, `Update` and `Delete` read rows into
  locals, change them and write them back, in the order the code does. Each method is proved to
  compute exactly the corresponding step function.
- `Properties` (properties.dfy): per-type lemmas on what each request does. They cover shape
  checks, stock checks, reversal, conservation of a product's total, and rows that are left alone.
- `History` (history.dfy): the ledger reading of the table. A table is consistent when every
  balance is its starting value plus the signed sum of the effects of the stored movements. These
  lemmas show which requests keep the table consistent.
- `Defects` (defects.dfy): lemmas that exhibit the ways update and delete, as written, corrupt
  the table.
- `Intended` (intended.dfy): corrected update and delete, with consistency and non-negativity
  proved for every movement type.

Error kinds: `InvalidShape`, `InsufficientStock` and `NotFound` are the code's 400 and 404
answers. `MissingRow` is an `Inventory.objects.get` that finds no row. `NullWarehouse` stands for
creating an Inventory row with no warehouse, which the schema refuses.

A request that fails on a stock check can still leave behind an empty row created by
get-or-create. The model keeps that row, because the code uses no transaction.

The code departs from a consistent, non-negative ledger in these ways, and the model keeps each:

- Quantities are not checked to be positive. A negative IN lowers a balance, and a negative OUT
  raises one.
- Delete and IN update make no stock check.
- A TRANSFER update neither reverses the stored movement nor rejects equal warehouses.
- An IN or OUT update applies only the change in quantity at one row, even when it changes the
  type, the product or the warehouse, and it can store a movement with no warehouse at all.
- Nothing runs in a transaction, so rows materialised before a failing check stay.

## Model

| member | source | states |
|---|---|---|
| `Movements.WellShaped` | project/inventory/viewsets.py:78-131 | the warehouse rules of create: IN names only a destination, OUT only an origin, TRANSFER two different warehouses; a well-formed movement names at least one warehouse and never the same one twice |
| `Movements.Merge` | project/inventory/viewsets.py:188-192 | every field the request gives (type, product, quantity, either warehouse, a warehouse possibly as null) replaces the stored one, and every field it leaves out keeps its stored value; a request with no fields gives back the stored movement |
| `Inventory.Touch` | project/inventory/viewsets.py:86-89 | get-or-create: the row exists afterwards and holds the old balance (0 when absent); every other row keeps its value |
| `Steps.CreateStep` | project/inventory/viewsets.py:69-158 | create changes no row outside the movement's own rows and deletes none; it fails with InvalidShape exactly when the warehouses do not fit the type |
| `Steps.UpdateStep` | project/inventory/viewsets.py:184-275 | update changes only rows of the new product at warehouses named by the stored or the updated movement, and deletes no row |
| `Steps.DeleteStep` | project/inventory/viewsets.py:160-182 | delete changes only the movement's own rows; on success it creates no row |
| `Ledger.MovementLedger.GetOrCreate` | project/inventory/viewsets.py:86-89 | the row for (product, warehouse) exists afterwards, and its value is returned: the old balance, or 0 for a new row; the stored movements are untouched |
| `Ledger.MovementLedger.Store` | project/inventory/viewsets.py:94-95 | the movement is stored under a new id that no stored movement has, and the next id moves on by one; balances are untouched |
| `Ledger.MovementLedger.Create` | project/inventory/viewsets.py:69-158 | the new table is the one CreateStep gives; the movement is stored under a fresh id exactly when create succeeds, and only then is an id used up; on an error no movement is stored |
| `Ledger.MovementLedger.Update` | project/inventory/viewsets.py:184-275 | an unknown id is NotFound and changes nothing; otherwise the table is the one UpdateStep gives, and the merged movement replaces the stored one exactly on success |
| `Ledger.MovementLedger.Delete` | project/inventory/viewsets.py:160-182 | an unknown id is NotFound and changes nothing; otherwise the table is the one DeleteStep gives, and the movement is removed exactly on success |
| `Properties.CreateInCredits` | project/inventory/viewsets.py:78-97 | a well-formed IN succeeds and raises the destination by the quantity (from a new zero row if needed); no other row changes |
| `Properties.CreateRejectsShape` | project/inventory/viewsets.py:78-131 | a create whose warehouses do not fit its type is InvalidShape and changes no row |
| `Properties.CreateOutChecksStock` | project/inventory/viewsets.py:98-123 | a well-formed OUT succeeds if and only if the origin holds at least the quantity; on success the origin drops by the quantity and is not negative; on failure only an empty origin row may appear |
| `Properties.CreateTransferMoves` | project/inventory/viewsets.py:124-158 | a well-formed TRANSFER succeeds if and only if the origin covers the quantity; on success the origin falls and the destination rises by the quantity, the origin is not negative and every product's total is kept; on failure only an empty origin row may appear |
| `Properties.CreateKeepsNonnegative` | project/inventory/viewsets.py:91-152 | from a table with no negative row, a create of a non-negative quantity leaves no negative row, whether or not it succeeds |
| `Properties.InThenOutRestores` | project/inventory/viewsets.py:78-123 | an IN of q then an OUT of q at the same row both succeed and give back the original balance |
| `Properties.UpdateInAdjusts` | project/inventory/viewsets.py:195-215 | an update into an IN with an origin is InvalidShape; with no destination anywhere it is NullWarehouse; otherwise new minus old quantity is added at the new destination, or at the stored one, with no stock check |
| `Properties.UpdateOutAdjusts` | project/inventory/viewsets.py:216-241 | an update into an OUT with a destination is InvalidShape; with no origin anywhere it is NullWarehouse; otherwise new minus old quantity is taken from the origin if and only if the balance there covers it, and on failure only an empty row may appear |
| `Properties.UpdateTransferRules` | project/inventory/viewsets.py:242-275 | an update into a TRANSFER needs both warehouses, an existing origin row, and an origin holding the new quantity; on success between distinct warehouses the full new quantity moves and the product's total is kept |
| `Properties.DeleteInOutReverses` | project/inventory/viewsets.py:160-182 | deleting a well-formed IN subtracts its quantity at the destination, and deleting an OUT adds it back at the origin, with no check; a missing row is MissingRow and changes nothing |
| `Properties.DeleteTransferCreditsDestination` | project/inventory/viewsets.py:160-182 | deleting a well-formed TRANSFER only adds its quantity at the destination and leaves the origin as it was; a missing destination row is MissingRow |
| `Properties.ReceiveTransferIssueScenario` | project/inventory/viewsets.py:78-158 | receive 10 at X, transfer 4 to Y, then issue 7 from X: balances 10, then 6 and 4; the issue is InsufficientStock and changes nothing; an IN naming an origin is InvalidShape |
| `History.CreateApplies` | project/inventory/viewsets.py:69-158 | a successful create changes each balance by exactly the movement's signed effect there; a failed one changes no balance |
| `History.CreateKeepsConsistent` | project/inventory/viewsets.py:69-158 | create keeps every balance equal to its start plus the signed sum of the stored movements |
| `History.DeleteInOutKeepsConsistent` | project/inventory/viewsets.py:160-172 | deleting a well-formed IN or OUT keeps the table consistent with the remaining movements |
| `History.UpdateInOutKeepsConsistent` | project/inventory/viewsets.py:195-241 | updating a well-formed IN or OUT without changing its type, product or warehouses keeps the table consistent with the updated movement |
| `History.CreateThenDeleteRestores` | project/inventory/viewsets.py:78-123 | creating a well-formed IN or OUT and then deleting it gives back every balance |
| `Defects.CreateThenDeleteTransferCorrupts` | project/inventory/viewsets.py:173-179 | after creating and deleting a TRANSFER, the origin is still short by the quantity and the destination holds it twice |
| `Defects.DeleteTransferExample` | project/inventory/viewsets.py:173-179 | 10 at warehouse 1, transfer 4 to warehouse 2, delete: 6 and 8 |
| `Defects.UpdateTransferIgnoresStored` | project/inventory/viewsets.py:242-273 | a successful TRANSFER update between distinct warehouses equals a fresh create of the updated movement; the stored movement is never reversed |
| `Defects.UpdateTransferDoubleCounts` | project/inventory/viewsets.py:242-273 | after a quantity-only TRANSFER update, the origin is short and the destination is over by the stored quantity, measured against the stored movements |
| `Defects.UpdateTransferSameWarehouseInflates` | project/inventory/viewsets.py:243-270 | a TRANSFER update with equal warehouses succeeds and raises the row by the quantity, so the product's total grows |
| `Defects.UpdateInMoveStrandsStock` | project/inventory/viewsets.py:195-210 | moving a stored IN to another warehouse succeeds but leaves its quantity at the old warehouse, where no stored movement accounts for it |
| `Defects.UpdateInToOutKeepsBalance` | project/inventory/viewsets.py:216-239 | turning a stored IN into an OUT at the same warehouse succeeds exactly when the row is not negative and never changes it, leaving it twice the quantity above the stored movements |
| `Defects.UpdateInNullDestinationBlocksDelete` | project/inventory/viewsets.py:195-213 | an IN update giving a null destination adjusts the stored destination and stores a movement with no warehouse, whose every later delete is MissingRow |
| `Defects.DeleteInGoesNegative` | project/inventory/viewsets.py:169-170 | deleting a receipt of 10 when 2 remain leaves -8 |
| `Defects.UpdateInGoesNegative` | project/inventory/viewsets.py:208-210 | changing a receipt of 10 to 0 when 2 remain leaves -8 |
| `Intended.ApplyUndo` | project/inventory/viewsets.py:160-182 | taking a movement back after posting it gives every balance back, the reversal a delete is meant to perform |
| `Intended.ApplyOutsideRows` | project/inventory/viewsets.py:160-182 | posting or taking back a movement leaves every balance outside the movement's own rows as it was |
| `Intended.IntendedDelete` | project/inventory/viewsets.py:160-182 | the corrected delete either succeeds or fails with InsufficientStock and changes nothing |
| `Intended.IntendedUpdate` | project/inventory/viewsets.py:184-275 | the corrected update is InvalidShape exactly when the merged movement is ill-formed; any failure changes nothing |
| `Intended.IntendedDeleteKeepsConsistent` | project/inventory/viewsets.py:160-182 | the corrected delete keeps the table consistent with the remaining movements, for every type |
| `Intended.IntendedUpdateKeepsConsistent` | project/inventory/viewsets.py:184-275 | the corrected update keeps the table consistent with the updated movements, for every type |
| `Intended.IntendedDeleteKeepsNonnegative` | project/inventory/viewsets.py:160-182 | the corrected delete never leaves a negative row |
| `Intended.IntendedUpdateKeepsNonnegative` | project/inventory/viewsets.py:184-275 | the corrected update never leaves a negative row |
| `Intended.CreateThenIntendedDeleteRestores` | project/inventory/viewsets.py:69-182 | with the corrected delete, creating any movement, of any type and quantity, whose rows are not negative and then deleting it gives back every balance, TRANSFER included |
| `Intended.IntendedUpdateMovesDestination` | project/inventory/viewsets.py:242-275 | with the corrected update, moving a TRANSFER's destination succeeds if and only if the origin is not negative, the old destination holds the quantity and the new one stays non-negative; it then takes the quantity out of the old destination, puts it into the new one and leaves the origin alone |

## Left out

- The nested serializers of `MovementSerializer` (project/inventory/serializers.py:35-37). As
  declared, they require a product and both warehouses as nested objects and refuse null. The
  model instead takes id-valued warehouse fields that may be omitted or given as null, as the
  columns of project/inventory/models.py allow and as the viewset's own checks expect. As shipped,
  validation would refuse those requests, every IN and OUT among them, before the viewset code
  runs; the two Findings rows whose input gives a warehouse as null rest on this assumption.
- Routers, pagination, `Response` objects and HTTP status codes: the model returns only the error
  kind. A nested serializer's own failures on save are not modelled.
- The plain CRUD viewsets for warehouses, categories and products: they have no business rules.
- `InventoryViewSet`, whose create, update and delete answer 405: the class has no operation that
  sets a balance; apart from `Create`, `Update` and `Delete`, only `GetOrCreate` changes the table,
  and it only adds a zero row.
- Checks that a referenced product or warehouse exists: ids are plain numbers.
- The `.upper()` of the type string, and a type string other than IN, OUT or TRANSFER: the type
  is an enumeration.
- The difference between PUT and PATCH in which fields the request must carry: both are a `Patch`
  whose fields may be left out.
- Concurrency, row locking and transactions: the code uses none. Each request is one sequential
  step, and nothing is rolled back.
- The 32-bit range of the database's integer columns: quantities are unbounded integers.
- Timestamps, `status` fields, names, `__str__` methods and the migration.
- The movement ids the database assigns: the model hands out increasing ids.

## Findings

| source | as written | input that shows it | evidently intended | confidence | as-written member | corrected member |
|---|---|---|---|---|---|---|
| project/inventory/viewsets.py:173-179 | deleting a TRANSFER adds the quantity to the row it looked up, which is the destination's; the debited second copy of the destination is never saved; the origin is never credited | 10 at warehouse 1, transfer 4 to warehouse 2, delete the transfer: 6 and 8 | origin +4 and destination −4, back to 10 and 0 | high (not executed) | `Defects.CreateThenDeleteTransferCorrupts` | `Intended.IntendedDelete` (`Intended.IntendedDeleteKeepsConsistent`) |
| project/inventory/viewsets.py:242-273 | a TRANSFER update debits and credits the full new quantity without reversing the stored movement | transfer 4 from 1 to 2 (balances 6 and 4), update the quantity to 5: 1 and 9 | 5 and 5 | high (not executed) | `Defects.UpdateTransferDoubleCounts` | `Intended.IntendedUpdate` (`Intended.IntendedUpdateKeepsConsistent`) |
| project/inventory/viewsets.py:243-270 | a TRANSFER update does not reject equal warehouses; both row copies are read before either is saved, so the credit overwrites the debit | update a transfer to origin = destination = 1 with 6 at 1 and quantity 4: the row becomes 10 | refused as InvalidShape | high (not executed) | `Defects.UpdateTransferSameWarehouseInflates` | `Intended.IntendedUpdate` |
| project/inventory/viewsets.py:195-210 | moving an IN to another warehouse applies only the change in quantity at the new warehouse | receipt of 10 at 1, update `warehouse_to` to 2: 1 keeps 10, 2 gets 0 | 1 drops to 0, 2 rises to 10 | high (not executed) | `Defects.UpdateInMoveStrandsStock` | `Intended.IntendedUpdate` (`Intended.IntendedUpdateKeepsConsistent`) |
| project/inventory/viewsets.py:169-170 | deleting an IN subtracts with no stock check | receipt of 10 with 2 left, delete it: -8 | refused with InsufficientStock | medium (not executed) | `Defects.DeleteInGoesNegative` | `Intended.IntendedDelete` (`Intended.IntendedDeleteKeepsNonnegative`) |
| project/inventory/viewsets.py:208-210 | an IN update applies a decrease with no stock check | receipt of 10 with 2 left, change it to 0: -8 | refused with InsufficientStock | medium (not executed) | `Defects.UpdateInGoesNegative` | `Intended.IntendedUpdate` (`Intended.IntendedUpdateKeepsNonnegative`) |
| project/inventory/viewsets.py:216-239 | turning an IN into an OUT at the same warehouse applies only the change in quantity, zero, although the receipt now counts as an issue | receipt of 10 at 1 (balance 10), update to OUT from 1 with `warehouse_to` given as null, assuming id-valued nullable warehouse fields, which the nested serializer as shipped would refuse: 1 stays at 10 | refused with InsufficientStock, since taking back the receipt and posting the issue would leave -10 | high (not executed) | `Defects.UpdateInToOutKeepsBalance` | `Intended.IntendedUpdate` (`Intended.IntendedUpdateKeepsConsistent`) |
| project/inventory/viewsets.py:195-213 | an IN update with a null `warehouse_to` falls back to the stored destination for the adjustment but saves the null, so the stored movement names no warehouse and its delete always fails | receipt of 10 at 1, update with `warehouse_to` null, assuming id-valued nullable warehouse fields, which the nested serializer as shipped would refuse: stored with no warehouse; delete: no row | refused as InvalidShape | high (not executed) | `Defects.UpdateInNullDestinationBlocksDelete` | `Intended.IntendedUpdate` |

The ledger class keeps the as-written behaviour, because it models the code. The corrected
definitions stand beside it, with their properties proved.
