# Restaurant order core, modelled in Dafny

The system is a restaurant ordering service. A logged-in user configures
a dish in a size, with a multiset of ingredients. Repeating an ingredient
means a larger quantity of it. The server re-validates the order against
the ingredient catalog and, if it is legal, creates it and decrements
the ingredient stock. An order may later be cancelled, which restores
the stock, but only by a session that verified its second factor (TOTP).

The catalog consists of:

- ingredients with a unit price and an optional finite stock (`available_portions`, NULL meaning unlimited);
- requirement edges ("A requires B");
- incompatibility edges ("A is incompatible with B");
- a per-dish, per-size pricing table with a base price and an ingredient maximum.

The model covers these parts of the system:

- `Tally` (`tally.dfy`): occurrence counts and the ascending key order of an integer-keyed JavaScript object. It also holds the counting dictionary loop and sums over occurrences and over keys.
- `Catalog` (`catalog.dfy`): the tables, the error messages as a datatype, and a reference definition of a legal selection (`Acceptable`). Both validators are proved to decide that definition.
- `IngredientDao` (`ingredient_dao.dfy`): lookups, the edge joins, the batch lookup with the `requires` and `incompatible_with` lists, and the guarded stock decrement. The decrement is a method of the class `Inventory`, which owns the Ingredients table.
- `ValidationDao` (`validation_dao.dfy`): `validateOrder` with its early returns, `checkRequirements`, `checkIncompatibilities`, `calculateOrderTotal` and `getIngredientsWithConstraints`.
- `DirectValidation` (`direct_validation.dfy`): the route's `validateOrderDirectly`, which collects every error without stopping, and the route's quantity grouping.
- `OrderDao` (`order_dao.dfy`): the class `OrderStore`, which holds the orders, `order_ingredients` and `OrderItems` tables next to the inventory. Its methods are `createOrder`, `addOrderItems` and `cancelOrder`.
- `SessionGate` (`session_gate.dfy`): the session's second-factor state, moved by login, TOTP login, skip and logout, and `clientUserInfo`.
- `Routes` (`routes.dfy`): `POST /api/orders` and `DELETE /api/orders/:id`, composed from the above.
- `Configurator` (`configurator.dfy`): the client's selection state machine. It covers add, remove, size change, `canAddIngredient`, the button status, the displayed total and the grouped list.

The model uses these representations:

- Money is integer cents.
- Ids are natural numbers.
- Stock is `Option<nat>`, with `None` standing for SQL NULL.
- SQL rows of `WHERE id IN (...)` and of the `GROUP BY` queries are taken in ascending id order.
- `Object.entries` and `Object.keys` list the array-index keys of a plain object (integers from 0 to 2^32 - 2) in ascending order, as ECMAScript's OrdinaryOwnPropertyKeys specifies. For ids in that range, the model writes this order as `Tally.SortedDistinct`.

## Model

| member | source | states |
|---|---|---|
| Tally.Count | client/src/components/OrderConfigurator.jsx:21-23 | An ingredient's quantity is at most the selection length, and positive exactly when the ingredient is selected. |
| Tally.CountIngredients | server/index.js:320-324 | The counting dictionary has exactly the listed ids as keys, each mapped to its number of occurrences, which is at least 1. |
| Tally.SortedDistinct | server/index.js:408 | `Object.keys` of the counts is strictly increasing and holds exactly the listed ids. |
| Tally.SortedDistinctBySet | server/index.js:408 | Two lists with the same members have the same key list, so the constraint checks see only the set of ids. |
| Tally.CountsSumToLength | server/index.js:320-330 | Over the distinct ids, the quantities add up to the list length. |
| Tally.Regroup | client/src/components/OrderConfigurator.jsx:188-191 | A per-occurrence sum equals the sum over distinct keys of value times quantity. |
| IngredientDao.GetIngredientById | server/DAO/ingredient-dao.js:28-47 | Null exactly for an unknown id; otherwise exactly that row's id, name, price and stock. |
| IngredientDao.JoinEdges | server/DAO/ingredient-dao.js:51-89 | The joined edge rows are exactly the edges whose endpoints both exist, each carrying both names. |
| IngredientDao.RequiredRefs | server/DAO/ingredient-dao.js:174-185 | `requires` holds exactly the forward requirement edges out of the id that reach an existing ingredient, with that ingredient's name. |
| IngredientDao.Partners | server/DAO/ingredient-dao.js:155-171 | The incompatibility partners are the ids joined to the id by an edge in either direction. |
| IngredientDao.IncompatibleRefs | server/DAO/ingredient-dao.js:155-171 | `incompatible_with` is the union of both edge directions over existing ingredients, with no duplicate, in ascending id order. |
| IngredientDao.FoundIds | server/DAO/ingredient-dao.js:141-153 | The ids returned are exactly the requested ids the table holds, ascending and once each. |
| IngredientDao.GetIngredientsByIds | server/DAO/ingredient-dao.js:134-200 | An empty request gives an empty list; otherwise one entry per requested id the table holds, with its constraint lists. |
| IngredientDao.InfosAreRequestedRows | server/DAO/ingredient-dao.js:136-153 | Every returned entry is a catalog row whose id was requested; every requested known id is returned; ids are strictly increasing. |
| IngredientDao.DeductRow | server/DAO/ingredient-dao.js:106-110 | A guarded decrement subtracts the count exactly when the stock is finite and at least the count, and otherwise leaves the row unchanged; name and price never change. |
| IngredientDao.Inventory.UpdateIngredientAvailability | server/DAO/ingredient-dao.js:93-130 | Every row, and only the rows, of the table is replaced by its guarded decrement by the id's occurrence count. Rows of unlisted ids (count 0) and unlimited rows keep their values. |
| IngredientDao.Inventory.Deduct | server/DAO/ingredient-dao.js:106-110 | One guarded update: only that id's row changes, and only by its guarded decrement. |
| IngredientDao.DeductStep | server/DAO/ingredient-dao.js:116-128 | Deducting one more distinct key keeps the table equal to the start with exactly the processed keys deducted. |
| ValidationDao.MissingRequirements | server/DAO/validation-dao.js:86-93 | Only "requires" errors are reported. |
| ValidationDao.MissingRequirementsIff | server/DAO/validation-dao.js:86-93 | An error is reported exactly for a requirement row whose source is selected and whose target is not. |
| ValidationDao.MissingRequirementsEmpty | server/DAO/validation-dao.js:86-93 | No error exactly when no row has its source selected and its target unselected. |
| ValidationDao.CheckRequirements | server/DAO/validation-dao.js:80-99 | The loop reports exactly the missing-requirement errors of the joined requirement rows, in row order. |
| ValidationDao.Conflicts | server/DAO/validation-dao.js:109-115 | Only "is incompatible with" errors are reported. |
| ValidationDao.ConflictsIff | server/DAO/validation-dao.js:109-115 | An error is reported exactly for an incompatibility row with both endpoints selected. |
| ValidationDao.ConflictsEmpty | server/DAO/validation-dao.js:109-115 | No error exactly when no incompatibility row has both endpoints selected. |
| ValidationDao.CheckIncompatibilities | server/DAO/validation-dao.js:103-121 | The loop reports exactly the conflict errors of the joined incompatibility rows, in row order. |
| ValidationDao.KeyErrors | server/DAO/validation-dao.js:40-52 | The per-key pass reports only unknown-id and not-enough errors. |
| ValidationDao.KeyErrorsEmpty | server/DAO/validation-dao.js:40-52 | The per-key pass is silent exactly when every key is known and each finite stock covers the key's quantity. |
| ValidationDao.CheckKey | server/DAO/validation-dao.js:43-51 | For one key: an unknown id is reported, a known one is reported when its finite stock is below its quantity, and nothing else. |
| ValidationDao.CheckKeys | server/DAO/validation-dao.js:40-52 | The loop over `Object.entries` reports exactly the per-key errors of the distinct ids in ascending order. |
| ValidationDao.UnknownKeyReported | server/DAO/validation-dao.js:43-44 | An unknown distinct id is reported by its id. |
| ValidationDao.RequirementRowsDecide | server/DAO/validation-dao.js:59-61 | With every id known, the requirement check is silent exactly when the selection meets every requirement edge. |
| ValidationDao.ConflictRowsDecide | server/DAO/validation-dao.js:59-62 | With every id known, the incompatibility check is silent exactly when no edge has both endpoints selected. |
| ValidationDao.ValidateOrder | server/DAO/validation-dao.js:8-76 | An unknown dish, a size outside Small/Medium/Large, or too many ingredients each end the check with that single error. Per-key errors end it before the constraint checks. Otherwise the constraint errors are reported. The verdict is valid exactly when no error is reported, which is exactly when the limits pass and the selection is `Acceptable`. |
| ValidationDao.CalculateOrderTotal | server/DAO/validation-dao.js:125-143 | The total is the size price (0 when missing) plus one unit price per occurrence of each known id. |
| ValidationDao.ForwardRefs | server/DAO/validation-dao.js:156-167 | The forward list holds exactly the targets of the rows leaving the id, with their names. |
| ValidationDao.BackwardRefs | server/DAO/validation-dao.js:168-176 | The backward list holds exactly the sources of the rows entering the id, with their names. |
| ValidationDao.GetIngredientsWithConstraints | server/DAO/validation-dao.js:147-183 | Each ingredient is served unchanged and in order. `requires` holds exactly its forward requirement rows. `incompatible_with` holds exactly the incompatibility rows touching it, read in either direction. |
| ValidationDao.IncompatibilityListed | server/DAO/validation-dao.js:162-176 | One incompatibility row puts each endpoint in the other's served list. |
| ValidationDao.ServedIncompatibilitySymmetric | server/DAO/validation-dao.js:162-176 | The served incompatibility lists are symmetric. |
| DirectValidation.IngredientsWithQuantity | server/index.js:320-330 | One `{id, quantity}` per distinct id, in ascending id order, with its occurrence count of at least 1; the quantities add up to the list length. |
| DirectValidation.QuantitiesOfKeys | server/index.js:320-330 | Quantities taken from the occurrence counts of the ascending keys are each at least 1 and add up to the list length. |
| DirectValidation.StockErrors | server/index.js:397-405 | The stock loop reports only not-enough errors. |
| DirectValidation.StockErrorsIff | server/index.js:397-401 | A not-enough error is reported exactly for a found ingredient with finite stock below its requested quantity, naming that quantity and stock. |
| DirectValidation.CheckAvailability | server/index.js:397-405 | The availability loop over the found ingredients reports exactly the not-enough errors of `StockErrors`, and accumulates exactly `PriceTotal`: price times requested quantity summed over the found ingredients. |
| DirectValidation.MissingOf | server/index.js:412-416 | One ingredient's requirement errors are exactly its unselected `requires` entries. |
| DirectValidation.RequirementErrors | server/index.js:411-417 | The requirement loops report only "to be selected" errors. |
| DirectValidation.RequirementErrorsIff | server/index.js:411-417 | A requirement error is reported exactly for a found ingredient and an unselected entry of its `requires` list. |
| DirectValidation.CheckRequiredSelected | server/index.js:411-417 | The nested requirement loops report exactly `RequirementErrors`: one error per `requires` entry of a found ingredient whose id is not among the distinct requested ids, in loop order. |
| DirectValidation.ClashesOf | server/index.js:421-425 | One ingredient's conflict errors are exactly its selected `incompatible_with` entries. |
| DirectValidation.ConflictErrors | server/index.js:420-426 | The incompatibility loops report only "is incompatible with" errors. |
| DirectValidation.ConflictErrorsIff | server/index.js:420-426 | A conflict error is reported exactly for a found ingredient and a selected entry of its `incompatible_with` list. |
| DirectValidation.CheckIncompatibleSelected | server/index.js:420-426 | The nested incompatibility loops report exactly `ConflictErrors`: one error per `incompatible_with` entry of a found ingredient whose id is among the distinct requested ids, in loop order. |
| DirectValidation.ClashSource | server/index.js:420-426 | Every conflict error comes from a found ingredient and a selected entry of its list. |
| DirectValidation.PriceTotalOfInfos | server/index.js:397-405 | The price accumulated over the found ingredients, weighted by quantity, equals one unit price per occurrence of each known id. |
| DirectValidation.StockReported | server/index.js:397-401 | A known id whose finite stock is below its count is reported. |
| DirectValidation.StockExplained | server/index.js:397-401 | Every not-enough error names a known id whose finite stock is below its count. |
| DirectValidation.RequirementReported | server/index.js:411-417 | A selected known ingredient whose required ingredient exists but is not selected is reported. |
| DirectValidation.RequirementExplained | server/index.js:411-417 | Every requirement error comes from an edge out of a selected ingredient to an existing unselected one. |
| DirectValidation.ConflictReported | server/index.js:420-426 | Both names of a fully selected incompatibility edge are reported, in both orders. |
| DirectValidation.ConflictExplained | server/index.js:420-426 | Every conflict error comes from an incompatibility edge with both endpoints selected. |
| DirectValidation.StockErrorsDecide | server/index.js:397-401 | The stock loop is silent exactly when every finite stock covers its ingredient's count. |
| DirectValidation.RequirementErrorsDecide | server/index.js:411-417 | With every id known, the requirement loops are silent exactly when every requirement edge is met. |
| DirectValidation.ConflictErrorsDecide | server/index.js:420-426 | With every id known, the incompatibility loops are silent exactly when no edge is fully selected. |
| DirectValidation.UnknownErrorsDecide | server/index.js:384-388 | The invalid-ids error is absent exactly when every id is known. |
| DirectValidation.DirectValidIff | server/index.js:355-442 | No error is reported exactly when the dish exists, the size has a pricing row, the count is within that row's maximum and the selection is `Acceptable`. |
| DirectValidation.ValidateOrderDirectly | server/index.js:355-442 | The errors are those of every check in order, with no early return. The result is valid exactly when there is no error, which is exactly when the order is legal. The total is the size's base price plus one unit price per occurrence of each known id. |
| DirectValidation.CheckDishAndSize | server/index.js:361-378 | The dish and size checks report an unknown dish, an unpriced size, or too many ingredients for the priced size; the base price is the size's, or 0 when the size is not priced. |
| DirectValidation.CheckKnownIds | server/index.js:380-388 | The invalid-ids check reports exactly the requested ids that the batch lookup did not return. |
| DirectValidation.TooManyReportedOnce | server/index.js:368-378 | "Too many ingredients" is reported exactly once when the size is priced and the list is longer than its maximum, and never otherwise. |
| DirectValidation.TooManyCitesLimit | server/index.js:368-378 | Every "too many ingredients" error belongs to a priced size and names that size and its maximum. |
| DirectValidation.DirectReportsEveryFailure | server/index.js:355-442 | Each failed condition produces its own error, whatever else fails. |
| DirectValidation.UnknownIdsListed | server/index.js:384-388 | The invalid-ids error lists exactly the requested unknown ids, with repetitions, in request order. |
| DirectValidation.ConstraintErrorsBySet | server/index.js:408-426 | Requirement and conflict errors depend only on the set of requested ids, not on repetition or order. |
| OrderDao.DecrementEachAt | server/DAO/order-dao.js:42-48 | Creating an order lowers each finite stock by its ingredient's number of occurrences, stopping at zero. Unlimited stock, names, prices and the other rows do not change. |
| OrderDao.RestockedAt | server/DAO/order-dao.js:222-256 | Cancelling adds each ingredient's number of occurrences in the order back to its finite stock. Unlimited stock and the other rows do not change. |
| OrderDao.CancelUndoesCreate | server/DAO/order-dao.js:42-48 | If every unit decrement at creation applied, restoring the order's lines brings every stock back to its value before the order. |
| OrderDao.LinesOfFresh | server/DAO/order-dao.js:30-40 | The lines written for a fresh order id are exactly its ingredient list, in order. |
| OrderDao.LinesOfOwn | server/DAO/order-dao.js:30-40 | The lines of one order read back as its ingredient list. |
| OrderDao.ItemRowsExact | server/DAO/order-dao.js:74-110 | Each `OrderItems` row names a distinct listed id the table holds, with its occurrence count and current price, and every such id has a row. |
| OrderDao.ItemRowsDistinct | server/DAO/order-dao.js:93-108 | `OrderItems` gets at most one row per ingredient, in ascending id order. |
| OrderDao.OrderStore.CreateOrder | server/DAO/order-dao.js:7-70 | A new order under a fresh id, confirmed, echoes the user, dish, size and price, with `used_2fa` read as a boolean (absent is false). It adds one line per occurrence and applies a guarded unit decrement per occurrence. Nothing else changes. |
| OrderDao.OrderStore.TakeOne | server/DAO/order-dao.js:42-48 | One unit update lowers that id's finite, positive stock by one and changes no other row. |
| OrderDao.OrderStore.AddOrderItems | server/DAO/order-dao.js:74-110 | An empty list adds nothing. Otherwise it adds one row per distinct known id with its quantity and price, and touches no other table. |
| OrderDao.OrderStore.AddItem | server/DAO/order-dao.js:87-96 | One `INSERT ... SELECT` adds a row with the current price exactly when the id is in the Ingredients table, and touches no other table. |
| OrderDao.OrderStore.CancelOrder | server/DAO/order-dao.js:187-281 | The outcome is "not found" if the order is missing or belongs to another user, "cannot cancel" unless it is confirmed, and "2FA required" if it was placed with 2FA and the caller lacks `isTotp`. A refusal changes nothing. Success marks the order cancelled and restores every ingredient's count to its finite stock. |
| OrderDao.OrderStore.ReturnToInventory | server/DAO/order-dao.js:222-256 | One restoring update per distinct ingredient of the order, adding its count to finite stock only. |
| OrderDao.OrderStore.RestoreOne | server/DAO/order-dao.js:247-251 | One restoring update adds the quantity to that id's finite stock and changes no other row. |
| OrderDao.CancelTwice | server/DAO/order-dao.js:205-208 | A second cancel finds the order cancelled, so stock is restored once. |
| OrderDao.CreateThenCancel | server/DAO/order-dao.js:7-70 | Creating against sufficient stock and then cancelling leaves every stock value as before. |
| SessionGate.ClientUserInfo | server/index.js:82-91 | Id and name of the user. `isTotp` exactly when the second factor is totp, `isSkippedTotp` exactly when it is skipped, never both. `canDoTotp` is always true. |
| SessionGate.SixDigitsWellFormed | server/index.js:129-131 | Every six-digit string passes the code check. |
| SessionGate.CodeFormExamples | server/index.js:129-131 | The check is wider than six digits: "+1.234" and "-12345" pass, while a letter, a second point or a trailing point fail. |
| SessionGate.Session.Login | server/index.js:98-124 | A malformed form gives 400 and unknown credentials give 401, both changing nothing. Success makes the user current with the second factor pending and reports `isTotp` false. |
| SessionGate.Session.LoginTotp | server/index.js:128-165 | 401 when not logged in is checked before the form. Then 400 for a malformed code, 400 without a secret, and 401 for a wrong code. Only success changes the session, setting totp from any state. |
| SessionGate.Session.SkipTotp | server/index.js:169-177 | 401 when not logged in. Otherwise the second factor becomes skipped. |
| SessionGate.Session.Current | server/index.js:181-187 | The user info of a logged-in session, otherwise 401. |
| SessionGate.Session.Logout | server/index.js:191-195 | The session is cleared and the answer is 204. |
| SessionGate.GateMatchesReportedInfo | server/index.js:82-91 | A session may cancel (`MayCancel`, the gate of server/index.js:273) exactly when it is logged in and its user info reports `isTotp`; a session reported as skipped may not cancel. |
| SessionGate.SkipThenUpgrade | server/index.js:128-171 | A skipped session that then verifies a code may cancel orders and reports `isTotp` and not `isSkippedTotp`. |
| Routes.AsIds | server/index.js:294-296 | Validated ingredient ids keep their values and order. |
| Routes.SubmitOrder | server/index.js:288-352 | 401 first, then 400 for a malformed form and 400 without a dish id. Then 400 with the validator's errors unless the order is legal against the current stock. 201 exactly for a legal order: it is created at the validator's total under the next id, its lines are appended, the next id advances, the item rows stay as they were, and the stock gets its decrements. On every other answer the orders, lines, item rows, next id and stock are unchanged. |
| Routes.DeleteOrder | server/index.js:262-284 | 401, then 400 for an id below 1, then 403 unless the second factor is totp. 200 exactly when the user's confirmed order exists, which is then cancelled with its stock restored. Every other cancellation outcome is 500 and leaves the orders and stock unchanged. No path changes the lines, item rows or next id. |
| Routes.AcceptedDecrementIsExact | server/index.js:333-345 | For an accepted order, every finite stock falls by exactly its count, never stopping at zero. |
| Routes.SkippedCannotCancel | server/index.js:272-275 | A session that skipped the second factor is refused with 403 and leaves the orders, lines, item rows, next id and stock unchanged. |
| Routes.SubmitThenDelete | server/index.js:262-352 | An order accepted by the submit route, then deleted by the same session after TOTP, leaves all stock as it was. |
| Configurator.Find | client/src/components/OrderConfigurator.jsx:31 | The entry found is a catalog entry with that id. None exactly when no entry has the id. |
| Configurator.FindFirst | client/src/components/OrderConfigurator.jsx:31 | The entry found is the first one with that id: it sits at a position before which no catalog entry has the id. |
| Configurator.SelectedRefs | client/src/components/OrderConfigurator.jsx:52-54 | `incompatibleSelected` holds exactly the entries of the list whose id is selected. |
| Configurator.MissingRefs | client/src/components/OrderConfigurator.jsx:62-64 | `missingRequirements` holds exactly the entries of the list whose id is not selected. |
| Configurator.Dependents | client/src/components/OrderConfigurator.jsx:81-84 | `dependentIngredients` holds exactly the catalog entries that are selected and list the target among their requirements. |
| Configurator.IndexOf | client/src/components/OrderConfigurator.jsx:92 | For a selected id, `indexOf` gives an in-range position holding the id, with no earlier occurrence. |
| Configurator.AddAppendsIff | client/src/components/OrderConfigurator.jsx:30-74 | The add handler appends exactly when the ingredient is known, its finite stock is not reached, the size has room, and a first copy clashes with nothing selected and finds its requirements selected. It never appends anything but that id. |
| Configurator.CanAddIffAppends | client/src/components/OrderConfigurator.jsx:141-171 | For the entry the handler finds, `canAddIngredient` is true exactly when the add handler would append. |
| Configurator.AddQuantities | client/src/components/OrderConfigurator.jsx:21-28 | An append raises the added ingredient's quantity and the total count by one, and no other quantity. |
| Configurator.AddKeepsLength | client/src/components/OrderConfigurator.jsx:44-47 | For any catalog, an add keeps a selection that is within the size's maximum within it. |
| Configurator.AddKeepsConsistent | client/src/components/OrderConfigurator.jsx:44-69 | With symmetric, irreflexive incompatibility, adding keeps requirements closed, no incompatible pair, and the count within the size maximum. |
| Configurator.ServedCatalogFits | server/DAO/validation-dao.js:162-176 | A served catalog with distinct ids, rows between listed ingredients, and no self-incompatibility is symmetric and irreflexive. |
| Configurator.ServedPairSymmetric | server/DAO/validation-dao.js:162-176 | If `b` is served as incompatible with `a`, then `a` is served as incompatible with `b`. |
| Configurator.ServedNotSelf | server/DAO/validation-dao.js:162-176 | Without self-loop edges, no ingredient is served as incompatible with itself. |
| Configurator.RemoveFirstCounts | client/src/components/OrderConfigurator.jsx:92-98 | Removal takes away exactly one copy of the target at its first position. The list is otherwise intact and other quantities do not change. |
| Configurator.RemoveRefusedIff | client/src/components/OrderConfigurator.jsx:76-100 | Removal is refused exactly when a selected catalog ingredient requires the target, however many copies are selected. Otherwise a selected target loses exactly one copy. |
| Configurator.RemoveFirstMembers | client/src/components/OrderConfigurator.jsx:92-98 | After removal an id is still selected exactly when it is another selected id or a second copy of the target. |
| Configurator.RemoveKeepsConsistent | client/src/components/OrderConfigurator.jsx:80-98 | Removing keeps requirements closed, no incompatible pair, and the count within the size maximum. |
| Configurator.RemoveFirstConsistent | client/src/components/OrderConfigurator.jsx:92-98 | When nothing selected requires the target, removing one copy keeps the invariants. |
| Configurator.RemoveFirstSubset | client/src/components/OrderConfigurator.jsx:92-98 | After removing one copy, every id left was selected, and every other selected id is still there. |
| Configurator.RemoveKeepsClosed | client/src/components/OrderConfigurator.jsx:80-98 | When no selected ingredient requires the target, removing one copy keeps every selected ingredient's requirements selected. |
| Configurator.SizeChangeKeepsConsistent | client/src/components/OrderConfigurator.jsx:102-111 | The size changes exactly when the selection fits the new maximum, which defaults to 0. A refusal names the excess. The invariants hold under the size then selected. |
| Configurator.StatusAgreesWithCanAdd | client/src/components/OrderConfigurator.jsx:113-138 | A button is enabled exactly when the ingredient may be added, or when copies are selected and the stock is not reached. It shows the quantity exactly when it is enabled and the ingredient is selected. |
| Configurator.TotalByQuantities | client/src/components/OrderConfigurator.jsx:173-194 | The total is the size price (500, 700 or 900, default 700) plus the dish price (default 0) plus, over the distinct ingredients, price times quantity. An append adds that ingredient's price. |
| Configurator.GroupedQuantitiesCountKnown | client/src/components/OrderConfigurator.jsx:197-207 | The grouped quantities add up to the number of selected occurrences of catalog ids, and to the selection length when every id is listed. |
| Configurator.KnownGroupsOrdered | client/src/components/OrderConfigurator.jsx:197-207 | Every grouped entry is a listed catalog entry with its quantity, and the entries are in ascending id order. |
| Configurator.KnownGroupsComplete | client/src/components/OrderConfigurator.jsx:197-207 | Every listed id that the catalog holds has its entry, with its quantity. |
| Configurator.KnownGroupsTotal | client/src/components/OrderConfigurator.jsx:197-207 | The grouped quantities add up to the occurrences of the listed ids that the catalog holds. |
| Configurator.OrderConfiguration.Quantity | client/src/components/OrderConfigurator.jsx:21-23 | A quantity is at most the selection length, and positive exactly when selected. |
| Configurator.OrderConfiguration.Add | client/src/components/OrderConfigurator.jsx:30-74 | The new selection is the add decision's. The invariants are kept. Size and dish do not change. |
| Configurator.OrderConfiguration.Remove | client/src/components/OrderConfigurator.jsx:76-100 | The new selection is the remove decision's. The invariants are kept. Size and dish do not change. |
| Configurator.OrderConfiguration.ChangeSize | client/src/components/OrderConfigurator.jsx:102-111 | The size changes only when the selection fits. The selection and invariants are kept. |
| Configurator.OrderConfiguration.SelectedWithQuantity | client/src/components/OrderConfigurator.jsx:197-207 | One entry per distinct selected catalog id, in ascending order, with its quantity of at least 1. Every such id appears, and the quantities add up to the known occurrences. |

## Left out

- Database I/O, callbacks and transactions are not modelled. Each DAO call is one atomic step on the tables. `BEGIN`/`COMMIT`/`ROLLBACK`, SQL errors and the `catch` paths (500 answers, "Internal validation error") are not modelled.
- Floating point is not modelled. Prices are integer cents, so `Math.round(totalPrice * 100) / 100` is the identity and is omitted. The client's size prices 5, 7 and 9 are 500, 700 and 900 cents.
- Ids of 2^32 - 1 and above are not modelled with their own key order. JavaScript enumerates such keys after the array-index keys, in insertion order, while `Tally.SortedDistinct` keeps every id ascending. The key order used by `ValidationDao.CheckKeys`, `DirectValidation.IngredientsWithQuantity`, `OrderDao.ItemRowsDistinct` and `Configurator.OrderConfiguration.SelectedWithQuantity` therefore matches the program only for ids below 2^32 - 1.
- Row order is not modelled. The rows of `WHERE id IN (...)`, `GROUP BY` and the edge queries are taken in ascending id order, or in table order for the edge tables; SQL leaves it unspecified.
- Password checking, TOTP code verification and the secret lookup are not modelled. They are boolean inputs of `Login` and `LoginTotp`. Passport's session serialisation is not modelled either.
- `isNumeric` is the validator library's default rule (optional sign, digits, at most one decimal point), written out, because the library is not part of this model.
- The form validators of `POST /api/orders` are modelled on typed inputs. `dish_id || dishId` is one optional integer, and `ingredients || ingredientIds` is one integer list. Non-array and non-integer JSON values are not modelled.
- Routes.SubmitOrder: it passes `createOrder` the plain id list, not the `{id, quantity}` objects the route builds (server/index.js:320-330, 343). The DAO expects ids, so the DAO's own contract is modelled. `used_2fa` is not passed, as in the route, so it is stored as false.
- Routes.DeleteOrder: it passes `isTotp` as true after the route's own gate (server/index.js:273). The route's call at server/index.js:278 omits it, so an order stored with `used_2fa` could never be cancelled through the route. The submit route never stores such an order.
- Routes.DeleteOrder: every `cancelOrder` rejection is answered with 500, as the code does (server/index.js:279-282). It is not 404 or 400.
- ValidationDao.ValidateOrder: the code calls `getMaxIngredientsBySize()` with no size (server/DAO/validation-dao.js:27). That lookup then finds no row and rejects with "Size not found" (server/DAO/dish-dao.js:144-152), so every order with a known dish and a valid size ends in "Validation error: ..." (server/DAO/validation-dao.js:70-74). The model does not reproduce this. It reads the intended size-keyed map of maxima instead. A size without an entry never fails the limit check, because comparing with `undefined` is false in JavaScript.
- ValidationDao.CalculateOrderTotal: the code calls `dishDao.getDishPrices()` (server/DAO/validation-dao.js:128), which the dish DAO does not define, so the function always throws "Error calculating total: ...". The model gives the intended behaviour instead. The `prices` parameter stands for the size-keyed base prices that the call was meant to return.
- OrderDao.OrderStore.CreateOrder and OrderDao.OrderStore.CancelOrder: both DAO functions are module-level arrow functions that reach the database through `this.db` (server/DAO/order-dao.js:12-13, 22, 196-270). In such a function `this` is the module's exports object, which has no `db`. The file's own handle is `const db` (server/DAO/order-dao.js:3, exported by server/db.js:10). As written, both functions therefore throw a TypeError inside the Promise executor and reject on every call, and the routes answer 500 (server/index.js:279-282, 348-351). The model gives the intended contract through the module's `db` handle.
- Routes.DeleteOrder: the `:id` path parameter is a string, checked with `isInt({ min: 1 })` and then read with `parseInt` (server/index.js:262-263, 277). The model takes the id as an `int`, so non-numeric path strings are not modelled.
- OrderDao.OrderStore.CreateOrder: the stored `created_at` is SQLite's `datetime('now')`, while the returned record carries `new Date().toISOString()` (server/DAO/order-dao.js:19, 61). The model uses one `now` parameter for both, so the two clock readings and their formats are not distinguished.
- The React rendering and `showMessage` are not modelled. Each handler's warning is its outcome value (`AddOutcome`, `RemoveOutcome`, `SizeOutcome`), carrying the message's fields.
- Configurator.AddKeepsConsistent: it assumes the catalog's incompatibility lists are symmetric and irreflexive. `Configurator.ServedCatalogFits` derives both from what the server serves, given that edges never join an ingredient to itself.
- `getAllIngredients`, `getOrdersByUserId`, `getOrderItems`, the dish and user DAOs, and the other routes are not part of this model; only the values they supply appear, as parameters.
