# Restaurant management core, in Dafny

This project models the core of a restaurant management back end written in Java. It covers the following:

- **Domain entities:** inventory items with stock levels and capacity, menu dishes (entrees, drinks, desserts and combos), orders with their status life cycle and payment, and reservations.
- **In-memory repositories:** keyed by id, with their query methods.
- **Hash-chained audit log:** each entry carries the hash of the entry before it, and `verifyChain` checks those links.
- **Permission chains:** per-service chains of responsibility that decide whether a staff role (manager, waiter, chef) may perform an operation.
- **Services:** inventory, order, payment, reservation and analytics. Each service checks permissions first, then validates, changes state and appends an audit entry.
- **Sequential skeleton of the concurrency helpers:** deadlock-safe lock ordering, try-lock with timeout and retry with exponential backoff, all-or-nothing multi-lock, the table-lock service, the kitchen queue and its worker, and the staged asynchronous order placement.

Each mutable Java object is a Dafny `class` whose methods carry `modifies` clauses. This applies to inventory items, orders, reservations, menu items, repositories, the audit log, the lock registry and the kitchen. Value types are datatypes. Pure rules are functions proved against independent characterisations:

- first-match permission decisions;
- case-insensitive status parsing;
- stock bounds over any run of operations;
- the audit chain's tamper evidence;
- the ingredients and kitchen-prep rules of nested combos;
- the analytics count of sold names.

Each Java exception is an `Error` value returned in a `Result` or `Outcome`. A `RuntimeException` that wraps another failure is `Wrapped(cause)`.

Locks are modelled by a registry with two parts:

- a multiset of locks currently held;
- a ghost trace of acquire, time-out, run and release events.

The lock-ordering proofs state that every pair of operations takes the same two locks in the same order. Whether a timed `tryLock` succeeds is a nondeterministic choice.

## Model

| member | source | states |
|---|---|---|
| Text.EqualsIgnoreCaseIsUpperEquality | src/main/java/com/university/restaurant/service/OrderService.java:118 | comparing two names ignoring case is the same as comparing their upper-cased forms |
| Text.ParseInt | src/main/java/com/university/restaurant/service/OrderService.java:67 | Integer.parseInt: a result is a 32-bit value read from an optional sign and at least one digit; anything else is NumberFormatException |
| Text.ParseIntOfIntToString | src/main/java/com/university/restaurant/service/OrderService.java:67 | parseInt reads every 32-bit integer back from its decimal rendering |
| Permissions.FirstMatch | src/main/java/com/university/restaurant/chain/order/OrderPermissionChain.java:74-81 | the position of the first handler whose canHandle accepts the role; every handler before it rejects the role |
| Permissions.Check | src/main/java/com/university/restaurant/chain/order/OrderPermissionChain.java:74-81 | the first matching handler decides; with no match the call passes; the only failure is SecurityException |
| Permissions.RunChain | src/main/java/com/university/restaurant/chain/payment/PaymentPermissionChain.java:55-63 | the handler loop returns exactly what the first-match rule (Check) says |
| Permissions.OrderCheckDecision | src/main/java/com/university/restaurant/chain/order/OrderPermissionChain.java:45-50 | the order chain lets managers and waiters through and denies every other role |
| Permissions.PaymentCheckDecision | src/main/java/com/university/restaurant/chain/payment/PaymentPermissionChain.java:39-44 | the payment chain lets managers and waiters through and denies a chef |
| Permissions.ReservationCheckDecision | src/main/java/com/university/restaurant/chain/reservation/ReservationPermissionChain.java:40-45 | the reservation chain lets managers and waiters through and denies every other role |
| Permissions.InventoryCheckDecision | src/main/java/com/university/restaurant/chain/inventory/InventoryPermissionChain.java:45-49 | the inventory chain lets only managers through; a waiter or chef gets SecurityException |
| Permissions.AnalyticsCheckDecision | src/main/java/com/university/restaurant/service/AnalyticsService.java:68 | topSellingItems lets only managers through |
| Permissions.FallbackAlwaysMatches | src/main/java/com/university/restaurant/chain/inventory/InventoryPermissionChain.java:72-79 | a chain that ends with the Deny fallback always has a handler that decides |
| Inventory.StatusClassification | src/main/java/com/university/restaurant/model/inventory/InventoryItem.java:46-50 | OUT_OF_STOCK iff the level is 0, LOW_STOCK iff 0 < level <= threshold, IN_STOCK otherwise |
| Inventory.InventoryItem.Status | src/main/java/com/university/restaurant/model/inventory/InventoryItem.java:46-50 | OUT_OF_STOCK iff the level is 0; otherwise LOW_STOCK iff the level is at most the reorder threshold, else IN_STOCK, for any level |
| Inventory.RestockedLevel | src/main/java/com/university/restaurant/model/inventory/InventoryItem.java:58-60 | Math.min(stock + quantity, maxCapacity): never above either argument, and equal to one of them |
| Inventory.RestockedLevelIsInt32 | src/main/java/com/university/restaurant/model/inventory/InventoryItem.java:58-60 | from a level within bounds, a non-negative restock stays within 0..maxCapacity and fits in an int |
| Inventory.Wrap32 | src/main/java/com/university/restaurant/model/inventory/InventoryItem.java:59 | the result of a Java int addition: a 32-bit value congruent to the exact sum modulo 2^32, and the sum itself when that fits |
| Inventory.RestockOverflowGoesNegative | src/main/java/com/university/restaurant/model/inventory/InventoryItem.java:59 | the code as written turns restock(Integer.MAX_VALUE) of a level-1 item into Integer.MIN_VALUE, where the intended result is the cap |
| Inventory.RestockAsWrittenAgreesWithoutOverflow | src/main/java/com/university/restaurant/model/inventory/InventoryItem.java:59 | whenever the int sum does not overflow, the code as written and the capped level agree |
| Inventory.RunStaysInBounds | src/main/java/com/university/restaurant/model/inventory/InventoryItem.java:52-60 | any sequence of non-negative consumes and restocks keeps 0 <= stockLevel <= maxCapacity |
| Inventory.ConsumesThatFitAllSucceed | src/main/java/com/university/restaurant/model/inventory/InventoryItem.java:52-56 | consumes whose total fits in the stock all succeed and lower the level by exactly their total |
| Inventory.TotalConsumedNonNegative | src/main/java/com/university/restaurant/model/inventory/InventoryItem.java:52-56 | a run of consumes never takes a negative total |
| Inventory.ConsumeThenRestockRestores | src/main/java/com/university/restaurant/model/inventory/InventoryItem.java:52-60 | consume(a) then restock(a) restores the level when the cap does not apply |
| Inventory.InventoryItem.constructor | src/main/java/com/university/restaurant/model/inventory/InventoryItem.java:36-44 | the fields hold the arguments; id, name, unit, threshold and capacity are constants |
| Inventory.InventoryItem.Consume | src/main/java/com/university/restaurant/model/inventory/InventoryItem.java:52-56 | quantity > stock: IllegalStateException and nothing changes; otherwise the level drops by exactly quantity and the bounds are kept |
| Inventory.InventoryItem.Restock | src/main/java/com/university/restaurant/model/inventory/InventoryItem.java:58-60 | the level becomes min(stock + quantity, maxCapacity) and stays within bounds |
| Menu.CopyWithPrice | src/main/java/com/university/restaurant/model/menu/Combo.java:40-43 | fails exactly for a Combo, always with UnsupportedOperationException; an entree, drink or dessert is always copied, with the new price and the same category, name and ingredients |
| Menu.RequiresKitchenPrep | src/main/java/com/university/restaurant/model/menu/Drink.java:31 | a leaf needs the kitchen unless it is a drink (entrees and desserts do); a combo that needs it has at least one component |
| Menu.RequiredIngredients | src/main/java/com/university/restaurant/model/menu/Combo.java:30-33 | an entree requires its own ingredient list; a drink or dessert requires one ingredient, its name up to case with no upper-case letter left; a combo requires exactly the ingredients its components list |
| Menu.Price | src/main/java/com/university/restaurant/model/menu/Combo.java:19-22 | a leaf costs its own price; a combo with no discount costs the sum of its components, and with a 100% discount nothing |
| Menu.SumPricesAppend | src/main/java/com/university/restaurant/model/menu/Combo.java:20 | the component sum over two joined lists is the sum of the two sums |
| Menu.ComboPriceWithinSum | src/main/java/com/university/restaurant/model/menu/Combo.java:19-22 | a discount between 0% and 100% prices a combo between nothing and its full component sum |
| Menu.ComboPriceOfAppend | src/main/java/com/university/restaurant/model/menu/Combo.java:19-22 | adding a component to an undiscounted combo adds exactly that component's price |
| Menu.ComboItems | src/main/java/com/university/restaurant/model/menu/Combo.java:35-37 | getItems returns the components in order |
| Menu.DistinctSpec | src/main/java/com/university/restaurant/model/menu/Combo.java:30-33 | distinct() keeps exactly the elements of its input, without repeats, in order of first occurrence |
| Menu.DistinctOfDistinct | src/main/java/com/university/restaurant/model/menu/Combo.java:32 | distinct() leaves a list without repeats unchanged |
| Menu.KitchenPrepIffPreparedLeaf | src/main/java/com/university/restaurant/model/menu/Combo.java:25-27 | a dish needs the kitchen iff one of its leaf dishes is an entree or a dessert |
| Menu.ComboPrepIffPreparedLeaf | src/main/java/com/university/restaurant/model/menu/Combo.java:25-27 | a combo needs the kitchen iff some component (at any depth) is an entree or a dessert |
| Menu.IngredientsAreLeafIngredients | src/main/java/com/university/restaurant/model/menu/Combo.java:30-33 | a dish requires exactly the ingredients of its leaf dishes |
| Menu.ConcatIngredientsAreLeafIngredients | src/main/java/com/university/restaurant/model/menu/Combo.java:31 | the flat-mapped ingredient list of components holds exactly their leaves' ingredients |
| Menu.ComboIngredientsDistinct | src/main/java/com/university/restaurant/model/menu/Combo.java:30-33 | a combo's required ingredients contain no repeats |
| Menu.MenuItem.constructor | src/main/java/com/university/restaurant/model/menu/MenuItem.java:29-38 | a new menu item is available |
| Menu.MenuItem.SetAvailable | src/main/java/com/university/restaurant/model/menu/MenuItem.java:64-66 | setAvailable stores the flag |
| Menu.DishesOf | src/main/java/com/university/restaurant/model/menu/Combo.java:14 | the copy the Combo constructor takes holds each component's dish, in order |
| Menu.NewCombo | src/main/java/com/university/restaurant/model/menu/Combo.java:10-16 | a new combo has category COMBO, is available, and holds a copy of the components taken at construction |
| Orders.ValueOf | src/main/java/com/university/restaurant/service/OrderService.java:118 | valueOf returns the status with exactly that name, and IllegalArgumentException when no status has it |
| Orders.ParseStatus | src/main/java/com/university/restaurant/service/OrderService.java:118 | valueOf(name.toUpperCase()): an accepted name upper-cases to the status's own name; anything else is IllegalArgumentException |
| Orders.UpperOfStatusName | src/main/java/com/university/restaurant/service/OrderService.java:118 | upper-casing a status name leaves it unchanged |
| Orders.ParseStatusIgnoresCase | src/main/java/com/university/restaurant/service/OrderService.java:118 | valueOf(name.toUpperCase()) yields status s exactly when name equals s's name ignoring case |
| Orders.ParseStatusRejects | src/main/java/com/university/restaurant/service/OrderService.java:118 | a name that matches no status ignoring case is IllegalArgumentException |
| Orders.ParseStatusOfLowerName | src/main/java/com/university/restaurant/service/OrderService.java:118 | the lower-case spelling of every status name parses to that status |
| Orders.Order.CalculateTotal | src/main/java/com/university/restaurant/model/order/Order.java:35-37 | an empty order totals 0; otherwise the total is that of every item but the last plus the last item's price (TotalOfAppend, TotalOfEmpty) |
| Orders.TotalOfAppend | src/main/java/com/university/restaurant/model/order/Order.java:35-37 | the total of an order grows by exactly the price of an appended item |
| Orders.TotalOfEmpty | src/main/java/com/university/restaurant/model/order/Order.java:35-37 | the total of an empty order is 0 |
| Orders.AnyNeedsPrepIsComboPrep | src/main/java/com/university/restaurant/model/order/Order.java:51-53 | an order needs the kitchen exactly when a combo of its dishes would |
| Orders.AnyNeedsPrepOfAppend | src/main/java/com/university/restaurant/model/order/Order.java:51-53 | after adding an item, the order needs the kitchen iff it did or the new item does |
| Orders.Order.constructor | src/main/java/com/university/restaurant/model/order/Order.java:20-27 | a new order is PENDING, has no items and no payment, and keeps its table and waiter |
| Orders.Order.AddItem | src/main/java/com/university/restaurant/model/order/Order.java:29-33 | an unavailable item is IllegalStateException and the items are unchanged; otherwise it is appended at the end and the total grows by its price |
| Orders.Order.UpdateStatus | src/main/java/com/university/restaurant/model/order/Order.java:39-41 | the status becomes the new one unconditionally; items and payment are untouched |
| Orders.Order.ProcessPayment | src/main/java/com/university/restaurant/model/order/Order.java:43-49 | not SERVED: IllegalArgumentException and no payment; SERVED: PAID with a payment whose amount is the total |
| Orders.Order.RequiresKitchenPrep | src/main/java/com/university/restaurant/model/order/Order.java:51-53 | an order needs the kitchen iff one of its items' dishes does |
| Orders.Order.GetItems | src/main/java/com/university/restaurant/model/order/Order.java:65 | getItems returns the items in order, as a copy |
| Reservations.Reservation.constructor | src/main/java/com/university/restaurant/model/reservation/Reservation.java:14-21 | a new reservation is CONFIRMED, active, with table -1, and keeps customer, time and party size |
| Reservations.Reservation.AssignTable | src/main/java/com/university/restaurant/model/reservation/Reservation.java:23-26 | assignTable sets the table and the status SEATED |
| Reservations.Reservation.UpdateStatus | src/main/java/com/university/restaurant/model/reservation/Reservation.java:28-34 | the status becomes the new one and the reservation is active iff that is not CANCELLED |
| Reservations.Reservation.IsActive | src/main/java/com/university/restaurant/model/reservation/Reservation.java:32-34 | a reservation is active iff its status is not CANCELLED |
| Audit.NewEntry | src/main/java/com/university/restaurant/repository/RestaurantAuditEntry.java:11-21 | an entry holds exactly the user, role, action, entity type, entity id and previous hash it is given, and its hash is the digest of those fields followed by the previous hash |
| Audit.ShortLogsAreLinked | src/main/java/com/university/restaurant/repository/InMemoryRestaurantAuditRepo.java:20-25 | empty and one-entry logs always verify |
| Audit.AppendAtTailKeepsLinked | src/main/java/com/university/restaurant/repository/InMemoryRestaurantAuditRepo.java:10-30 | appending an entry whose prevHash is tailHash() keeps a verified log verified |
| Audit.AppendOffTailBreaksChain | src/main/java/com/university/restaurant/repository/InMemoryRestaurantAuditRepo.java:20-25 | appending an entry with any other prevHash to a non-empty log makes verifyChain fail |
| Audit.ChangedHashBreaksChain | src/main/java/com/university/restaurant/repository/InMemoryRestaurantAuditRepo.java:20-25 | altering the stored hash of any entry but the last makes verifyChain fail |
| Audit.ContentEditKeepsLinked | src/main/java/com/university/restaurant/repository/InMemoryRestaurantAuditRepo.java:20-25 | verifyChain checks links only: an entry edited but keeping both hashes still verifies |
| Audit.AuditLog.Append | src/main/java/com/university/restaurant/repository/InMemoryRestaurantAuditRepo.java:10-12 | append adds at the end; the length grows by one and earlier entries are unchanged |
| Audit.AuditLog.All | src/main/java/com/university/restaurant/repository/InMemoryRestaurantAuditRepo.java:15-17 | all returns the entries in append order |
| Audit.AuditLog.TailHash | src/main/java/com/university/restaurant/repository/InMemoryRestaurantAuditRepo.java:28-30 | tailHash is GENESIS for an empty log and otherwise the hash of the last entry |
| Audit.TailOfAppend | src/main/java/com/university/restaurant/repository/InMemoryRestaurantAuditRepo.java:28-30 | after any append, tailHash is the appended entry's hash |
| Audit.AuditLog.VerifyChain | src/main/java/com/university/restaurant/repository/InMemoryRestaurantAuditRepo.java:20-25 | verifyChain is true iff every entry after the first names its predecessor's hash |
| Audit.AuditLog.Record | src/main/java/com/university/restaurant/service/InventoryService.java:107-115 | the services' append(new entry(..., tailHash())) adds one entry chained to the old tail, and a verified log stays verified |
| Repositories.InventoryRepo.FindById | src/main/java/com/university/restaurant/repository/InMemoryInventoryRepo.java:15-17 | present iff the id is stored, and then the stored item |
| Repositories.InventoryRepo.FindByName | src/main/java/com/university/restaurant/repository/InMemoryInventoryRepo.java:20-24 | some stored item whose name equals the query ignoring case; empty iff there is none |
| Repositories.InventoryRepo.FindByStatusLevels | src/main/java/com/university/restaurant/repository/InMemoryInventoryRepo.java:27-31 | a stored item is found by OUT_OF_STOCK iff its level is 0, by LOW_STOCK iff non-zero and at most the threshold, by IN_STOCK iff above it |
| Repositories.InventoryRepo.StatusQueriesPartition | src/main/java/com/university/restaurant/repository/InMemoryInventoryRepo.java:27-31 | the three status queries together return every stored item, each exactly once |
| Repositories.InventoryRepo.Save | src/main/java/com/university/restaurant/repository/InMemoryInventoryRepo.java:34-36 | save then findById returns the saved item; every other id finds what it found before |
| Repositories.MenuRepo.FindById | src/main/java/com/university/restaurant/repository/InMemoryMenuRepo.java:16-18 | present iff the id is stored, and then the stored menu item |
| Repositories.MenuRepo.Save | src/main/java/com/university/restaurant/repository/InMemoryMenuRepo.java:33-35 | save stores the item under its id |
| Repositories.OrderRepo.FindById | src/main/java/com/university/restaurant/repository/InMemoryOrderRepo.java:12-14 | present iff the id is stored, and then the stored order |
| Repositories.OrderRepo.FindByStatus | src/main/java/com/university/restaurant/repository/InMemoryOrderRepo.java:17-21 | returns only stored orders, each with the requested status |
| Repositories.OrderRepo.FindByTable | src/main/java/com/university/restaurant/repository/InMemoryOrderRepo.java:24-28 | returns only stored orders, each for the requested table |
| Repositories.OrderRepo.StatusQueriesDisjoint | src/main/java/com/university/restaurant/repository/InMemoryOrderRepo.java:17-21 | two different statuses never return the same order |
| Repositories.OrderRepo.QueriesCoverStore | src/main/java/com/university/restaurant/repository/InMemoryOrderRepo.java:17-28 | every stored order is returned by the query for its status and by the query for its table |
| Repositories.OrderRepo.Save | src/main/java/com/university/restaurant/repository/InMemoryOrderRepo.java:31-33 | save then findById returns the saved order; other ids are unaffected |
| Repositories.ReservationRepo.FindById | src/main/java/com/university/restaurant/repository/InMemoryReservationRepo.java:12-14 | present iff the id is stored, and then the stored reservation |
| Repositories.ReservationRepo.FindByDate | src/main/java/com/university/restaurant/repository/InMemoryReservationRepo.java:17-21 | a stored reservation is returned iff its time falls on the requested date |
| Repositories.ReservationRepo.FindActive | src/main/java/com/university/restaurant/repository/InMemoryReservationRepo.java:24-28 | returns only stored reservations that are CONFIRMED or SEATED |
| Repositories.ReservationRepo.InactiveAreCancelled | src/main/java/com/university/restaurant/repository/InMemoryReservationRepo.java:24-28 | a stored reservation is missing from findActive iff it is CANCELLED |
| Repositories.ReservationRepo.Save | src/main/java/com/university/restaurant/repository/InMemoryReservationRepo.java:31-33 | save then findById returns the saved reservation; other ids are unaffected |
| Repositories.PaymentRepo.Save | src/main/java/com/university/restaurant/repository/InMemoryPaymentRepo.java:15-17 | save stores the payment under its transaction id |
| InventoryServices.InventoryService.ReduceStock | src/main/java/com/university/restaurant/service/InventoryService.java:85-116 | non-manager: SecurityException; unknown id: IllegalArgumentException; too much: IllegalStateException; all with no change. It succeeds exactly when none of these applies, and then the stock drops by qty, a same-id menu item becomes unavailable at 0, and one REDUCE_STOCK entry is chained on |
| InventoryServices.InventoryService.IncreaseStock | src/main/java/com/university/restaurant/service/InventoryService.java:133-164 | non-manager: SecurityException; unknown id: IllegalArgumentException; otherwise the capped restock, a same-id menu item becomes available when stock > 0, and one RESTOCK entry is chained on |
| InventoryServices.InventoryService.GetStockLevel | src/main/java/com/university/restaurant/service/InventoryService.java:175-180 | the stored level, or IllegalArgumentException iff the id is unknown |
| OrderServices.BuildOrder | src/main/java/com/university/restaurant/service/OrderService.java:70-75 | the order is built iff every item is available, and then holds exactly the items in order, PENDING; otherwise IllegalStateException |
| OrderServices.OrderService.PlaceOrder | src/main/java/com/university/restaurant/service/OrderService.java:63-91 | SecurityException, then NumberFormatException, then IllegalStateException, each with no change; it succeeds exactly when none applies, and then a fresh PENDING order for the parsed table is saved and one PLACE_ORDER entry is chained on |
| OrderServices.OrderService.UpdateOrderStatus | src/main/java/com/university/restaurant/service/OrderService.java:109-133 | SecurityException; IllegalArgumentException iff the id is unknown or the name matches no status ignoring case; otherwise the status is set, saved and audited |
| OrderServices.OrderService.GetOrder | src/main/java/com/university/restaurant/service/OrderService.java:144-149 | the stored order, or IllegalArgumentException iff the id is unknown |
| PaymentServices.PaymentService.CompletePayment | src/main/java/com/university/restaurant/service/PaymentService.java:77-115 | SecurityException, unknown order IllegalArgumentException, not SERVED IllegalStateException, each with no change; it succeeds exactly when a permitted actor pays a stored SERVED order, and then the order is PAID with a payment of its total, both are saved, one entry is chained on, and the payment is returned |
| PaymentServices.PaymentService.GetPaymentForOrder | src/main/java/com/university/restaurant/service/PaymentService.java:132-164 | SecurityException, unknown order IllegalArgumentException, unpaid IllegalStateException; it succeeds exactly when a permitted actor asks for a stored paid order, and then returns its payment with one audit entry and no order changes |
| ReservationServices.ReservationService.CreateReservation | src/main/java/com/university/restaurant/service/ReservationService.java:60-84 | SecurityException with no change; otherwise a fresh CONFIRMED reservation with no table is saved and one CREATE_RESERVATION entry is chained on |
| ReservationServices.ReservationService.CancelReservation | src/main/java/com/university/restaurant/service/ReservationService.java:102-132 | SecurityException; unknown id returns false with no change; otherwise CANCELLED (so twice stays CANCELLED), saved, audited, true |
| ReservationServices.ReservationService.FindReservation | src/main/java/com/university/restaurant/service/ReservationService.java:143-151 | the stored reservation, or IllegalArgumentException iff the id is unknown |
| AnalyticsServices.CountNames | src/main/java/com/university/restaurant/service/AnalyticsService.java:74-79 | a name is a key iff it occurs, and its count is its number of occurrences, at least 1 |
| AnalyticsServices.SoldNamesRemove | src/main/java/com/university/restaurant/service/AnalyticsService.java:71-79 | the multiset of names sold does not depend on the order the orders are visited in |
| AnalyticsServices.FlatNamesIsSoldNames | src/main/java/com/university/restaurant/service/AnalyticsService.java:71-79 | flattening any listing of the completed orders gives the multiset of names they sold |
| AnalyticsServices.ListOf | src/main/java/com/university/restaurant/service/AnalyticsService.java:71-72 | a listing of a set of orders holds each of them exactly once |
| AnalyticsServices.AnalyticsService.TopSellingItems | src/main/java/com/university/restaurant/service/AnalyticsService.java:66-80 | succeeds iff the actor is a manager; the keys are exactly the names sold in PAID or SERVED orders, each with its count of line items |
| Locks.CompareToAntisymmetric | src/main/java/com/university/restaurant/service/concurrent/DeadlockSafeReservationService.java:23-24 | String.compareTo is antisymmetric and is 0 only on equal strings |
| Locks.TransferOrderIsGlobal | src/main/java/com/university/restaurant/service/concurrent/DeadlockSafeReservationService.java:40-48 | two transfers between the same two reservations, in either direction, take the locks in the same order: the smaller id's lock first |
| Locks.TableOrderIsGlobal | src/main/java/com/university/restaurant/service/concurrent/DeadlockSafeReservationService.java:161-167 | two operations on the same two tables take the locks in the same order |
| Locks.LockRegistry.ReleaseAll | src/main/java/com/university/restaurant/service/concurrent/DeadlockSafeReservationService.java:215-219 | the finally block releases exactly the acquired prefix, last first |
| Locks.LockRegistry.TransferReservation | src/main/java/com/university/restaurant/service/concurrent/DeadlockSafeReservationService.java:35-64 | lock the smaller-id reservation's lock, then the other, release them in reverse; no lock stays held |
| Locks.LockRegistry.WithOrderedTableLocks | src/main/java/com/university/restaurant/service/concurrent/DeadlockSafeReservationService.java:155-180 | lock the lower table's lock first, run the operation with both held, release in reverse; no lock stays held |
| Locks.LockRegistry.TryReserveWithTimeout | src/main/java/com/university/restaurant/service/concurrent/DeadlockSafeReservationService.java:76-98 | true iff the lock was acquired within the timeout, and then it is released before returning |
| Locks.LockRegistry.ReserveWithRetry | src/main/java/com/university/restaurant/service/concurrent/DeadlockSafeReservationService.java:109-143 | at most maxRetries attempts with timeouts 100, 200, 400, ... ms; true after the first success, false after all time out; no lock stays held |
| Locks.LockRegistry.TryLockAll | src/main/java/com/university/restaurant/service/concurrent/DeadlockSafeReservationService.java:192-221 | true iff every lock was acquired in array order and the operation ran; on every exit exactly the acquired prefix is released, last first |
| TableTransfer.TableLockMap | src/main/java/com/university/restaurant/service/concurrent/SafeTableTransferService.java:27-29 | exactly tables 1..50 have a lock |
| TableTransfer.LocksFor | src/main/java/com/university/restaurant/service/concurrent/SafeTableTransferService.java:95-100 | the lock of each table, in array order |
| TableTransfer.SortedTablesLockInGlobalOrder | src/main/java/com/university/restaurant/service/concurrent/SafeTableTransferService.java:92-93 | after sorting, locks are requested in ascending table order |
| TableTransfer.SortTables | src/main/java/com/university/restaurant/service/concurrent/SafeTableTransferService.java:93 | the caller's array is sorted ascending in place and holds the same numbers |
| TableTransfer.SafeTableTransferService.constructor | src/main/java/com/university/restaurant/service/concurrent/SafeTableTransferService.java:23-30 | the lock map holds exactly tables 1..50, each with its own lock |
| TableTransfer.SafeTableTransferService.TransferReservation | src/main/java/com/university/restaurant/service/concurrent/SafeTableTransferService.java:36-53 | IllegalArgumentException iff a table is outside 1..50, before any lock; otherwise true, after locking the lower table first |
| TableTransfer.SafeTableTransferService.TryReserveTable | src/main/java/com/university/restaurant/service/concurrent/SafeTableTransferService.java:58-71 | IllegalArgumentException iff the table is unknown; otherwise one tryLock with the timeout in seconds |
| TableTransfer.SafeTableTransferService.ReserveTableWithRetry | src/main/java/com/university/restaurant/service/concurrent/SafeTableTransferService.java:76-83 | IllegalArgumentException iff the table is unknown; otherwise reserveWithRetry with 5 attempts |
| TableTransfer.SafeTableTransferService.ReserveMultipleTables | src/main/java/com/university/restaurant/service/concurrent/SafeTableTransferService.java:89-108 | sorts the caller's array; IllegalArgumentException iff some table is unknown, before any lock; otherwise tryLockAll in ascending table order with 2-second timeouts |
| Kitchen.KitchenService.constructor | src/main/java/com/university/restaurant/service/concurrent/KitchenService.java:23-35 | a new kitchen has an empty queue and is not shut down |
| Kitchen.KitchenService.SubmitOrder | src/main/java/com/university/restaurant/service/concurrent/KitchenService.java:40-52 | after shutdown: IllegalStateException and nothing queued; otherwise the order joins the tail of the queue |
| Kitchen.KitchenService.GetQueueSize | src/main/java/com/university/restaurant/service/concurrent/KitchenService.java:57-59 | the number of queued orders not yet taken by a worker |
| Kitchen.KitchenService.Shutdown | src/main/java/com/university/restaurant/service/concurrent/KitchenService.java:64-65 | the flag is set; queued orders stay queued |
| Kitchen.KitchenService.ProcessOrder | src/main/java/com/university/restaurant/service/concurrent/KitchenService.java:111-129 | cooking takes 500 ms per item and the order ends READY with items and payment untouched |
| Kitchen.KitchenService.RunWorker | src/main/java/com/university/restaurant/service/concurrent/KitchenService.java:92-109 | each poll takes the head of the queue, in FIFO order; every order taken ends READY, every order left in the queue (and not also taken) keeps its status, and no order's items or payment change |
| AsyncOrders.AsyncOrderService.CreateOrder | src/main/java/com/university/restaurant/service/concurrent/AsyncOrderService.java:46-60 | SecurityException, then NumberFormatException, then IllegalStateException with no change; otherwise a fresh PENDING order with the table and items is saved |
| AsyncOrders.AsyncOrderService.NotifyKitchen | src/main/java/com/university/restaurant/service/concurrent/AsyncOrderService.java:85-93 | an order needing prep is queued and CONFIRMED, or fails with IllegalStateException after shutdown; other orders pass untouched |
| AsyncOrders.AsyncOrderService.PlaceOrderAsync | src/main/java/com/university/restaurant/service/concurrent/AsyncOrderService.java:45-83 | a stage failure skips the later stages and fails wrapped; a failed kitchen stage leaves the saved PENDING order unaudited; otherwise one PLACE_ORDER entry |
| AsyncOrders.AsyncOrderService.PlaceOrder | src/main/java/com/university/restaurant/service/concurrent/AsyncOrderService.java:102-108 | succeeds exactly when placeOrderAsync does; each failure (SecurityException, NumberFormatException, IllegalStateException from an item or from a shut-down kitchen) reaches the caller wrapped twice |
## Left out

- **Time and identifiers:** clocks and UUID generation are parameters, and a fresh id is passed in. Ids are compared as plain strings. `UUID.fromString` also accepts non-canonical spellings of a stored id, such as upper-case hex or short groups like "1-2-3-4-5" (OrderService.java:113,145; PaymentService.java:82,137; ReservationService.java:106,145). The model treats such a spelling as an unknown id. A malformed id makes Java throw IllegalArgumentException. The model gives the same error wherever an unknown id is IllegalArgumentException; the one exception is cancelReservation, listed next.
- ReservationServices.ReservationService.CancelReservation: a malformed reservation id returns `Ok(false)`, as for an unknown id. In Java, `UUID.fromString` at ReservationService.java:106 throws IllegalArgumentException before the lookup.
- Text.Upper, Text.Lower: map ASCII letters only, as in a fixed non-Turkic locale. Java's `toUpperCase` and `toLowerCase` use the Unicode tables and the default locale: under a Turkish locale "paid" upper-cases to "PAİD", and "ﬁ" or "ſ" upper-case to "FI" and "S".
- Text.EqualsIgnoreCase: compares under the ASCII mapping only. Java's `equalsIgnoreCase` also folds non-ASCII letters, so "CRÈME" equals "crème" there but not here.
- Text.EqualsIgnoreCaseIsUpperEquality: proved for the ASCII mapping only. In Java, `equalsIgnoreCase` and comparing `toUpperCase` results can disagree on characters outside ASCII.
- Text.ParseInt: accepts ASCII digits only. `Integer.parseInt` also accepts other Unicode decimal digits through `Character.digit`, so "１２" is 12 in Java and NumberFormatException here.
- Orders.ParseStatus: upper-cases with the ASCII mapping. Java accepts "conﬁrmed" (with the ligature) and "ſerved", and rejects "paid" under a Turkish locale; the model does the opposite in each case.
- Orders.ParseStatusIgnoresCase: the iff holds for the ASCII, fixed-locale mapping. It does not cover the Unicode and locale cases listed under Orders.ParseStatus.
- Orders.ParseStatusRejects: stated for the ASCII mapping. Java additionally accepts the special spellings listed under Orders.ParseStatus.
- Orders.ParseStatusOfLowerName: holds in Java only under a non-Turkic default locale.
- Repositories.InventoryRepo.FindByName: ignore-case matching is ASCII-only. Java's `findByName("CRÈME")` finds an item named "crème"; the model finds none.
- OrderServices.OrderService.UpdateOrderStatus: the status name is parsed with the ASCII-only Orders.ParseStatus above, and the order id is compared as a plain string.
- Menu.RequiredIngredients: a drink's or dessert's ingredient is its name lower-cased over ASCII only. Java lower-cases "CRÈME" to "crème"; the model gives "crÈme".
- **Integer width:** apart from restock's sum (see Findings), int arithmetic is unbounded.
- Inventory.InventoryItem.Consume: `consume(Integer.MIN_VALUE)` at stock 0 passes the check. Java's `stockLevel -= quantity` then wraps to Integer.MIN_VALUE; the model gives 2^31. InventoryServices.InventoryService.ReduceStock inherits this.
- Kitchen.KitchenService.constructor: requires `numWorkers > 0`. Java's `Executors.newFixedThreadPool` throws IllegalArgumentException otherwise; the pool itself is not modelled, so that exception is left out.
- **Payment repository:** `InMemoryPaymentRepo.findByTransactionId`, `findByDate` and `findAll` are not part of this model. Only `save` is used by the modelled services, and payments carry no timestamp here.
- **Hashing:** the SHA-256 digest is an uninterpreted function parameter (`digest`). No property depends on it being collision-free.
- **Money:** `double` arithmetic and rounding are modelled with `real`. Floating-point rounding of totals is not captured.
- **Thread timing and interruption:** there are no real threads. The following `InterruptedException` paths are not modelled:
  - in `tryReserveWithTimeout`;
  - in `reserveWithRetry`;
  - in `tryLockAll`;
  - in `processOrder`;
  - in the kitchen worker.

  The worker's catch-all cannot trigger in the sequential model. Sleeping is not modelled: `processOrder` returns the cooking time it would sleep, and retry backoff appears as the timeouts in the trace.
- **Concurrent effects:**
  - The kitchen worker may mark an order READY before the asynchronous stage writes CONFIRMED; that race is not modelled.
  - `KitchenService.RunWorker` runs one worker sequentially for a bounded number of polls, and the pool size is not modelled.
  - `Kitchen.KitchenService.Shutdown` only sets the flag. It does not model `workerPool.shutdown` or `awaitTermination`.
- **Iteration order:** collections the Java code returns in hash-map order are sets (repository queries) or maps (analytics).
- **Backoff overflow:** `Locks.Backoff` is an unbounded integer. The `long` overflow of `100 * 2^k` for very large retry counts is not modelled.
- **Messages:** exception messages and log output are dropped.
- Audit.NewEntry: the entry's free-text `details` and its `timestamp` are not fields of the model. They are also left out of the hashed string, so `digest` stands for SHA-256 of the full concatenation with those two fixed per entry. verifyChain never recomputes a hash, so no linking property depends on them.
- **Async service's other methods:** `AsyncOrderService.updateOrderStatus` and `getOrder` repeat OrderService's code line for line. OrderServices.OrderService.UpdateOrderStatus and OrderServices.OrderService.GetOrder model both classes.
- **Exception layering:** the `CompletionException` and `ExecutionException` layers are collapsed into `Wrapped`.
- **Order status type:** `OrderStatus.java` is not part of this model. The enum's constants and their order are taken from their use in the services.
- **Other classes:** the following are not part of this model:
  - `ConcurrentInventoryService`, `ConcurrentMenuService`, `ConcurrentReservationService` and `AsyncAnalyticsService`, which are lock wrappers around the modelled services;
  - `MenuService` and `MenuPermissionChain`;
  - `AnalyticsService.totalRevenueToday`, because it needs dates on orders, which the order model does not carry;
  - the REST controllers, persistence configuration and benchmarks.
- Locks.LockRegistry.WithOrderedTableLocks: the protected operation always completes. In Java the `Runnable` run at DeadlockSafeReservationService.java:173 may throw; the `finally` blocks then release both locks and the exception reaches the caller. The model does not have that exceptional path.
- Locks.LockRegistry.TryLockAll: the same holds for the operation run at DeadlockSafeReservationService.java:209. If it throws, Java releases the acquired locks and passes the exception on instead of returning true.
- Locks.TransferOrderIsGlobal: stated only for two distinct reservation ids. With equal ids, `compare` returns 0 and the two argument orders take the locks in opposite orders.

## Findings

| source | as written | input that shows it | evidently intended | confidence | as-written member | corrected member |
|---|---|---|---|---|---|---|
| src/main/java/com/university/restaurant/model/inventory/InventoryItem.java:59 | `stockLevel + quantity` is added in 32-bit `int` before the cap is applied, so the sum can wrap to a negative value | stock 1, maxCapacity 10, restock(2147483647) gives Integer.MIN_VALUE | the level is capped at maxCapacity, i.e. 10 | not executed | Inventory.RestockedLevelAsWritten (Inventory.RestockOverflowGoesNegative) | Inventory.RestockedLevel (Inventory.RestockedLevelIsInt32) |
