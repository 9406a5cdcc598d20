/**
 * The in-memory repositories: a map from id to the stored object. The maps
 * hold references, so an object changed after it was saved is changed in the
 * repository too. The finders return sets: the Java lists come in HashMap
 * iteration order, which the model leaves unspecified.
 */
module Repositories {
  import opened Common
  import Text
  import Inventory
  import Menu
  import Orders
  import Reservations

  class InventoryRepo {
    var store: map<string, Inventory.InventoryItem>

    /** save keys every item by its own id. */
    ghost predicate Valid()
      reads this
    {
      forall k | k in store :: store[k].id == k
    }

    constructor ()
      ensures store == map[] && Valid()
    {
      store := map[];
    }

    function FindById(id: string): (r: Option<Inventory.InventoryItem>)
      reads this
      ensures r.Some? <==> id in store
      ensures r.Some? ==> r.value == store[id]
    {
      if id in store then Some(store[id]) else None
    }

    /** findByName: some stored item whose name equals the query ignoring case, if there is one. */
    method FindByName(name: string) returns (r: Option<Inventory.InventoryItem>)
      ensures r.Some? ==> r.value in store.Values && Text.EqualsIgnoreCase(r.value.name, name)
      ensures r.None? <==> forall x | x in store.Values :: !Text.EqualsIgnoreCase(x.name, name)
    {
      if x :| x in store.Values && Text.EqualsIgnoreCase(x.name, name) {
        return Some(x);
      }
      return None;
    }

    /** findByStatus: the stored items whose current status is `status`. */
    function FindByStatus(status: Inventory.StockStatus): set<Inventory.InventoryItem>
      reads this, store.Values
    {
      set x | x in store.Values && x.Status() == status
    }

    /** A stored item is found by the status query its level calls for: 0, up to the threshold, above it. */
    lemma FindByStatusLevels(x: Inventory.InventoryItem)
      requires x in store.Values
      ensures x in FindByStatus(Inventory.OutOfStock) <==> x.stockLevel == 0
      ensures x in FindByStatus(Inventory.LowStock) <==> x.stockLevel != 0 && x.stockLevel <= x.reorderThreshold
      ensures x in FindByStatus(Inventory.InStock) <==> x.stockLevel != 0 && x.stockLevel > x.reorderThreshold
    {
    }

    /** The three status queries split the stored items: each item is found by exactly one. */
    lemma StatusQueriesPartition()
      ensures FindByStatus(Inventory.InStock) + FindByStatus(Inventory.LowStock)
              + FindByStatus(Inventory.OutOfStock) == store.Values
      ensures FindByStatus(Inventory.InStock) * FindByStatus(Inventory.LowStock) == {}
      ensures FindByStatus(Inventory.InStock) * FindByStatus(Inventory.OutOfStock) == {}
      ensures FindByStatus(Inventory.LowStock) * FindByStatus(Inventory.OutOfStock) == {}
    {
    }

    /** save: store.put(item.getId(), item); every other id keeps its item. */
    method Save(item: Inventory.InventoryItem)
      modifies this
      ensures store == old(store)[item.id := item]
      ensures FindById(item.id) == Some(item)
      ensures forall k | k != item.id :: FindById(k) == old(FindById(k))
      ensures old(Valid()) ==> Valid()
    {
      store := store[item.id := item];
    }
  }

  class MenuRepo {
    var store: map<string, Menu.MenuItem>

    ghost predicate Valid()
      reads this
    {
      forall k | k in store :: store[k].id == k
    }

    constructor ()
      ensures store == map[] && Valid()
    {
      store := map[];
    }

    function FindById(id: string): (r: Option<Menu.MenuItem>)
      reads this
      ensures r.Some? <==> id in store
      ensures r.Some? ==> r.value == store[id]
    {
      if id in store then Some(store[id]) else None
    }

    method Save(item: Menu.MenuItem)
      modifies this
      ensures store == old(store)[item.id := item]
      ensures old(Valid()) ==> Valid()
    {
      store := store[item.id := item];
    }
  }

  class OrderRepo {
    var store: map<string, Orders.Order>

    ghost predicate Valid()
      reads this
    {
      forall k | k in store :: store[k].id == k
    }

    constructor ()
      ensures store == map[] && Valid()
    {
      store := map[];
    }

    function FindById(id: string): (r: Option<Orders.Order>)
      reads this
      ensures r.Some? <==> id in store
      ensures r.Some? ==> r.value == store[id]
    {
      if id in store then Some(store[id]) else None
    }

    /** findByStatus: the stored orders whose current status is `status`. */
    function FindByStatus(status: Orders.OrderStatus): (r: set<Orders.Order>)
      reads this, store.Values
      ensures r <= store.Values
      ensures forall o | o in r :: o.status == status
    {
      set o | o in store.Values && o.status == status
    }

    /** findByTable: the stored orders for that table. */
    function FindByTable(tableNumber: int): (r: set<Orders.Order>)
      reads this
      ensures r <= store.Values
      ensures forall o | o in r :: o.tableNumber == tableNumber
    {
      set o | o in store.Values && o.tableNumber == tableNumber
    }

    /** Two different statuses never find the same order. */
    lemma StatusQueriesDisjoint(s: Orders.OrderStatus, t: Orders.OrderStatus)
      requires s != t
      ensures FindByStatus(s) * FindByStatus(t) == {}
    {
    }

    /** Every stored order is found by the query for its own status and its own table. */
    lemma QueriesCoverStore(o: Orders.Order)
      requires o in store.Values
      ensures o in FindByStatus(o.status) && o in FindByTable(o.tableNumber)
    {
    }

    method Save(order: Orders.Order)
      modifies this
      ensures store == old(store)[order.id := order]
      ensures FindById(order.id) == Some(order)
      ensures forall k | k != order.id :: FindById(k) == old(FindById(k))
      ensures old(Valid()) ==> Valid()
    {
      store := store[order.id := order];
    }
  }

  class ReservationRepo {
    var store: map<string, Reservations.Reservation>

    ghost predicate Valid()
      reads this
    {
      forall k | k in store :: store[k].id == k
    }

    constructor ()
      ensures store == map[] && Valid()
    {
      store := map[];
    }

    function FindById(id: string): (r: Option<Reservations.Reservation>)
      reads this
      ensures r.Some? <==> id in store
      ensures r.Some? ==> r.value == store[id]
    {
      if id in store then Some(store[id]) else None
    }

    /** findByDate: the stored reservations whose time falls on that calendar date. */
    function FindByDate(date: Reservations.LocalDate): (r: set<Reservations.Reservation>)
      reads this
      ensures r <= store.Values
      ensures forall x | x in store.Values :: x in r <==> x.reservationTime.date == date
    {
      set r | r in store.Values && r.reservationTime.date == date
    }

    /** findActive: the stored reservations that are CONFIRMED or SEATED. */
    function FindActive(): (r: set<Reservations.Reservation>)
      reads this, store.Values
      ensures r <= store.Values
      ensures forall x | x in r :: x.status == Reservations.Confirmed || x.status == Reservations.Seated
    {
      set r | r in store.Values && r.IsActive()
    }

    /** A reservation is missing from findActive exactly when it is stored and CANCELLED. */
    lemma InactiveAreCancelled(r: Reservations.Reservation)
      requires r in store.Values
      ensures r !in FindActive() <==> r.status == Reservations.Cancelled
    {
    }

    method Save(reservation: Reservations.Reservation)
      modifies this
      ensures store == old(store)[reservation.id := reservation]
      ensures FindById(reservation.id) == Some(reservation)
      ensures forall k | k != reservation.id :: FindById(k) == old(FindById(k))
      ensures old(Valid()) ==> Valid()
    {
      store := store[reservation.id := reservation];
    }
  }

  /** Payments are keyed by transaction id. */
  class PaymentRepo {
    var store: map<string, Orders.Payment>

    constructor ()
      ensures store == map[]
    {
      store := map[];
    }

    method Save(payment: Orders.Payment)
      modifies this
      ensures store == old(store)[payment.transactionId := payment]
    {
      store := store[payment.transactionId := payment];
    }
  }
}
