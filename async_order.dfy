/**
 * AsyncOrderService.placeOrderAsync, run to completion: three stages chained
 * on a future. A failure in a stage skips the later ones, and the future
 * then fails with a RuntimeException wrapping it. The first stage has already
 * saved the order by the time the kitchen stage can fail, so that failure
 * leaves a saved PENDING order that was never audited. updateOrderStatus and
 * getOrder repeat OrderService's code and are modelled there.
 */
module AsyncOrders {
  import opened Common
  import Text
  import Permissions
  import Menu
  import Orders
  import Repositories
  import Audit
  import Kitchen
  import OrderServices

  /** The first stage succeeds: permission, table number and every item available. */
  predicate CreateSucceeds(actor: StaffRole, tableId: string, items: seq<Menu.MenuItem>)
    reads set i | 0 <= i < |items| :: items[i]
  {
    && Permissions.Check(Permissions.OrderChain, actor).Pass?
    && Text.ParseInt(tableId).Ok?
    && OrderServices.AllAvailable(items)
  }

  /** Whether the kitchen stage submits the order: some item needs kitchen preparation. */
  predicate NeedsKitchen(items: seq<Menu.MenuItem>)
  {
    Orders.AnyNeedsPrep(Menu.DishesOf(items))
  }

  class AsyncOrderService {
    const repo: Repositories.OrderRepo
    const audits: Audit.AuditLog
    const kitchen: Kitchen.KitchenService

    constructor (repo: Repositories.OrderRepo, audits: Audit.AuditLog, kitchen: Kitchen.KitchenService)
      ensures this.repo == repo && this.audits == audits && this.kitchen == kitchen
    {
      this.repo := repo;
      this.audits := audits;
      this.kitchen := kitchen;
    }

    /**
     * The first stage: permission check, table number, the order built item by
     * item, and the save. Nothing is saved unless every step succeeds.
     */
    method CreateOrder(actor: StaffRole, tableId: string, items: seq<Menu.MenuItem>, newId: string)
      returns (r: Result<Orders.Order>)
      requires repo.Valid()
      modifies repo
      ensures repo.Valid()
      ensures r.Ok? <==> CreateSucceeds(actor, tableId, items)
      ensures Permissions.Check(Permissions.OrderChain, actor).Fail? ==> r == Err(Security)
      ensures Permissions.Check(Permissions.OrderChain, actor).Pass? && Text.ParseInt(tableId).Err? ==>
                r == Err(NumberFormat)
      ensures (Permissions.Check(Permissions.OrderChain, actor).Pass? && Text.ParseInt(tableId).Ok?
               && !OrderServices.AllAvailable(items)) ==> r == Err(IllegalState)
      ensures r.Err? ==> unchanged(repo)
      ensures r.Ok? ==>
                && fresh(r.value) && r.value.id == newId
                && Text.ParseInt(tableId) == Ok(r.value.tableNumber)
                && r.value.assignedWaiterId == actor.id
                && r.value.items == items && r.value.status == Orders.Pending && r.value.payment == None
                && repo.store == old(repo.store)[newId := r.value]
    {
      var allowed := Permissions.RunChain(Permissions.OrderChain, actor);
      if allowed.Fail? {
        return Err(allowed.error);
      }
      var tableNum :- Text.ParseInt(tableId);
      var order :- OrderServices.BuildOrder(newId, tableNum, actor.id, items);
      repo.Save(order);
      return Ok(order);
    }

    /**
     * notifyKitchenAsync: an order that needs the kitchen is submitted and
     * then CONFIRMED; a shut-down kitchen fails the stage before the status
     * changes. Any other order passes through untouched.
     */
    method NotifyKitchen(order: Orders.Order) returns (r: Result<Orders.Order>)
      modifies kitchen, order
      ensures order.items == old(order.items) && order.payment == old(order.payment)
      ensures r.Err? <==> order.RequiresKitchenPrep() && old(kitchen.shutdown)
      ensures r.Err? ==> r.error == IllegalState && unchanged(kitchen, order)
      ensures r.Ok? ==> r.value == order
      ensures r.Ok? && order.RequiresKitchenPrep() ==>
                kitchen.queue == old(kitchen.queue) + [order] && order.status == Orders.Confirmed
                && kitchen.shutdown == old(kitchen.shutdown)
      ensures r.Ok? && !order.RequiresKitchenPrep() ==> unchanged(kitchen, order)
    {
      if order.RequiresKitchenPrep() {
        var submitted := kitchen.SubmitOrder(order);
        if submitted.Fail? {
          return Err(submitted.error);
        }
        order.UpdateStatus(Orders.Confirmed);
      }
      return Ok(order);
    }

    /**
     * placeOrderAsync, completed: create and save the order, notify the
     * kitchen, then append one PLACE_ORDER entry. A failure before the save
     * changes nothing; a shut-down kitchen leaves the saved PENDING order
     * without an audit entry. Every failure reaches the caller wrapped in a
     * RuntimeException.
     */
    method PlaceOrderAsync(actor: StaffRole, tableId: string, items: seq<Menu.MenuItem>, newId: string)
      returns (r: Result<Orders.Order>)
      requires repo.Valid()
      modifies repo, audits, kitchen
      ensures repo.Valid()
      ensures Permissions.Check(Permissions.OrderChain, actor).Fail? ==> r == Err(Wrapped(Security))
      ensures Permissions.Check(Permissions.OrderChain, actor).Pass? && Text.ParseInt(tableId).Err? ==>
                r == Err(Wrapped(NumberFormat))
      ensures (Permissions.Check(Permissions.OrderChain, actor).Pass? && Text.ParseInt(tableId).Ok?
               && !OrderServices.AllAvailable(items)) ==> r == Err(Wrapped(IllegalState))
      ensures !CreateSucceeds(actor, tableId, items) ==> unchanged(repo, audits, kitchen)
      ensures CreateSucceeds(actor, tableId, items) ==>
                && newId in repo.store && fresh(repo.store[newId])
                && repo.store == old(repo.store)[newId := repo.store[newId]]
                && Text.ParseInt(tableId) == Ok(repo.store[newId].tableNumber)
                && repo.store[newId].assignedWaiterId == actor.id
                && repo.store[newId].items == items && repo.store[newId].payment == None
      ensures CreateSucceeds(actor, tableId, items) && NeedsKitchen(items) && old(kitchen.shutdown) ==>
                && r == Err(Wrapped(IllegalState))
                && repo.store[newId].status == Orders.Pending
                && unchanged(audits, kitchen)
      ensures CreateSucceeds(actor, tableId, items) && !(NeedsKitchen(items) && old(kitchen.shutdown)) ==>
                && r == Ok(repo.store[newId])
                && audits.log == old(audits.log) + [Audit.NewEntry(audits.digest, actor.id, RoleName(actor),
                                   "PLACE_ORDER", Some("Order"), newId, Audit.TailOf(old(audits.log)))]
                && kitchen.shutdown == old(kitchen.shutdown)
                && (NeedsKitchen(items) ==>
                      kitchen.queue == old(kitchen.queue) + [r.value] && r.value.status == Orders.Confirmed)
                && (!NeedsKitchen(items) ==> kitchen.queue == old(kitchen.queue) && r.value.status == Orders.Pending)
      ensures old(Audit.Linked(audits.log)) ==> Audit.Linked(audits.log)
    {
      var created := CreateOrder(actor, tableId, items, newId);
      if created.Err? {
        return Err(Wrapped(created.error));
      }
      var order := created.value;
      var notified := NotifyKitchen(order);
      if notified.Err? {
        return Err(Wrapped(notified.error));
      }
      audits.Record(actor.id, RoleName(actor), "PLACE_ORDER", Some("Order"), newId);
      return Ok(order);
    }

    /**
     * placeOrder, the blocking fallback: waits for placeOrderAsync and wraps
     * any failure in one more RuntimeException.
     */
    method PlaceOrder(actor: StaffRole, tableId: string, items: seq<Menu.MenuItem>, newId: string)
      returns (r: Result<Orders.Order>)
      requires repo.Valid()
      modifies repo, audits, kitchen
      ensures repo.Valid()
      ensures r.Err? ==> r.error.Wrapped? && r.error.cause.Wrapped?
      ensures Permissions.Check(Permissions.OrderChain, actor).Fail? ==> r == Err(Wrapped(Wrapped(Security)))
      ensures Permissions.Check(Permissions.OrderChain, actor).Pass? && Text.ParseInt(tableId).Err? ==>
                r == Err(Wrapped(Wrapped(NumberFormat)))
      ensures (Permissions.Check(Permissions.OrderChain, actor).Pass? && Text.ParseInt(tableId).Ok?
               && !OrderServices.AllAvailable(items)) ==> r == Err(Wrapped(Wrapped(IllegalState)))
      ensures CreateSucceeds(actor, tableId, items) && NeedsKitchen(items) && old(kitchen.shutdown) ==>
                r == Err(Wrapped(Wrapped(IllegalState)))
      ensures !CreateSucceeds(actor, tableId, items) ==> r.Err? && unchanged(repo, audits, kitchen)
      ensures r.Ok? <==> CreateSucceeds(actor, tableId, items) && !(NeedsKitchen(items) && old(kitchen.shutdown))
      ensures r.Ok? ==> newId in repo.store && r.value == repo.store[newId] && fresh(r.value)
      ensures old(Audit.Linked(audits.log)) ==> Audit.Linked(audits.log)
    {
      var placed := PlaceOrderAsync(actor, tableId, items, newId);
      if placed.Err? {
        return Err(Wrapped(placed.error));
      }
      return placed;
    }
  }
}
