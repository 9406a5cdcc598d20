/**
 * OrderService: placeOrder builds an order item by item, saves it and audits
 * it; updateOrderStatus parses the requested status ignoring case; getOrder
 * is a lookup. Order ids are UUID strings: a malformed id is modelled as one
 * that is not stored, and both give IllegalArgumentException.
 */
module OrderServices {
  import opened Common
  import Text
  import Permissions
  import Menu
  import Orders
  import Repositories
  import Audit

  predicate AllAvailable(items: seq<Menu.MenuItem>)
    reads set i | 0 <= i < |items| :: items[i]
  {
    forall i :: 0 <= i < |items| ==> items[i].available
  }

  /**
   * new Order(tableNum, waiterId) followed by addItem for every item in turn.
   * The first unavailable item throws IllegalStateException and the half-built
   * order is dropped; otherwise the order holds exactly the items, in order.
   */
  method BuildOrder(id: string, tableNumber: int, waiterId: string, items: seq<Menu.MenuItem>)
    returns (r: Result<Orders.Order>)
    ensures r.Ok? <==> AllAvailable(items)
    ensures r.Err? ==> r.error == IllegalState
    ensures r.Ok? ==> fresh(r.value) && r.value.id == id && r.value.tableNumber == tableNumber
                      && r.value.assignedWaiterId == waiterId && r.value.items == items
                      && r.value.status == Orders.Pending && r.value.payment == None
  {
    var order := new Orders.Order(id, tableNumber, waiterId);
    var i := 0;
    while i < |items|
      invariant 0 <= i <= |items|
      invariant order.items == items[..i]
      invariant order.status == Orders.Pending && order.payment == None
      invariant forall j :: 0 <= j < i ==> items[j].available
    {
      var added := order.AddItem(items[i]);
      if added.Fail? {
        return Err(IllegalState);
      }
      i := i + 1;
    }
    assert items[..i] == items;
    return Ok(order);
  }

  class OrderService {
    const repo: Repositories.OrderRepo
    const audits: Audit.AuditLog

    constructor (repo: Repositories.OrderRepo, audits: Audit.AuditLog)
      ensures this.repo == repo && this.audits == audits
    {
      this.repo := repo;
      this.audits := audits;
    }

    /**
     * placeOrder: managers and waiters only; a non-numeric table id is a
     * NumberFormatException before any order exists; an unavailable item an
     * IllegalStateException. On success the new PENDING order for the parsed
     * table, holding the items in order, is saved under its fresh id and one
     * PLACE_ORDER entry is chained onto the log.
     */
    method PlaceOrder(actor: StaffRole, tableId: string, items: seq<Menu.MenuItem>, newId: string)
      returns (r: Result<Orders.Order>)
      requires repo.Valid()
      modifies repo, audits
      ensures repo.Valid()
      ensures Permissions.Check(Permissions.OrderChain, actor).Fail? ==> r == Err(Security)
      ensures Permissions.Check(Permissions.OrderChain, actor).Pass? && Text.ParseInt(tableId).Err? ==>
                r == Err(NumberFormat)
      ensures (Permissions.Check(Permissions.OrderChain, actor).Pass? && Text.ParseInt(tableId).Ok?
               && !AllAvailable(items)) ==> r == Err(IllegalState)
      ensures r.Ok? <==> Permissions.Check(Permissions.OrderChain, actor).Pass? && Text.ParseInt(tableId).Ok?
                         && AllAvailable(items)
      ensures r.Err? ==> unchanged(repo, audits)
      ensures r.Ok? ==>
                && fresh(r.value) && r.value.id == newId
                && Text.ParseInt(tableId) == Ok(r.value.tableNumber)
                && r.value.assignedWaiterId == actor.id
                && r.value.items == items && r.value.status == Orders.Pending && r.value.payment == None
                && repo.store == old(repo.store)[newId := r.value]
                && audits.log == old(audits.log) + [Audit.NewEntry(audits.digest, actor.id, RoleName(actor),
                                   "PLACE_ORDER", Some("Order"), newId, Audit.TailOf(old(audits.log)))]
      ensures old(Audit.Linked(audits.log)) ==> Audit.Linked(audits.log)
    {
      var allowed := Permissions.RunChain(Permissions.OrderChain, actor);
      if allowed.Fail? {
        return Err(allowed.error);
      }
      var tableNum :- Text.ParseInt(tableId);
      var order :- BuildOrder(newId, tableNum, actor.id, items);
      repo.Save(order);
      audits.Record(actor.id, RoleName(actor), "PLACE_ORDER", Some("Order"), newId);
      return Ok(order);
    }

    /**
     * updateOrderStatus: managers and waiters only; an unknown order id, then an
     * unknown status name (compared ignoring case), is IllegalArgumentException.
     * On success the order has the new status, is saved, and one
     * UPDATE_ORDER_STATUS entry is chained onto the log.
     */
    method UpdateOrderStatus(actor: StaffRole, orderId: string, newStatus: string) returns (o: Outcome)
      requires repo.Valid()
      modifies repo, audits
      modifies if orderId in repo.store then {repo.store[orderId]} else {}
      ensures repo.Valid()
      ensures Permissions.Check(Permissions.OrderChain, actor).Fail? ==> o == Fail(Security)
      ensures Permissions.Check(Permissions.OrderChain, actor).Pass? ==>
                (o.Pass? <==> orderId in old(repo.store) && Orders.ParseStatus(newStatus).Ok?)
      ensures o.Fail? && Permissions.Check(Permissions.OrderChain, actor).Pass? ==> o == Fail(IllegalArgument)
      ensures o.Fail? ==> unchanged(repo, audits) && unchanged(repo.store.Values)
      ensures o.Pass? ==>
                && repo.store == old(repo.store) && orderId in repo.store
                && repo.store[orderId].status == Orders.ParseStatus(newStatus).value
                && repo.store[orderId].items == old(repo.store[orderId].items)
                && repo.store[orderId].payment == old(repo.store[orderId].payment)
                && audits.log == old(audits.log) + [Audit.NewEntry(audits.digest, actor.id, RoleName(actor),
                                   "UPDATE_ORDER_STATUS", Some("Order"), orderId, Audit.TailOf(old(audits.log)))]
      ensures old(Audit.Linked(audits.log)) ==> Audit.Linked(audits.log)
    {
      o := Permissions.RunChain(Permissions.OrderChain, actor);
      if o.Fail? {
        return;
      }
      var found := repo.FindById(orderId);
      if found.None? {
        return Fail(IllegalArgument);
      }
      var order := found.value;
      var status := Orders.ParseStatus(newStatus);
      if status.Err? {
        return Fail(status.error);
      }
      order.UpdateStatus(status.value);
      repo.Save(order);
      audits.Record(actor.id, RoleName(actor), "UPDATE_ORDER_STATUS", Some("Order"), orderId);
    }

    /** getOrder: no permission check; the stored order, or IllegalArgumentException. */
    function GetOrder(orderId: string): (r: Result<Orders.Order>)
      reads this, repo
      ensures r.Ok? <==> orderId in repo.store
      ensures r.Ok? ==> r.value == repo.store[orderId]
      ensures r.Err? ==> r.error == IllegalArgument
    {
      match repo.FindById(orderId)
      case Some(order) => Ok(order)
      case None => Err(IllegalArgument)
    }
  }
}
