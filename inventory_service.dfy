/**
 * InventoryService: permission check, lookup, the InventoryItem domain rule,
 * save, the menu item's availability, and one audit entry, in that order.
 * Every failure happens before the first change, so a failed call changes
 * nothing.
 */
module InventoryServices {
  import opened Common
  import Permissions
  import Inventory
  import Repositories
  import Audit

  class InventoryService {
    const repo: Repositories.InventoryRepo
    const menuRepo: Repositories.MenuRepo
    const audits: Audit.AuditLog

    constructor (repo: Repositories.InventoryRepo, menuRepo: Repositories.MenuRepo, audits: Audit.AuditLog)
      ensures this.repo == repo && this.menuRepo == menuRepo && this.audits == audits
    {
      this.repo := repo;
      this.menuRepo := menuRepo;
      this.audits := audits;
    }

    /**
     * reduceStock: managers only; a missing item is IllegalArgumentException and
     * too large a quantity IllegalStateException. On success the stock drops by
     * qty, the menu item with the same id becomes unavailable when the stock
     * reaches 0, and one REDUCE_STOCK entry is chained onto the log.
     */
    method ReduceStock(actor: StaffRole, itemId: string, qty: int) returns (o: Outcome)
      requires repo.Valid() && menuRepo.Valid()
      modifies repo, menuRepo, audits
      modifies if itemId in repo.store then {repo.store[itemId]} else {}
      modifies if itemId in menuRepo.store then {menuRepo.store[itemId]} else {}
      ensures repo.Valid() && menuRepo.Valid()
      ensures Permissions.Check(Permissions.InventoryChain, actor).Fail? ==> o == Fail(Security)
      ensures Permissions.Check(Permissions.InventoryChain, actor).Pass? && itemId !in old(repo.store) ==>
                o == Fail(IllegalArgument)
      ensures (Permissions.Check(Permissions.InventoryChain, actor).Pass? && itemId in old(repo.store)
               && qty > old(repo.store[itemId].stockLevel)) ==> o == Fail(IllegalState)
      ensures o.Pass? <==> Permissions.Check(Permissions.InventoryChain, actor).Pass? && itemId in old(repo.store)
                           && qty <= old(repo.store[itemId].stockLevel)
      ensures o.Fail? ==> unchanged(repo, menuRepo, audits) && unchanged(repo.store.Values)
                          && unchanged(menuRepo.store.Values)
      ensures o.Pass? ==>
                && repo.store == old(repo.store) && menuRepo.store == old(menuRepo.store)
                && itemId in repo.store
                && repo.store[itemId].stockLevel == old(repo.store[itemId].stockLevel) - qty
                && (itemId in menuRepo.store ==>
                      menuRepo.store[itemId].available ==
                      (if repo.store[itemId].stockLevel == 0 then false else old(menuRepo.store[itemId].available)))
                && audits.log == old(audits.log) + [Audit.NewEntry(audits.digest, actor.id, RoleName(actor),
                                   "REDUCE_STOCK", Some("InventoryItem"), itemId, Audit.TailOf(old(audits.log)))]
      ensures old(Audit.Linked(audits.log)) ==> Audit.Linked(audits.log)
    {
      o := Permissions.RunChain(Permissions.InventoryChain, actor);
      if o.Fail? {
        return;
      }
      var found := repo.FindById(itemId);
      if found.None? {
        return Fail(IllegalArgument);
      }
      var item := found.value;
      o := item.Consume(qty);
      if o.Fail? {
        return;
      }
      repo.Save(item);
      if item.stockLevel == 0 {
        var menuItem := menuRepo.FindById(itemId);
        if menuItem.Some? {
          menuItem.value.SetAvailable(false);
          menuRepo.Save(menuItem.value);
        }
      }
      audits.Record(actor.id, RoleName(actor), "REDUCE_STOCK", Some("InventoryItem"), itemId);
    }

    /**
     * increaseStock: managers only; a missing item is IllegalArgumentException.
     * On success the stock becomes min(stock + qty, maxCapacity), the menu item
     * with the same id becomes available when the stock is positive, and one
     * RESTOCK entry is chained onto the log.
     */
    method IncreaseStock(actor: StaffRole, itemId: string, qty: int) returns (o: Outcome)
      requires repo.Valid() && menuRepo.Valid()
      modifies repo, menuRepo, audits
      modifies if itemId in repo.store then {repo.store[itemId]} else {}
      modifies if itemId in menuRepo.store then {menuRepo.store[itemId]} else {}
      ensures repo.Valid() && menuRepo.Valid()
      ensures Permissions.Check(Permissions.InventoryChain, actor).Fail? ==> o == Fail(Security)
      ensures Permissions.Check(Permissions.InventoryChain, actor).Pass? ==>
                (o.Pass? <==> itemId in old(repo.store))
      ensures o.Fail? ==> unchanged(repo, menuRepo, audits) && unchanged(repo.store.Values)
                          && unchanged(menuRepo.store.Values)
      ensures o.Fail? && Permissions.Check(Permissions.InventoryChain, actor).Pass? ==> o == Fail(IllegalArgument)
      ensures o.Pass? ==>
                && repo.store == old(repo.store) && menuRepo.store == old(menuRepo.store)
                && itemId in repo.store
                && repo.store[itemId].stockLevel ==
                   Inventory.RestockedLevel(old(repo.store[itemId].stockLevel), qty, repo.store[itemId].maxCapacity)
                && (itemId in menuRepo.store ==>
                      menuRepo.store[itemId].available ==
                      (if repo.store[itemId].stockLevel > 0 then true else old(menuRepo.store[itemId].available)))
                && audits.log == old(audits.log) + [Audit.NewEntry(audits.digest, actor.id, RoleName(actor),
                                   "RESTOCK", Some("InventoryItem"), itemId, Audit.TailOf(old(audits.log)))]
      ensures old(Audit.Linked(audits.log)) ==> Audit.Linked(audits.log)
    {
      o := Permissions.RunChain(Permissions.InventoryChain, actor);
      if o.Fail? {
        return;
      }
      var found := repo.FindById(itemId);
      if found.None? {
        return Fail(IllegalArgument);
      }
      var item := found.value;
      item.Restock(qty);
      repo.Save(item);
      if item.stockLevel > 0 {
        var menuItem := menuRepo.FindById(itemId);
        if menuItem.Some? {
          menuItem.value.SetAvailable(true);
          menuRepo.Save(menuItem.value);
        }
      }
      audits.Record(actor.id, RoleName(actor), "RESTOCK", Some("InventoryItem"), itemId);
    }

    /** getStockLevel: no permission check; the stored level, or IllegalArgumentException. */
    function GetStockLevel(itemId: string): (r: Result<int>)
      reads this, repo, repo.store.Values
      ensures r.Ok? <==> itemId in repo.store
      ensures r.Ok? ==> r.value == repo.store[itemId].stockLevel
      ensures r.Err? ==> r.error == IllegalArgument
    {
      match repo.FindById(itemId)
      case Some(item) => Ok(item.stockLevel)
      case None => Err(IllegalArgument)
    }
  }
}
