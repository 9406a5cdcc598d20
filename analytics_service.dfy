/**
 * AnalyticsService.topSellingItems: managers only; the item names of every
 * PAID or SERVED order, grouped by name and counted.
 */
module AnalyticsServices {
  import opened Common
  import Permissions
  import Menu
  import Orders
  import Repositories

  /** The names of a list of menu items, in order. */
  function ItemNames(items: seq<Menu.MenuItem>): (names: seq<string>)
    ensures |names| == |items| && forall i :: 0 <= i < |items| ==> names[i] == items[i].Name()
  {
    if |items| == 0 then [] else [items[0].Name()] + ItemNames(items[1..])
  }

  /** completed.stream().flatMap(o -> o.getItems().stream()), by name. */
  function FlatNames(completed: seq<Orders.Order>): seq<string>
    reads completed
  {
    if |completed| == 0 then [] else ItemNames(completed[0].items) + FlatNames(completed[1..])
  }

  /**
   * groupingBy(getName, counting()): a name is a key exactly when it occurs,
   * and its count is its number of occurrences (so every count is at least 1).
   */
  function CountNames(names: seq<string>): (counts: map<string, nat>)
    ensures forall x :: x in counts <==> x in names
    ensures forall x | x in counts :: counts[x] == multiset(names)[x] && counts[x] >= 1
  {
    if |names| == 0 then map[]
    else
      var init, x := names[..|names| - 1], names[|names| - 1];
      assert names == init + [x];
      var counts := CountNames(init);
      counts[x := (if x in counts then counts[x] else 0) + 1]
  }

  /**
   * Reference definition of what was sold: the multiset of the item names of a
   * set of orders, one order at a time in any order.
   */
  ghost function SoldNames(orders: set<Orders.Order>): multiset<string>
    reads orders
    decreases |orders|
  {
    if orders == {} then multiset{}
    else
      var o :| o in orders;
      multiset(ItemNames(o.items)) + SoldNames(orders - {o})
  }

  /** SoldNames does not depend on which order is taken first. */
  lemma {:induction false} SoldNamesRemove(orders: set<Orders.Order>, o: Orders.Order)
    requires o in orders
    ensures SoldNames(orders) == multiset(ItemNames(o.items)) + SoldNames(orders - {o})
    decreases |orders|
  {
    var p :| p in orders && SoldNames(orders) == multiset(ItemNames(p.items)) + SoldNames(orders - {p});
    if p != o {
      SoldNamesRemove(orders - {p}, o);
      SoldNamesRemove(orders - {o}, p);
      assert orders - {p} - {o} == orders - {o} - {p};
    }
  }

  /** The tail of a list without repeats has none, and does not hold the head. */
  lemma DistinctTail(completed: seq<Orders.Order>)
    requires |completed| > 0
    requires forall i, j :: 0 <= i < j < |completed| ==> completed[i] != completed[j]
    ensures forall i, j :: 0 <= i < j < |completed[1..]| ==> completed[1..][i] != completed[1..][j]
    ensures completed[0] !in completed[1..]
  {
    forall j | 0 <= j < |completed[1..]| ensures completed[1..][j] != completed[0] {
      assert completed[1..][j] == completed[j + 1];
    }
  }

  /** Without its head, the set of a list's elements is the set of its tail's. */
  lemma SetWithoutHead(completed: seq<Orders.Order>)
    requires |completed| > 0 && completed[0] !in completed[1..]
    ensures (set p | p in completed) - {completed[0]} == set p | p in completed[1..]
  {
    assert completed == [completed[0]] + completed[1..];
  }

  /** Flattening a list of distinct orders sells what the set of those orders sold. */
  lemma {:induction false} FlatNamesIsSoldNames(completed: seq<Orders.Order>)
    requires forall i, j :: 0 <= i < j < |completed| ==> completed[i] != completed[j]
    ensures multiset(FlatNames(completed)) == SoldNames(set o | o in completed)
  {
    if |completed| > 0 {
      var o, rest := completed[0], completed[1..];
      DistinctTail(completed);
      FlatNamesIsSoldNames(rest);
      SoldNamesRemove((set p | p in completed), o);
      SetWithoutHead(completed);
    }
  }

  /** The order the HashMap hands its values out in is unspecified: any list of the set, each element once. */
  method ListOf(orders: set<Orders.Order>) returns (list: seq<Orders.Order>)
    ensures (set o | o in list) == orders
    ensures forall i, j :: 0 <= i < j < |list| ==> list[i] != list[j]
  {
    list := [];
    var remaining := orders;
    while remaining != {}
      invariant remaining <= orders
      invariant (set o | o in list) == orders - remaining
      invariant forall i, j :: 0 <= i < j < |list| ==> list[i] != list[j]
      decreases |remaining|
    {
      var o :| o in remaining;
      assert (set p | p in list + [o]) == (set p | p in list) + {o};
      list := list + [o];
      remaining := remaining - {o};
    }
  }

  class AnalyticsService {
    const orders: Repositories.OrderRepo

    constructor (orders: Repositories.OrderRepo)
      ensures this.orders == orders
    {
      this.orders := orders;
    }

    /** The PAID and SERVED orders. */
    function Completed(): set<Orders.Order>
      reads this, orders, orders.store.Values
    {
      orders.FindByStatus(Orders.Paid) + orders.FindByStatus(Orders.Served)
    }

    /**
     * topSellingItems: a non-manager gets SecurityException. Otherwise the keys
     * are exactly the names sold in PAID or SERVED orders, each mapped to the
     * number of line items with that name across those orders.
     */
    method TopSellingItems(actor: StaffRole) returns (r: Result<map<string, nat>>)
      ensures r.Ok? <==> actor.Manager?
      ensures r.Err? ==> r.error == Security
      ensures r.Ok? ==> forall x :: x in r.value <==> x in SoldNames(Completed())
      ensures r.Ok? ==> forall x | x in r.value :: r.value[x] == SoldNames(Completed())[x] >= 1
    {
      Permissions.AnalyticsCheckDecision(actor);
      var allowed := Permissions.RunChain(Permissions.AnalyticsChain, actor);
      if allowed.Fail? {
        return Err(allowed.error);
      }
      var paidSet, servedSet := orders.FindByStatus(Orders.Paid), orders.FindByStatus(Orders.Served);
      var paid := ListOf(paidSet);
      var served := ListOf(servedSet);
      var completed := paid + served;
      forall i, j | 0 <= i < j < |completed| ensures completed[i] != completed[j] {
        if i < |paid| <= j {
          assert completed[i] in (set o | o in paid) && completed[j] in (set o | o in served);
          assert completed[i] in paidSet && completed[j] in servedSet;
        }
      }
      assert (set o | o in completed) == Completed();
      FlatNamesIsSoldNames(completed);
      return Ok(CountNames(FlatNames(completed)));
    }
  }
}
