/**
 * Orders and payments. An `Order` is mutable: its item list grows through
 * addItem, its status is overwritten by updateStatus, and processPayment
 * attaches a `Payment` and marks it PAID once it has been SERVED.
 */
module Orders {
  import opened Common
  import Text
  import Menu

  datatype OrderStatus = Pending | Confirmed | Ready | Served | Paid

  /** OrderStatus.name(). */
  function StatusName(s: OrderStatus): string
  {
    match s
    case Pending => "PENDING"
    case Confirmed => "CONFIRMED"
    case Ready => "READY"
    case Served => "SERVED"
    case Paid => "PAID"
  }

  /** OrderStatus.valueOf(name): an exact constant name, or IllegalArgumentException. */
  function ValueOf(name: string): (r: Result<OrderStatus>)
    ensures r.Ok? ==> StatusName(r.value) == name
    ensures r.Err? ==> r.error == IllegalArgument && forall s: OrderStatus :: StatusName(s) != name
  {
    if name == "PENDING" then Ok(Pending)
    else if name == "CONFIRMED" then Ok(Confirmed)
    else if name == "READY" then Ok(Ready)
    else if name == "SERVED" then Ok(Served)
    else if name == "PAID" then Ok(Paid)
    else Err(IllegalArgument)
  }

  /** OrderStatus.valueOf(newStatus.toUpperCase()), as both order services parse a requested status. */
  function ParseStatus(name: string): (r: Result<OrderStatus>)
    ensures r.Ok? ==> Text.Upper(name) == StatusName(r.value)
    ensures r.Err? ==> r.error == IllegalArgument
  {
    ValueOf(Text.Upper(name))
  }

  lemma StatusNameHasNoLowerCase(s: OrderStatus)
    ensures forall i :: 0 <= i < |StatusName(s)| ==> !('a' <= StatusName(s)[i] <= 'z')
  {
  }

  lemma UpperOfStatusName(s: OrderStatus)
    ensures Text.Upper(StatusName(s)) == StatusName(s)
  {
    var n := StatusName(s);
    assert forall i :: 0 <= i < |n| ==> Text.Upper(n)[i] == n[i];
  }

  /**
   * A status name is accepted exactly when it equals a constant's name ignoring
   * case, and then it denotes that constant.
   */
  lemma {:induction false} ParseStatusIgnoresCase(name: string, s: OrderStatus)
    ensures ParseStatus(name) == Ok(s) <==> Text.EqualsIgnoreCase(name, StatusName(s))
  {
    Text.EqualsIgnoreCaseIsUpperEquality(name, StatusName(s));
    UpperOfStatusName(s);
  }

  /** A name that matches no constant ignoring case is rejected with IllegalArgumentException. */
  lemma ParseStatusRejects(name: string)
    requires forall s: OrderStatus :: !Text.EqualsIgnoreCase(name, StatusName(s))
    ensures ParseStatus(name) == Err(IllegalArgument)
  {
    if ParseStatus(name).Ok? {
      ParseStatusIgnoresCase(name, ParseStatus(name).value);
      assert false;
    }
  }

  /** Every constant reads back from its lower-cased name ("served" is SERVED). */
  lemma ParseStatusOfLowerName(s: OrderStatus)
    ensures ParseStatus(Text.Lower(StatusName(s))) == Ok(s)
  {
    StatusNameHasNoLowerCase(s);
    Text.UpperOfLower(StatusName(s));
  }

  datatype PaymentMethod = Cash | CreditCard | DebitCard | Mobile

  /** A payment: method, amount and the transaction id ("TXN-" and eight hex digits, drawn fresh). */
  datatype Payment = Payment(payMethod: PaymentMethod, amount: real, transactionId: string)

  /** calculateTotal over the dishes of an order: the sum of their prices. */
  function Total(dishes: seq<Menu.Dish>): real
  {
    Menu.SumPrices(dishes)
  }

  /** Adding a dish adds its price to the total. */
  lemma {:induction false} TotalOfAppend(dishes: seq<Menu.Dish>, d: Menu.Dish)
    ensures Total(dishes + [d]) == Total(dishes) + Menu.Price(d)
  {
    if |dishes| > 0 {
      assert (dishes + [d])[1..] == dishes[1..] + [d];
      TotalOfAppend(dishes[1..], d);
    } else {
      assert ([] + [d])[1..] == [];
    }
  }

  /** The total of an empty order is 0. */
  lemma TotalOfEmpty()
    ensures Total([]) == 0.0
  {
  }

  /** requiresKitchenPrep: anyMatch over the items. */
  predicate AnyNeedsPrep(dishes: seq<Menu.Dish>)
  {
    exists i | 0 <= i < |dishes| :: Menu.RequiresKitchenPrep(dishes[i])
  }

  /** An order needs the kitchen exactly when a combo of its dishes would. */
  lemma AnyNeedsPrepIsComboPrep(dishes: seq<Menu.Dish>, name: string, discount: real)
    ensures AnyNeedsPrep(dishes) <==> Menu.RequiresKitchenPrep(Menu.ComboDish(name, dishes, discount))
  {
  }

  /** After appending a dish, the order needs prep iff it did or the new dish does. */
  lemma AnyNeedsPrepOfAppend(dishes: seq<Menu.Dish>, d: Menu.Dish)
    ensures AnyNeedsPrep(dishes + [d]) <==> AnyNeedsPrep(dishes) || Menu.RequiresKitchenPrep(d)
  {
    if AnyNeedsPrep(dishes) {
      var i :| 0 <= i < |dishes| && Menu.RequiresKitchenPrep(dishes[i]);
      assert (dishes + [d])[i] == dishes[i];
    }
    if Menu.RequiresKitchenPrep(d) {
      assert (dishes + [d])[|dishes|] == d;
    }
  }

  class Order {
    const id: string
    var items: seq<Menu.MenuItem>
    const tableNumber: int
    var status: OrderStatus
    var payment: Option<Payment>
    const assignedWaiterId: string

    /** A new order is PENDING, empty and unpaid; the id is drawn fresh by the caller. */
    constructor (id: string, tableNumber: int, waiterId: string)
      ensures this.id == id && this.tableNumber == tableNumber && assignedWaiterId == waiterId
      ensures status == Pending && items == [] && payment == None
    {
      this.id := id;
      this.tableNumber := tableNumber;
      assignedWaiterId := waiterId;
      items := [];
      status := Pending;
      payment := None;
    }

    /** The dishes of the items, in order. */
    function Dishes(): seq<Menu.Dish>
      reads this
    {
      Menu.DishesOf(items)
    }

    /** addItem: an unavailable item throws IllegalStateException; otherwise it goes at the end. */
    method AddItem(item: Menu.MenuItem) returns (o: Outcome)
      modifies this
      ensures !item.available ==> o == Fail(IllegalState) && items == old(items)
      ensures item.available ==> o == Pass && items == old(items) + [item]
      ensures item.available ==> CalculateTotal() == old(CalculateTotal()) + Menu.Price(item.dish)
      ensures status == old(status) && payment == old(payment)
    {
      if !item.available {
        return Fail(IllegalState);
      }
      items := items + [item];
      o := Pass;
    }

    /**
     * calculateTotal: nothing for an empty order; otherwise the total of every
     * item but the last, plus the last item's price.
     */
    function CalculateTotal(): (t: real)
      reads this
      ensures |items| == 0 ==> t == 0.0
      ensures |items| > 0 ==> t == Total(Menu.DishesOf(items[..|items| - 1])) + Menu.Price(items[|items| - 1].dish)
    {
      if |items| == 0 then Total(Dishes())
      else
        var front := Menu.DishesOf(items[..|items| - 1]);
        assert Dishes() == front + [items[|items| - 1].dish];
        TotalOfAppend(front, items[|items| - 1].dish);
        Total(Dishes())
    }

    /** updateStatus: any status may follow any other. */
    method UpdateStatus(newStatus: OrderStatus)
      modifies this
      ensures status == newStatus
      ensures items == old(items) && payment == old(payment)
    {
      status := newStatus;
    }

    /**
     * processPayment: only a SERVED order can be paid (IllegalArgumentException
     * otherwise, nothing changes); it then carries a payment of the order total
     * and is PAID.
     */
    method ProcessPayment(payMethod: PaymentMethod, transactionId: string) returns (o: Outcome)
      modifies this
      ensures old(status) != Served ==> o == Fail(IllegalArgument) && status == old(status) && payment == old(payment)
      ensures old(status) == Served ==>
                o == Pass && status == Paid && payment == Some(Payment(payMethod, CalculateTotal(), transactionId))
      ensures items == old(items)
    {
      if status != Served {
        return Fail(IllegalArgument);
      }
      payment := Some(Payment(payMethod, CalculateTotal(), transactionId));
      status := Paid;
      o := Pass;
    }

    /** requiresKitchenPrep: some item's dish needs the kitchen. */
    predicate RequiresKitchenPrep()
      reads this
      ensures RequiresKitchenPrep() <==> exists i | 0 <= i < |items| :: Menu.RequiresKitchenPrep(items[i].dish)
    {
      AnyNeedsPrep(Dishes())
    }

    /** getItems: List.copyOf, a snapshot the caller cannot use to change the order. */
    function GetItems(): (r: seq<Menu.MenuItem>)
      reads this
      ensures |r| == |items| && forall i :: 0 <= i < |r| ==> r[i] == items[i]
    {
      items
    }
  }
}
