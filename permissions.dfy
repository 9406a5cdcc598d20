/**
 * The permission chains (Chain of Responsibility): each chain is a fixed list
 * of handlers; check walks the list and the first handler whose canHandle
 * accepts the role decides, by returning normally (allow) or throwing
 * SecurityException (deny). A chain in which no handler matches lets the
 * call through, because the Java loop simply falls off its end.
 */
module Permissions {
  import opened Common

  /** The three handler shapes every chain is built from. */
  datatype Handler = ManagerHandler | WaiterHandler | DenyHandler

  /** canHandle: `role instanceof Manager`, `role instanceof Waiter`, or always (the fallback). */
  predicate CanHandle(h: Handler, role: StaffRole)
  {
    match h
    case ManagerHandler => role.Manager?
    case WaiterHandler => role.Waiter?
    case DenyHandler => true
  }

  /** handle: the Manager and Waiter handlers do nothing; the Deny handler throws. */
  function Handle(h: Handler): Outcome
  {
    if h == DenyHandler then Fail(Security) else Pass
  }

  /** OrderPermissionChain: Manager, Waiter, Deny. */
  const OrderChain: seq<Handler> := [ManagerHandler, WaiterHandler, DenyHandler]
  /** PaymentPermissionChain: Manager, Waiter, Deny. */
  const PaymentChain: seq<Handler> := [ManagerHandler, WaiterHandler, DenyHandler]
  /** ReservationPermissionChain: Manager, Waiter, Deny. */
  const ReservationChain: seq<Handler> := [ManagerHandler, WaiterHandler, DenyHandler]
  /** InventoryPermissionChain: Manager, Deny. */
  const InventoryChain: seq<Handler> := [ManagerHandler, DenyHandler]
  /** AnalyticsPermissionChain (used by AnalyticsService): Manager, Deny. */
  const AnalyticsChain: seq<Handler> := [ManagerHandler, DenyHandler]

  /** The position of the first handler that accepts the role, or |chain| when none does. */
  function FirstMatch(chain: seq<Handler>, role: StaffRole): (k: nat)
    ensures k <= |chain|
    ensures k < |chain| ==> CanHandle(chain[k], role)
    ensures forall j :: 0 <= j < k ==> !CanHandle(chain[j], role)
  {
    if |chain| == 0 then 0
    else if CanHandle(chain[0], role) then 0
    else 1 + FirstMatch(chain[1..], role)
  }

  /** check(role, action): try the handlers in order; the first that can handle the role decides. */
  function Check(chain: seq<Handler>, role: StaffRole): (o: Outcome)
    ensures FirstMatch(chain, role) < |chain| ==> o == Handle(chain[FirstMatch(chain, role)])
    ensures FirstMatch(chain, role) == |chain| ==> o == Pass
    ensures o == Pass || o == Fail(Security)
  {
    if |chain| == 0 then Pass
    else if CanHandle(chain[0], role) then Handle(chain[0])
    else Check(chain[1..], role)
  }

  /**
   * The loop of every chain's check: walk the handlers in order and let the
   * first that can handle the role decide. It agrees with Check.
   */
  method RunChain(chain: seq<Handler>, role: StaffRole) returns (o: Outcome)
    ensures o == Check(chain, role)
  {
    var i := 0;
    while i < |chain|
      invariant 0 <= i <= |chain|
      invariant forall j :: 0 <= j < i ==> !CanHandle(chain[j], role)
    {
      if CanHandle(chain[i], role) {
        return Handle(chain[i]);
      }
      i := i + 1;
    }
    return Pass;
  }

  /** Order operations: managers and waiters pass, every other role gets SecurityException. */
  lemma OrderCheckDecision(role: StaffRole)
    ensures Check(OrderChain, role) == (if role.Manager? || role.Waiter? then Pass else Fail(Security))
  {
    // The fallback at position 2 bounds the first match; the role picks 0, 1 or 2.
    assert CanHandle(OrderChain[2], role);
    assert role.Manager? ==> CanHandle(OrderChain[0], role);
    assert role.Waiter? ==> CanHandle(OrderChain[1], role);
  }

  /** Payment operations: managers and waiters pass, a chef gets SecurityException. */
  lemma PaymentCheckDecision(role: StaffRole)
    ensures Check(PaymentChain, role) == (if role.Manager? || role.Waiter? then Pass else Fail(Security))
  {
    // The fallback at position 2 bounds the first match; the role picks 0, 1 or 2.
    assert CanHandle(PaymentChain[2], role);
    assert role.Manager? ==> CanHandle(PaymentChain[0], role);
    assert role.Waiter? ==> CanHandle(PaymentChain[1], role);
  }

  /** Reservation operations: managers and waiters pass, every other role gets SecurityException. */
  lemma ReservationCheckDecision(role: StaffRole)
    ensures Check(ReservationChain, role) == (if role.Manager? || role.Waiter? then Pass else Fail(Security))
  {
    // The fallback at position 2 bounds the first match; the role picks 0, 1 or 2.
    assert CanHandle(ReservationChain[2], role);
    assert role.Manager? ==> CanHandle(ReservationChain[0], role);
    assert role.Waiter? ==> CanHandle(ReservationChain[1], role);
  }

  /** Inventory operations: only managers pass; a waiter or a chef gets SecurityException. */
  lemma InventoryCheckDecision(role: StaffRole)
    ensures Check(InventoryChain, role) == (if role.Manager? then Pass else Fail(Security))
  {
    assert CanHandle(InventoryChain[1], role);
    assert role.Manager? ==> CanHandle(InventoryChain[0], role);
  }

  /** Analytics: only managers pass. */
  lemma AnalyticsCheckDecision(role: StaffRole)
    ensures Check(AnalyticsChain, role) == (if role.Manager? then Pass else Fail(Security))
  {
    assert CanHandle(AnalyticsChain[1], role);
    assert role.Manager? ==> CanHandle(AnalyticsChain[0], role);
  }

  /** A chain ending in the Deny fallback always has a deciding handler. */
  lemma FallbackAlwaysMatches(chain: seq<Handler>, role: StaffRole)
    requires |chain| > 0 && chain[|chain| - 1] == DenyHandler
    ensures FirstMatch(chain, role) < |chain|
  {
  }
}
