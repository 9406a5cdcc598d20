/**
 * PaymentService: completePayment turns a SERVED order into a PAID one with a
 * payment of the order total, saves both and audits; getPaymentForOrder
 * returns the recorded payment and audits the read.
 */
module PaymentServices {
  import opened Common
  import Permissions
  import Orders
  import Repositories
  import Audit

  class PaymentService {
    const orders: Repositories.OrderRepo
    const payments: Repositories.PaymentRepo
    const audits: Audit.AuditLog

    constructor (orders: Repositories.OrderRepo, payments: Repositories.PaymentRepo, audits: Audit.AuditLog)
      ensures this.orders == orders && this.payments == payments && this.audits == audits
    {
      this.orders := orders;
      this.payments := payments;
      this.audits := audits;
    }

    /**
     * completePayment: managers and waiters only; an unknown order is
     * IllegalArgumentException and an order that is not SERVED
     * IllegalStateException, and then nothing changes. On success the order is
     * PAID and carries a payment of its total under the fresh transaction id;
     * the order and the payment are saved, one COMPLETE_PAYMENT entry is chained
     * onto the log, and the payment is returned.
     */
    method CompletePayment(actor: StaffRole, orderId: string, payMethod: Orders.PaymentMethod, transactionId: string)
      returns (r: Result<Orders.Payment>)
      requires orders.Valid()
      modifies orders, payments, audits
      modifies if orderId in orders.store then {orders.store[orderId]} else {}
      ensures orders.Valid()
      ensures Permissions.Check(Permissions.PaymentChain, actor).Fail? ==> r == Err(Security)
      ensures Permissions.Check(Permissions.PaymentChain, actor).Pass? && orderId !in old(orders.store) ==>
                r == Err(IllegalArgument)
      ensures (Permissions.Check(Permissions.PaymentChain, actor).Pass? && orderId in old(orders.store)
               && old(orders.store[orderId].status) != Orders.Served) ==> r == Err(IllegalState)
      ensures r.Ok? <==> Permissions.Check(Permissions.PaymentChain, actor).Pass? && orderId in old(orders.store)
                         && old(orders.store[orderId].status) == Orders.Served
      ensures r.Err? ==> unchanged(orders, payments, audits) && unchanged(orders.store.Values)
      ensures r.Ok? ==>
                && orders.store == old(orders.store) && orderId in orders.store
                && old(orders.store[orderId].status) == Orders.Served
                && orders.store[orderId].status == Orders.Paid
                && r.value == Orders.Payment(payMethod, orders.store[orderId].CalculateTotal(), transactionId)
                && orders.store[orderId].payment == Some(r.value)
                && orders.store[orderId].items == old(orders.store[orderId].items)
                && payments.store == old(payments.store)[transactionId := r.value]
                && audits.log == old(audits.log) + [Audit.NewEntry(audits.digest, actor.id, RoleName(actor),
                                   "COMPLETE_PAYMENT", Some("Order"), orderId, Audit.TailOf(old(audits.log)))]
      ensures old(Audit.Linked(audits.log)) ==> Audit.Linked(audits.log)
    {
      var allowed := Permissions.RunChain(Permissions.PaymentChain, actor);
      if allowed.Fail? {
        return Err(allowed.error);
      }
      var found := orders.FindById(orderId);
      if found.None? {
        return Err(IllegalArgument);
      }
      var order := found.value;
      if order.status != Orders.Served {
        return Err(IllegalState);
      }
      var processed := order.ProcessPayment(payMethod, transactionId);
      orders.Save(order);
      var p := order.payment.value;
      payments.Save(p);
      audits.Record(actor.id, RoleName(actor), "COMPLETE_PAYMENT", Some("Order"), orderId);
      return Ok(p);
    }

    /**
     * getPaymentForOrder: managers and waiters only; an unknown order is
     * IllegalArgumentException and an unpaid one IllegalStateException. On
     * success one GET_PAYMENT_FOR_ORDER entry naming the transaction is chained
     * onto the log and the order's payment is returned; no order changes.
     */
    method GetPaymentForOrder(actor: StaffRole, orderId: string) returns (r: Result<Orders.Payment>)
      modifies audits
      ensures Permissions.Check(Permissions.PaymentChain, actor).Fail? ==> r == Err(Security)
      ensures Permissions.Check(Permissions.PaymentChain, actor).Pass? && orderId !in orders.store ==>
                r == Err(IllegalArgument)
      ensures (Permissions.Check(Permissions.PaymentChain, actor).Pass? && orderId in orders.store
               && orders.store[orderId].payment.None?) ==> r == Err(IllegalState)
      ensures r.Ok? <==> Permissions.Check(Permissions.PaymentChain, actor).Pass? && orderId in orders.store
                         && orders.store[orderId].payment.Some?
      ensures r.Err? ==> unchanged(audits)
      ensures r.Ok? ==>
                && orderId in orders.store && orders.store[orderId].payment == Some(r.value)
                && audits.log == old(audits.log) + [Audit.NewEntry(audits.digest, actor.id, RoleName(actor),
                                   "GET_PAYMENT_FOR_ORDER", Some("Payment"), r.value.transactionId,
                                   Audit.TailOf(old(audits.log)))]
      ensures old(Audit.Linked(audits.log)) ==> Audit.Linked(audits.log)
    {
      var allowed := Permissions.RunChain(Permissions.PaymentChain, actor);
      if allowed.Fail? {
        return Err(allowed.error);
      }
      var found := orders.FindById(orderId);
      if found.None? {
        return Err(IllegalArgument);
      }
      var payment := found.value.payment;
      if payment.None? {
        return Err(IllegalState);
      }
      audits.Record(actor.id, RoleName(actor), "GET_PAYMENT_FOR_ORDER", Some("Payment"), payment.value.transactionId);
      return Ok(payment.value);
    }
  }
}
