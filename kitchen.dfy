/**
 * KitchenService, sequentially: a FIFO queue of orders that submitOrder feeds
 * until the service is shut down, and the worker loop that takes orders from
 * the head and marks them READY. The thread pool, the one-second poll timeout
 * and the simulated cooking sleep are time, not state; the cooking time is
 * returned instead of slept.
 */
module Kitchen {
  import opened Common
  import Orders

  /** Simulated cooking time per item, in milliseconds. */
  const CookMsPerItem: int := 500

  class KitchenService {
    const numWorkers: int
    var queue: seq<Orders.Order>
    var shutdown: bool

    /** A fixed pool needs at least one worker (Executors throws IllegalArgumentException otherwise). */
    constructor (numWorkers: int)
      requires numWorkers > 0
      ensures this.numWorkers == numWorkers && queue == [] && !shutdown
    {
      this.numWorkers := numWorkers;
      queue := [];
      shutdown := false;
    }

    /**
     * submitOrder: after shutdown, IllegalStateException and the queue is
     * untouched; otherwise the order joins the back of the (unbounded) queue.
     */
    method SubmitOrder(order: Orders.Order) returns (o: Outcome)
      modifies this
      ensures o.Fail? <==> old(shutdown)
      ensures o.Fail? ==> o.error == IllegalState && unchanged(this)
      ensures o.Pass? ==> queue == old(queue) + [order]
      ensures shutdown == old(shutdown)
    {
      if shutdown {
        return Fail(IllegalState);
      }
      queue := queue + [order];
      return Pass;
    }

    /** getQueueSize: the number of orders waiting for a worker. */
    function GetQueueSize(): (n: nat)
      reads this
      ensures n == |queue|
    {
      |queue|
    }

    /** shutdown: no further submissions; orders already queued stay queued. */
    method Shutdown()
      modifies this
      ensures shutdown && queue == old(queue)
    {
      shutdown := true;
    }

    /**
     * processOrder: cook for 500 ms per item, then mark the order READY. Its
     * items and payment are untouched.
     */
    method ProcessOrder(order: Orders.Order) returns (cookingTimeMs: int)
      modifies order
      ensures cookingTimeMs == |order.items| * CookMsPerItem
      ensures order.status == Orders.Ready
      ensures order.items == old(order.items) && order.payment == old(order.payment)
    {
      cookingTimeMs := |order.items| * CookMsPerItem;
      order.UpdateStatus(Orders.Ready);
    }

    /**
     * One worker's loop, interrupted after `polls` polls: each poll takes the
     * head of the queue, if any, and processes it; an empty poll just times
     * out. The orders taken are the first min(polls, |queue|), in FIFO order,
     * and every one of them ends READY.
     */
    method RunWorker(polls: nat)
      modifies this, set i | 0 <= i < |queue| :: queue[i]
      ensures var taken := if polls < |old(queue)| then polls else |old(queue)|;
              && queue == old(queue)[taken..]
              && (forall i :: 0 <= i < taken ==> old(queue)[i].status == Orders.Ready)
              && (forall i :: taken <= i < |old(queue)| && old(queue)[i] !in old(queue)[..taken] ==>
                    old(queue)[i].status == old(queue[i].status))
      ensures forall i :: 0 <= i < |old(queue)| ==>
                old(queue)[i].items == old(queue[i].items) && old(queue)[i].payment == old(queue[i].payment)
      ensures shutdown == old(shutdown)
    {
      var p := 0;
      var taken := 0;
      while p < polls
        invariant 0 <= p <= polls
        invariant taken == if p < |old(queue)| then p else |old(queue)|
        invariant queue == old(queue)[taken..]
        invariant forall i :: 0 <= i < taken ==> old(queue)[i].status == Orders.Ready
        invariant forall i :: taken <= i < |old(queue)| && old(queue)[i] !in old(queue)[..taken] ==>
                    old(queue)[i].status == old(queue[i].status)
        invariant forall i :: 0 <= i < |old(queue)| ==>
                    old(queue)[i].items == old(queue[i].items) && old(queue)[i].payment == old(queue[i].payment)
        invariant shutdown == old(shutdown)
      {
        if |queue| > 0 {
          var order := queue[0];
          queue := queue[1..];
          var _ := ProcessOrder(order);
          taken := taken + 1;
        }
        p := p + 1;
      }
    }
  }
}
