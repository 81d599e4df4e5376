/** An executor as an object: one pass of its endless outer loop. Placing an order with the broker
    is the `created` record. How it runs beside the scheduler is the subject of `Dispatch`. */
module Executors {
  import opened Messages
  import opened Scheduler

  class ExecutorManager {
    const orderQueue: TSQueue<OrderDetails>
    var created: seq<OrderDetails>

    constructor (orderQueue: TSQueue<OrderDetails>)
      ensures this.orderQueue == orderQueue && created == []
    {
      this.orderQueue, created := orderQueue, [];
    }

    method CreateOrder(order: OrderDetails)
      modifies this
      ensures created == old(created) + [order]
    {
      created := created + [order];
    }

    /** Take the size, then pop that often: nothing is lost, doubled or reordered, and no pop
        waits. */
    method ProcessOrderQueue()
      modifies this, orderQueue
      ensures orderQueue.items == [] && created == old(created) + old(orderQueue.items)
    {
      var empty := orderQueue.Empty();
      while !empty
        invariant empty <==> orderQueue.items == []
        invariant created + orderQueue.items == old(created) + old(orderQueue.items)
        decreases |orderQueue.items|
      {
        var n := orderQueue.Size();
        while n > 0
          invariant n == |orderQueue.items|
          invariant created + orderQueue.items == old(created) + old(orderQueue.items)
        {
          n := n - 1;
          ghost var waiting := orderQueue.items;
          var order := orderQueue.Pop();
          assert waiting == [order.value] + orderQueue.items;
          CreateOrder(order.value);
        }
        empty := orderQueue.Empty();
      }
      assert created + [] == created;
    }
  }
}
