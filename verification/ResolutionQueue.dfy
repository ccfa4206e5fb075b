/** The resolution queue itself: an intrusive chain with four references, following `QueueSpec`. */
module ResolutionQueue {
  import opened QueueSpec

  class Item {
    var next: Item?

    constructor ()
      ensures next == null
    {
      next := null;
    }
  }

  /** Where the link of item i leads. */
  ghost function NextOf(items: seq<Item>, links: seq<bool>, i: nat): Item? {
    if i < |links| && links[i] && i + 1 < |items| then items[i + 1] else null
  }

  ghost predicate Distinct(items: seq<Item>) {
    forall i, j | 0 <= i < j < |items| :: items[i] != items[j]
  }

  ghost predicate Linked(items: seq<Item>, links: seq<bool>, i: nat)
    requires i < |items|
    reads items
  {
    items[i].next == NextOf(items, links, i)
  }

  ghost predicate Chained(items: seq<Item>, links: seq<bool>)
    reads items
  {
    forall i: nat | i < |items| :: Linked(items, links, i)
  }

  class ResolutionQueue {
    var scheduledHead: Item?
    var scheduledLast: Item?
    var inProgressHead: Item?
    var inProgressLast: Item?
    ghost var items: seq<Item>
    ghost var queue: Queue

    ghost predicate Cursors()
      requires QueueSpec.Valid(queue)
      reads this
    {
      && |items| == queue.total
      && scheduledHead == (if queue.started < queue.total then items[queue.started] else null)
      && (queue.started < queue.total ==> scheduledLast == items[queue.total - 1])
      && inProgressHead == (if queue.busy then items[queue.resolved] else null)
      && (queue.busy ==> inProgressLast == items[queue.started - 1])
    }

    ghost predicate Valid()
      reads this, items
    {
      QueueSpec.Valid(queue) && Distinct(items) && Chained(items, queue.links) && Cursors()
    }

    constructor ()
      ensures Valid() && items == [] && queue == EMPTY
    {
      scheduledHead, scheduledLast, inProgressHead, inProgressLast := null, null, null, null;
      items, queue := [], EMPTY;
    }

    /** Adds an item that is in no queue. */
    method Enqueue(item: Item)
      requires Valid() && item !in items && item.next == null
      modifies this, items
      ensures Valid() && items == old(items) + [item] && queue == Enqueued(old(queue))
    {
      if scheduledHead == null {
        scheduledHead := item;
        scheduledLast := item;
      } else {
        scheduledLast.next := item;
        scheduledLast := item;
      }
      items := items + [item];
      queue := Enqueued(queue);
      forall i: nat | i < |items| ensures Linked(items, queue.links, i) {
        if i < |old(items)| {
          assert old(Linked(items, queue.links, i));
        }
      }
    }

    method NoScheduled() returns (b: bool)
      requires Valid()
      ensures b <==> queue.started == queue.total
    {
      b := scheduledHead == null;
    }

    method NoInProgress() returns (b: bool)
      requires Valid()
      ensures b <==> !queue.busy
    {
      b := inProgressHead == null;
    }

    method StartNextScheduled() returns (item: Item)
      requires Valid() && queue.started < queue.total
      modifies this, items
      ensures Valid() && items == old(items) && queue == Started(old(queue))
      ensures item == items[old(queue).started]
      // What it writes to: nothing but the item started last before.
      ensures forall i | 0 <= i < |items| && items[i].next != old(items[i].next) :: i == old(queue).started - 1
    {
      item := scheduledHead;
      assert Linked(items, queue.links, queue.started);
      scheduledHead := scheduledHead.next;
      if inProgressHead == null {
        inProgressHead := item;
        inProgressLast := item;
      } else {
        inProgressLast.next := item;
        inProgressLast := item;
      }
      queue := Started(queue);
      forall i: nat | i < |items| ensures Linked(items, queue.links, i) {
        assert old(Linked(items, queue.links, i));
      }
    }

    method PrepareToResolve() returns (item: Item)
      requires Valid() && queue.busy && queue.resolved < queue.started
      modifies this
      ensures Valid() && items == old(items) && queue == Prepared(old(queue))
      ensures item == items[old(queue).resolved]
    {
      item := inProgressHead;
      assert Linked(items, queue.links, queue.resolved);
      inProgressHead := inProgressHead.next;
      queue := Prepared(queue);
    }
  }
}
