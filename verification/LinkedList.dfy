/** The doubly linked list of src/list.c. */
module LinkedList {

  /** Largest value of the list counter (a 64-bit long int). */
  const LONG_MAX: nat := 0x7FFF_FFFF_FFFF_FFFF

  class Item<T> {
    var val: T
    var next: Item?<T>
    var prev: Item?<T>

    constructor (val: T)
      ensures this.val == val && next == null && prev == null
    {
      this.val, next, prev := val, null, null;
    }
  }

  function Only<T>(item: Item?<T>): set<Item<T>> {
    if item == null then {} else {item}
  }

  class List<T> {
    var start: Item?<T>
    var stop: Item?<T>
    var counter: nat

    /** The items reachable from start, in order, and the position of the stop pointer. */
    ghost var items: seq<Item<T>>
    ghost var stopAt: nat

    ghost function ItemAt(i: int): Item?<T>
      reads this`items
    {
      if 0 <= i < |items| then items[i] else null
    }

    /** Item i is linked to its neighbours. */
    ghost predicate LinkOk(i: int)
      reads this`items, items
    {
      0 <= i < |items| ==> items[i].next == ItemAt(i + 1) && items[i].prev == ItemAt(i - 1)
    }

    /** start leads through exactly the items, next and prev are mutual, the items are pairwise
        different (so there is no cycle), the counter is their number, and stop is one of them. */
    ghost predicate Chained()
      reads this, items
    {
      && counter == |items| <= LONG_MAX
      && (forall i, j :: 0 <= i < j < |items| ==> items[i] != items[j])
      && start == ItemAt(0)
      && stop == ItemAt(stopAt) && (items != [] ==> stopAt < |items|)
      && (forall i :: LinkOk(i))
    }

    /** A list whose stop pointer is its end. */
    ghost predicate Valid()
      reads this, items
    {
      Chained() && (items != [] ==> stopAt == |items| - 1)
    }

    /** list_init */
    constructor ()
      ensures Valid() && items == []
    {
      start, stop, counter := null, null, 0;
      items, stopAt := [], 0;
    }

    /** list_put */
    method Put(payload: T) returns (item: Item?<T>)
      requires Valid()
      modifies this, items
      ensures Valid()
      ensures forall x :: x in old(items) ==> x.val == old(x.val)
      ensures old(counter) == LONG_MAX ==> item == null && items == old(items)
      ensures old(counter) < LONG_MAX ==>
                && item != null && fresh(item) && item.val == payload
                && items == old(items) + [item]
    {
      if counter == LONG_MAX {
        return null;
      }
      var new_item := new Item(payload);
      assert LinkOk(|items| - 1);
      if start == null {
        new_item.prev, new_item.next := null, null;
        start, stop := new_item, new_item;
      } else {
        new_item.prev, new_item.next := stop, null;
        stop.next := new_item;
        stop := new_item;
      }
      counter := counter + 1;
      stopAt := |items|;
      items := items + [new_item];
      forall i
        ensures LinkOk(i)
      {
        assert old(LinkOk(i));
      }
      return new_item;
    }

    /** The pointer surgery of list_ins: nothing but the three links around the new item moves. */
    method LinkAfter(here: Item<T>, new_item: Item<T>)
      requires here.next != null ==> here.next != here
      requires new_item != here && new_item != here.next
      modifies new_item`next, new_item`prev, here`next, Only(here.next)`prev
      ensures here.next == new_item && new_item.prev == here && new_item.next == old(here.next)
      ensures new_item.next != null ==> new_item.next.prev == new_item
    {
      var next := here.next;
      new_item.next := next;
      new_item.prev := here;
      here.next := new_item;
      if next != null {
        next.prev := new_item;
      }
    }

    /** list_ins: insert after here. The chain is always right afterwards; the stop pointer is still
        the end of the list exactly when the new item did not become the last of three or more. */
    method Ins(here: Item<T>, ghost at: nat, payload: T) returns (item: Item?<T>)
      requires Valid() && at < |items| && items[at] == here
      modifies this, items
      ensures Chained()
      ensures forall x :: x in old(items) ==> x.val == old(x.val)
      ensures old(counter) == LONG_MAX ==> item == null && items == old(items) && Valid()
      ensures old(counter) < LONG_MAX ==>
                && item != null && fresh(item) && item.val == payload
                && items == old(items[..at + 1]) + [item] + old(items[at + 1..])
      ensures old(counter) < LONG_MAX ==> (Valid() <==> old(counter) == 1 || at + 1 < old(|items|))
    {
      if counter == LONG_MAX {
        return null;
      }
      if counter <= 1 {
        item := Put(payload);
        return;
      }
      item := InsMiddle(here, at, payload);
    }

    /** The chain with the new item, before the counter is raised. */
    method Attach(here: Item<T>, ghost at: nat, item: Item<T>)
      requires Valid() && at < |items| && items[at] == here && item !in items
      modifies this`items, items, item
      ensures items == old(items[..at + 1]) + [item] + old(items[at + 1..])
      ensures forall i :: LinkOk(i)
      ensures item.val == old(item.val) && forall x :: x in old(items) ==> x.val == old(x.val)
    {
      assert LinkOk(at) && LinkOk(at + 1);
      LinkAfter(here, item);
      ghost var was := items;
      items := was[..at + 1] + [item] + was[at + 1..];
      forall i
        ensures LinkOk(i)
      {
        if 0 <= i <= at {
          assert old(LinkOk(i)) && items[i] == was[i];
        } else if at + 1 < i < |items| {
          assert old(LinkOk(i - 1)) && items[i] == was[i - 1];
        }
      }
    }

    /** list_ins past its first two tests: two or more items, and room for one more. */
    method InsMiddle(here: Item<T>, ghost at: nat, payload: T) returns (item: Item<T>)
      requires Valid() && at < |items| && items[at] == here && 1 < counter < LONG_MAX
      modifies this, items
      ensures Chained()
      ensures forall x :: x in old(items) ==> x.val == old(x.val)
      ensures fresh(item) && item.val == payload
      ensures items == old(items[..at + 1]) + [item] + old(items[at + 1..])
      ensures Valid() <==> at + 1 < old(|items|)
    {
      item := new Item(payload);
      Attach(here, at, item);
      counter := counter + 1;
      stopAt := if stopAt > at then stopAt + 1 else stopAt;
    }

    /** The pointer surgery of list_del. */
    method Unlink(item: Item<T>) returns (next: Item?<T>)
      requires item.prev != item && item.next != item
      requires item.prev != null ==> item.prev != item.next
      modifies this`start, this`stop, Only(item.prev)`next, Only(item.next)`prev
      ensures next == item.next == old(item.next) && item.prev == old(item.prev)
      ensures item.prev == null ==> start == next && stop == (if next == null then null else old(stop))
      ensures item.prev != null ==> item.prev.next == next && start == old(start)
      ensures next == null ==> stop == item.prev
      ensures next != null ==> next.prev == item.prev && stop == old(stop)
    {
      var prev := item.prev;
      next := item.next;
      if prev == null {
        start := next;
      } else {
        prev.next := next;
      }
      if next == null {
        stop := prev;
      } else {
        next.prev := prev;
      }
    }

    /** The chain without the item, before the counter is lowered. */
    method Detach(item: Item<T>, ghost at: nat) returns (next: Item?<T>)
      requires Valid() && at < |items| && items[at] == item
      modifies this`start, this`stop, this`items, items
      ensures items == old(items[..at]) + old(items[at + 1..])
      ensures forall i :: LinkOk(i)
      ensures start == ItemAt(0) && stop == ItemAt(|items| - 1) && next == ItemAt(at)
      ensures forall x :: x in old(items) ==> x.val == old(x.val)
    {
      assert LinkOk(at) && LinkOk(at - 1) && LinkOk(at + 1);
      next := Unlink(item);
      ghost var was := items;
      items := was[..at] + was[at + 1..];
      forall i
        ensures LinkOk(i)
      {
        if 0 <= i < at {
          assert old(LinkOk(i)) && items[i] == was[i];
        } else if at <= i < |items| {
          assert old(LinkOk(i + 1)) && items[i] == was[i + 1];
        }
      }
    }

    /** list_del: returns the item after the deleted one. */
    method Del(item: Item<T>, ghost at: nat) returns (next: Item?<T>)
      requires Valid() && at < |items| && items[at] == item
      modifies this, items
      ensures Valid()
      ensures items == old(items[..at]) + old(items[at + 1..])
      ensures forall x :: x in old(items) ==> x.val == old(x.val)
      ensures next == ItemAt(at)
    {
      next := Detach(item, at);
      counter := counter - 1;
      stopAt := if items == [] then 0 else |items| - 1;
    }

    /** list_free, without giving the list itself back. */
    method Free()
      requires Valid()
      modifies this, items
      ensures Valid() && items == [] && start == null && stop == null
    {
      while start != null
        invariant Valid()
        invariant forall i :: 0 <= i < |items| ==> items[i] in old(items)
        decreases |items|
      {
        var _ := Del(start, 0);
      }
    }
  }
}
