/** The intrusive doubly linked list behind the pool's task list (and its worker list). */
module TaskList {
  import opened ThreadPool

  class Node {
    const id: nat  // which push the task came from
    var next: Node?
    var prev: Node?

    constructor (id: nat)
      ensures this.id == id && next == null && prev == null
    {
      this.id := id;
      next, prev := null, null;
    }
  }

  class List {
    var head: Node?
    ghost var items: seq<Node>  // the linked nodes, head first

    ghost predicate Valid()
      reads this, items
    {
      && (forall i, j :: 0 <= i < j < |items| ==> items[i] != items[j])
      && (if items == [] then head == null
          else head == items[0] && items[0].prev == null && items[|items| - 1].next == null)
      && (forall i {:trigger items[i].prev} :: 1 <= i < |items| ==> items[i].prev == items[i - 1])
      && (forall i {:trigger items[i].next} :: 0 <= i < |items| - 1 ==> items[i].next == items[i + 1])
    }

    constructor ()
      ensures Valid() && items == []
    {
      head, items := null, [];
    }

    /** Lines 7-14.  The item becomes the head and everything else keeps its place. */
    method Insert(item: Node)
      requires Valid() && item !in items
      modifies this, item, if items == [] then {} else {items[0]}
      ensures Valid() && items == [item] + old(items)
    {
      item.next := head;
      item.prev := null;
      if head != null {
        head.prev := item;
      }
      head := item;
      items := [item] + items;
    }

    /** Lines 16-23, for a node anywhere in the list.  The other nodes keep their order. */
    method Delete(item: Node, ghost k: nat)
      requires Valid() && k < |items| && items[k] == item
      modifies this, items
      ensures Valid() && items == old(items)[..k] + old(items)[k + 1..]
      ensures item !in items && item.next == old(item.next) && item.prev == old(item.prev)
    {
      assert item.next == if k == |items| - 1 then null else items[k + 1];
      assert item.prev == if k == 0 then null else items[k - 1];
      if item.next != null {
        item.next.prev := item.prev;
      }
      if item.prev != null {
        item.prev.next := item.next;
      } else {
        head := item.next;
      }
      items := items[..k] + items[k + 1..];
    }

    /** Lines 64-65: a worker unlinks the head of a non-empty list. */
    method Take() returns (t: Node)
      requires Valid() && head != null
      modifies this, items
      ensures Valid() && t == old(items)[0] && items == old(items)[1..]
    {
      t := head;
      Delete(t, 0);
    }

    ghost function Ids(): (ids: seq<nat>)
      reads this
      ensures |ids| == |items|
    {
      seq(|items|, i requires 0 <= i < |items| reads this => items[i].id)
    }

    /** The list is the task list of the protocol state `s`. */
    ghost predicate Represents(s: State)
      reads this, items
    {
      Valid() && Ids() == s.queue
    }

    /** Line 56, `task_list == NULL`: the worker branches as the protocol says. */
    method IsEmpty(ghost s: State, ghost w: nat) returns (empty: bool)
      requires Represents(s) && Enabled(s, WorkerStep(w)) && s.workers[w].TestList?
      ensures empty <==> Next(s, WorkerStep(w)).workers[w] == TestStop
      ensures !empty <==> Next(s, WorkerStep(w)).workers[w] == TestStopAgain
    {
      empty := head == null;
    }

    /** Line 140 done by the p-th push is the protocol's insertion step. */
    method PushTask(item: Node, ghost s: State, ghost p: nat, ghost woken: nat)
      requires Represents(s) && Enabled(s, PusherStep(p, woken)) && s.pushers[p].PushInsert?
      requires item !in items && item.id == p
      modifies this, item, items
      ensures Represents(Next(s, PusherStep(p, woken)))
    {
      Insert(item);
    }

    /** Lines 64-65 done by worker w are the protocol's claiming step, on the same task. */
    method ClaimTask(ghost s: State, ghost w: nat) returns (t: Node)
      requires Represents(s) && Enabled(s, WorkerStep(w)) && s.workers[w].Take?
      modifies this, items
      ensures Represents(Next(s, WorkerStep(w)))
      ensures Next(s, WorkerStep(w)).workers[w] == UnlockRun(t.id)
    {
      t := Take();
    }
  }
}
