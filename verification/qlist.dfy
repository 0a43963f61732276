/** The intrusive circular doubly linked lists of the QMI proxy. */
module QList {
  import opened Wrappers

  /** A list node; list heads carry no item. */
  class QNode<T> {
    var next: QNode<T>
    var prev: QNode<T>
    const item: Option<T>

    constructor (item: Option<T>)
      ensures this.item == item && next == this && prev == this
    {
      this.item := item;
      next, prev := this, this;
    }
  }

  ghost predicate Linked<T>(a: QNode<T>, b: QNode<T>)
    reads a, b
  {
    a.next == b && b.prev == a
  }

  function RemoveAt<T>(s: seq<T>, k: nat): seq<T>
    requires k < |s|
  {
    s[..k] + s[k + 1..]
  }

  class Ring<T> {
    const head: QNode<T>
    ghost var circle: seq<QNode<T>>  // once around the list, from the head back to the head
    ghost var items: seq<T>          // what the nodes in between carry
    ghost var Repr: set<object>      // this list, its head and every node it ever linked

    /** Both directions of every link agree with the ghost sequence, and no node occurs twice. */
    ghost predicate Valid()
      reads this, Repr
    {
      && this in Repr
      && |circle| == |items| + 2
      && circle[0] == head && circle[|circle| - 1] == head
      && (forall i :: 0 <= i < |circle| ==> circle[i] in Repr)
      && (forall i, j :: 0 <= i < j < |circle| - 1 ==> circle[i] != circle[j])
      && (forall i, j :: 0 <= i < j < |circle| && j == i + 1 ==> Linked(circle[i], circle[j]))
      && (forall i :: 0 <= i < |items| ==> circle[i + 1].item == Some(items[i]))
    }

    constructor ()
      ensures Valid() && fresh(Repr) && items == []
    {
      head := new QNode(None);
      circle, items := [head, head], [];
      Repr := {this, head};
    }

    predicate Empty()
      reads this, Repr
      requires Valid()
      ensures Empty() <==> items == []
    {
      assert Linked(circle[0], circle[1]);
      head == head.next
    }

    /** A walk over the list stands at position `i`, or back at the head. */
    ghost predicate At(node: QNode<T>, i: nat)
      reads this
    {
      i + 1 < |circle| && node == circle[i + 1]
    }

    method First() returns (node: QNode<T>)
      requires Valid()
      ensures At(node, 0) && (node == head <==> items == [])
    {
      assert Linked(circle[0], circle[1]);
      node := head.next;
    }

    /** What the node at position `i` carries. */
    method Current(node: QNode<T>, ghost i: nat) returns (item: T)
      requires Valid() && At(node, i) && node != head
      ensures i < |items| && item == items[i]
    {
      assert i < |items| && circle[i + 1].item == Some(items[i]);
      item := node.item.value;
    }

    method Next(node: QNode<T>, ghost i: nat) returns (after: QNode<T>)
      requires Valid() && At(node, i) && node != head
      ensures At(after, i + 1) && (after == head <==> i + 1 == |items|)
    {
      assert Linked(circle[i + 1], circle[i + 2]);
      after := node.next;
    }

    method AddTail(node: QNode<T>)
      requires Valid() && node !in Repr && node.item.Some?
      modifies Repr, node
      ensures Valid() && Repr == old(Repr) + {node}
      ensures items == old(items) + [node.item.value]
      ensures circle == old(circle)[..|old(items)| + 1] + [node, head]
    {
      ghost var n := |items|;
      assert Linked(circle[n], circle[n + 1]);
      node.next := head;
      node.prev := head.prev;
      head.prev.next := node;
      head.prev := node;
      circle, items, Repr := circle[..n + 1] + [node, head], items + [node.item.value], Repr + {node};
      forall i, j | 0 <= i < j < |circle| && j == i + 1 ensures Linked(circle[i], circle[j]) {
        if i < n {
          assert old(Linked(circle[i], circle[j]));
          assert circle[i] != circle[n] && circle[j] != head;
        }
      }
    }

    /** Unlinks `node`, which sits at position `k`; its own links are left as they were. */
    method Remove(node: QNode<T>, ghost k: nat)
      requires Valid() && At(node, k) && node != head
      modifies Repr
      ensures k < |old(items)|
      ensures Valid() && Repr == old(Repr)
      ensures items == RemoveAt(old(items), k)
      ensures circle == RemoveAt(old(circle), k + 1)
      ensures node.next == old(node.next) && node.prev == old(node.prev)
    {
      assert Linked(circle[k], circle[k + 1]) && Linked(circle[k + 1], circle[k + 2]);
      node.next.prev := node.prev;
      node.prev.next := node.next;
      circle, items := RemoveAt(circle, k + 1), RemoveAt(items, k);
      forall i, j | 0 <= i < j < |circle| && j == i + 1 ensures Linked(circle[i], circle[j]) {
        if i != k {
          var was := if i < k then i else i + 1;
          assert old(Linked(circle[was], circle[was + 1]));
        }
      }
    }
  }
}
