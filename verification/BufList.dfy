/** The circular doubly linked list of bio.c: prev and next links over the
    buffers 0..n-1 and the list head, which is node n. */
module BufList {
  // order is the list from head.next to head.prev; position -1 and position
  // |order| are both the head.
  function Node(order: seq<nat>, n: nat, i: int): nat
    requires -1 <= i <= |order|
  {
    if 0 <= i < |order| then order[i] else n
  }

  // Every buffer is in the list exactly once.
  ghost predicate Complete(order: seq<nat>, n: nat) {
    && |order| == n
    && (forall i :: 0 <= i < |order| ==> order[i] < n)
    && (forall i, j :: 0 <= i < j < |order| ==> order[i] != order[j])
    && (forall b :: 0 <= b < n ==> b in order)
  }

  // The links go around the list in both directions.
  ghost predicate Linked(next: seq<nat>, prev: seq<nat>, order: seq<nat>, n: nat) {
    && |next| == |prev| == n + 1
    && (forall i :: 0 <= i < |order| ==> order[i] < n)
    && (forall i, j :: 0 <= i < j < |order| ==> order[i] != order[j])
    && (forall i :: -1 <= i < |order| ==> next[Node(order, n, i)] == Node(order, n, i + 1))
    && (forall i :: 0 <= i <= |order| ==> prev[Node(order, n, i)] == Node(order, n, i - 1))
  }

  function Without(order: seq<nat>, k: nat): seq<nat>
    requires k < |order|
  {
    order[..k] + order[k + 1..]
  }

  function ToFront(order: seq<nat>, k: nat): seq<nat>
    requires k < |order|
  {
    [order[k]] + Without(order, k)
  }

  lemma WithoutAt(order: seq<nat>, n: nat, k: nat, i: int)
    requires k < |order| && -1 <= i <= |order| - 1
    ensures Node(Without(order, k), n, i) == Node(order, n, if i < k then i else i + 1)
  {
  }

  // The neighbours of the node at k are linked to each other.
  lemma UnlinkKeeps(next: seq<nat>, prev: seq<nat>, order: seq<nat>, n: nat, k: nat, next': seq<nat>, prev': seq<nat>)
    requires Linked(next, prev, order, n) && k < |order|
    requires prev' == prev[Node(order, n, k + 1) := Node(order, n, k - 1)]
    requires next' == next[Node(order, n, k - 1) := Node(order, n, k + 1)]
    ensures Linked(next', prev', Without(order, k), n)
  {
    var o := Without(order, k);
    forall i | -1 <= i < |o| ensures next'[Node(o, n, i)] == Node(o, n, i + 1) {
      WithoutAt(order, n, k, i);
      WithoutAt(order, n, k, i + 1);
    }
    forall i | 0 <= i <= |o| ensures prev'[Node(o, n, i)] == Node(o, n, i - 1) {
      WithoutAt(order, n, k, i);
      WithoutAt(order, n, k, i - 1);
    }
  }

  // Node b is linked between the head and the node that was first.
  lemma InsertKeeps(next: seq<nat>, prev: seq<nat>, order: seq<nat>, n: nat, b: nat, next': seq<nat>, prev': seq<nat>)
    requires Linked(next, prev, order, n) && b < n && b !in order
    requires next' == next[b := Node(order, n, 0)][n := b]
    requires prev' == prev[b := n][Node(order, n, 0) := b]
    ensures Linked(next', prev', [b] + order, n)
  {
    var o := [b] + order;
    forall i | -1 <= i <= |o| ensures i >= 1 ==> Node(o, n, i) == Node(order, n, i - 1) {}
    forall i | -1 <= i < |o| ensures next'[Node(o, n, i)] == Node(o, n, i + 1) {
      if i >= 1 { assert next[Node(order, n, i - 1)] == Node(order, n, i); }
    }
    forall i | 0 <= i <= |o| ensures prev'[Node(o, n, i)] == Node(o, n, i - 1) {
      if i >= 2 { assert prev[Node(order, n, i - 1)] == Node(order, n, i - 2); }
    }
  }

  lemma ToFrontAt(order: seq<nat>, k: nat, i: nat)
    requires k < |order| && i < |order|
    ensures |ToFront(order, k)| == |order|
    ensures ToFront(order, k)[i] == order[if i == 0 then k else if i <= k then i - 1 else i]
  {
  }

  lemma NotInWithout(order: seq<nat>, n: nat, k: nat)
    requires Complete(order, n) && k < |order|
    ensures order[k] !in Without(order, k)
  {
  }

  lemma ToFrontComplete(order: seq<nat>, n: nat, k: nat)
    requires Complete(order, n) && k < |order|
    ensures Complete(ToFront(order, k), n)
  {
    var o := ToFront(order, k);
    forall b | 0 <= b < n ensures b in o {
      assert b in order;
      var i :| 0 <= i < |order| && order[i] == b;
      assert i == k || o[if i < k then i + 1 else i] == b;
    }
  }
}
