/** A circular doubly linked list held in two arrays of links, with `head` as its sentinel:
    the shape of the buffer cache's list (kernel/bio.c). */
module LinkedList {

  ghost predicate Distinct(order: seq<nat>, head: nat, n: nat) {
    && head < n && (forall i :: 0 <= i < |order| ==> order[i] < n && order[i] != head)
    && (forall i, j :: 0 <= i < j < |order| ==> order[i] != order[j])
  }

  /** The node at place `k`: the sentinel stands before the first and after the last. */
  function Node(order: seq<nat>, head: nat, k: nat): nat
    requires k <= |order| + 1
  {
    if k == 0 || k == |order| + 1 then head else order[k - 1]
  }

  /** The links run through `order` and back, in both directions. */
  ghost predicate Linked(prev: seq<nat>, next: seq<nat>, order: seq<nat>, head: nat) {
    && |prev| == |next| && Distinct(order, head, |next|)
    && (forall k :: 0 <= k <= |order| ==> Link(prev, next, Node(order, head, k), Node(order, head, k + 1)))
  }

  ghost predicate Link(prev: seq<nat>, next: seq<nat>, a: nat, b: nat) {
    a < |next| && b < |prev| && next[a] == b && prev[b] == a
  }

  function Without(order: seq<nat>, k: nat): seq<nat>
    requires k < |order|
  {
    order[..k] + order[k + 1..]
  }

  lemma NodesDiffer(order: seq<nat>, head: nat, n: nat, i: nat, j: nat)
    requires Distinct(order, head, n) && i <= |order| && j <= |order|
    ensures Node(order, head, i) == Node(order, head, j) <==> i == j
    ensures Node(order, head, i + 1) == Node(order, head, j + 1) <==> i == j
  {
  }

  /** Unlinking: the neighbours of the node are linked to each other. */
  lemma Unlink(prev: seq<nat>, next: seq<nat>, order: seq<nat>, head: nat, k: nat)
    requires Linked(prev, next, order, head) && k < |order|
    ensures var b := order[k];
      && b < |next| && next[b] < |prev| && prev[b] < |next|
      && Linked(prev[next[b] := prev[b]], next[prev[b] := next[b]], Without(order, k), head)
  {
    var b, rest := order[k], Without(order, k);
    assert Link(prev, next, Node(order, head, k), Node(order, head, k + 1));
    assert Link(prev, next, Node(order, head, k + 1), Node(order, head, k + 2));
    var prev', next' := prev[next[b] := prev[b]], next[prev[b] := next[b]];
    forall m | 0 <= m <= |rest|
      ensures Link(prev', next', Node(rest, head, m), Node(rest, head, m + 1))
    {
      var m' := if m <= k then m else m + 1;
      assert Node(rest, head, m) == Node(order, head, m');
      assert Link(prev, next, Node(order, head, m'), Node(order, head, m' + 1));
      NodesDiffer(order, head, |next|, k, m');
      NodesDiffer(order, head, |next|, k + 1, m');
      assert Node(rest, head, m + 1) == Node(order, head, if m + 1 <= k then m + 1 else m + 2);
    }
  }

  /** Linking a node in between the sentinel and the first node. */
  lemma PushFront(prev: seq<nat>, next: seq<nat>, order: seq<nat>, head: nat, b: nat)
    requires Linked(prev, next, order, head) && b < |next| && b != head && b !in order
    ensures head < |next| && next[head] < |prev|
    ensures Linked(prev[b := head][next[head] := b], next[b := next[head]][head := b], [b] + order, head)
  {
    assert Link(prev, next, Node(order, head, 0), Node(order, head, 1));
    var all := [b] + order;
    var prev', next' := prev[b := head][next[head] := b], next[b := next[head]][head := b];
    forall m | 0 <= m <= |all|
      ensures Link(prev', next', Node(all, head, m), Node(all, head, m + 1))
    {
      if m >= 1 {
        assert Node(all, head, m) == if m == 1 then b else Node(order, head, m - 1);
        assert Node(all, head, m + 1) == Node(order, head, m);
        assert Link(prev, next, Node(order, head, m - 1), Node(order, head, m));
        NodesDiffer(order, head, |next|, 0, m - 1);
      }
    }
  }
}
