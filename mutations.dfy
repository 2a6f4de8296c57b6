/** The decision rule of the mutation observer's callback: for every added
    element node of a `childList` record, `transformTweets` runs once if the
    node is a tweet and once more if a tweet lies under it. */
module Mutations {
  import opened Dom
  import opened Rules

  datatype MutationKind = ChildList | Attributes | CharacterData

  /** An added node: an element, by its position in the page, or any other
      kind of node (text, comment). */
  datatype AddedNode = ElementNode(pos: nat) | OtherNode

  datatype MutationRecord = MutationRecord(kind: MutationKind, addedNodes: seq<AddedNode>)

  /** `node.querySelectorAll('[data-testid="tweet"]').length > 0`. */
  predicate HasTweetInside(es: seq<Element>, p: int)
  {
    exists k | 0 <= k < |es| :: IsDescendant(es, k, p) && IsTweet(es[k])
  }

  /** How many times the callback runs `transformTweets` for one added node. */
  function NodeCalls(es: seq<Element>, n: AddedNode): (c: nat)
    ensures c <= 2
    ensures c > 0 <==> n.ElementNode? && n.pos < |es| && (IsTweet(es[n.pos]) || HasTweetInside(es, n.pos))
  {
    match n
    case OtherNode => 0
    case ElementNode(p) =>
      if p >= |es| then 0
      else (if IsTweet(es[p]) then 1 else 0) + (if HasTweetInside(es, p) then 1 else 0)
  }

  /** The same, summed over the first `k` added nodes of a record. */
  function NodesCalls(es: seq<Element>, nodes: seq<AddedNode>, k: nat): nat
    requires k <= |nodes|
  {
    if k == 0 then 0 else NodesCalls(es, nodes, k - 1) + NodeCalls(es, nodes[k - 1])
  }

  function RecordCalls(es: seq<Element>, m: MutationRecord): nat
  {
    if m.kind == ChildList then NodesCalls(es, m.addedNodes, |m.addedNodes|) else 0
  }

  /** The number of `transformTweets` calls for the first `k` records of a batch. */
  function BatchCalls(es: seq<Element>, batch: seq<MutationRecord>, k: nat): nat
    requires k <= |batch|
  {
    if k == 0 then 0 else BatchCalls(es, batch, k - 1) + RecordCalls(es, batch[k - 1])
  }

  /** Some added element node of a `childList` record is a tweet or holds one. */
  predicate AddsTweet(es: seq<Element>, batch: seq<MutationRecord>)
  {
    exists r, i :: 0 <= r < |batch| && batch[r].kind == ChildList && 0 <= i < |batch[r].addedNodes| &&
      NodeCalls(es, batch[r].addedNodes[i]) > 0
  }

  lemma {:induction false} NodesCallsPositive(es: seq<Element>, nodes: seq<AddedNode>, k: nat)
    requires k <= |nodes|
    ensures NodesCalls(es, nodes, k) > 0 <==> exists i :: 0 <= i < k && NodeCalls(es, nodes[i]) > 0
    ensures NodesCalls(es, nodes, k) <= 2 * k
  {
    if k > 0 {
      NodesCallsPositive(es, nodes, k - 1);
    }
  }

  lemma {:induction false} BatchCallsPositive(es: seq<Element>, batch: seq<MutationRecord>, k: nat)
    requires k <= |batch|
    ensures BatchCalls(es, batch, k) > 0 <==>
              exists r, i :: 0 <= r < k && batch[r].kind == ChildList && 0 <= i < |batch[r].addedNodes| &&
                NodeCalls(es, batch[r].addedNodes[i]) > 0
  {
    if k > 0 {
      BatchCallsPositive(es, batch, k - 1);
      var m := batch[k - 1];
      NodesCallsPositive(es, m.addedNodes, |m.addedNodes|);
    }
  }

  /** The callback runs `transformTweets` at least once exactly when an added
      element is a tweet or contains one. */
  lemma CallsIffAddsTweet(es: seq<Element>, batch: seq<MutationRecord>)
    ensures BatchCalls(es, batch, |batch|) > 0 <==> AddsTweet(es, batch)
  {
    BatchCallsPositive(es, batch, |batch|);
  }

  /** The decision reads only test ids and the tree, which the transformer never changes. */
  lemma {:induction false} CallsSameShape(x: seq<Element>, y: seq<Element>, batch: seq<MutationRecord>, k: nat)
    requires SameShape(x, y) && k <= |batch|
    ensures BatchCalls(x, batch, k) == BatchCalls(y, batch, k)
  {
    ShapeDescendants(x, y);
    if k > 0 {
      CallsSameShape(x, y, batch, k - 1);
      var m := batch[k - 1];
      NodesSameShape(x, y, m.addedNodes, |m.addedNodes|);
    }
  }

  lemma {:induction false} NodesSameShape(x: seq<Element>, y: seq<Element>, nodes: seq<AddedNode>, k: nat)
    requires SameShape(x, y) && k <= |nodes|
    ensures NodesCalls(x, nodes, k) == NodesCalls(y, nodes, k)
  {
    ShapeDescendants(x, y);
    if k > 0 {
      NodesSameShape(x, y, nodes, k - 1);
    }
  }

  lemma NodeSameShape(x: seq<Element>, y: seq<Element>, n: AddedNode)
    requires SameShape(x, y)
    ensures NodeCalls(x, n) == NodeCalls(y, n)
    ensures n.ElementNode? && n.pos < |x| ==>
              (IsTweet(x[n.pos]) <==> IsTweet(y[n.pos])) && (HasTweetInside(x, n.pos) <==> HasTweetInside(y, n.pos))
  {
    ShapeDescendants(x, y);
  }
}
