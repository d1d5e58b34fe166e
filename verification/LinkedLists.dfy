/** Singly linked lists whose nodes carry their own link, as the program keeps
    its signal messages, signal handlers and change trackers. */
module LinkedLists {
  class Node<T> {
    var data: T
    var next: Node?<T>

    constructor (data: T, next: Node?<T>)
      ensures this.data == data && this.next == next
    {
      this.data, this.next := data, next;
    }
  }

  /** From `head` the links run through `nodes`, each once, and end there. */
  ghost predicate Chain<T>(head: Node?<T>, nodes: seq<Node<T>>)
    reads nodes`next
    decreases |nodes|
  {
    if nodes == [] then head == null
    else head == nodes[0] && nodes[0] !in nodes[1..] && Chain(nodes[0].next, nodes[1..])
  }

  ghost function DataOf<T>(nodes: seq<Node<T>>): (s: seq<T>)
    reads nodes`data
    ensures |s| == |nodes|
  {
    if nodes == [] then [] else [nodes[0].data] + DataOf(nodes[1..])
  }

  lemma ChainPrepended<T>(n: Node<T>, head: Node?<T>, nodes: seq<Node<T>>)
    requires Chain(head, nodes) && n !in nodes && n.next == head
    ensures Chain(n, [n] + nodes) && DataOf([n] + nodes) == [n.data] + DataOf(nodes)
  {
  }

  lemma {:induction false} DataJoin<T>(a: seq<Node<T>>, b: seq<Node<T>>)
    ensures DataOf(a + b) == DataOf(a) + DataOf(b)
    decreases |a|
  {
    if a == [] {
      assert a + b == b;
    } else {
      assert (a + b)[1..] == a[1..] + b;
      DataJoin(a[1..], b);
    }
  }

  lemma {:induction false} DataAt<T>(nodes: seq<Node<T>>, i: nat)
    requires i < |nodes|
    ensures DataOf(nodes)[i] == nodes[i].data
    decreases |nodes|
  {
    if i > 0 {
      DataAt(nodes[1..], i - 1);
    }
  }

  /** The node that follows the first i ones. */
  ghost function At<T>(nodes: seq<Node<T>>, i: nat): Node?<T> {
    if i < |nodes| then nodes[i] else null
  }

  ghost predicate Distinct<T>(nodes: seq<Node<T>>) {
    forall i, j | 0 <= i < j < |nodes| :: nodes[i] != nodes[j]
  }

  /** A chain node by node. */
  lemma {:induction false} ChainLinks<T>(head: Node?<T>, nodes: seq<Node<T>>)
    requires Chain(head, nodes)
    ensures Distinct(nodes) && head == At(nodes, 0)
    ensures forall i | 0 <= i < |nodes| :: nodes[i].next == At(nodes, i + 1)
    decreases |nodes|
  {
    if nodes != [] {
      var rest := nodes[1..];
      ChainLinks(head.next, rest);
      forall i | 0 <= i < |nodes| ensures nodes[i].next == At(nodes, i + 1) {
        if i > 0 {
          assert rest[i - 1].next == At(rest, i);
        }
      }
      forall i, j | 0 <= i < j < |nodes| ensures nodes[i] != nodes[j] {
        assert nodes[j] == rest[j - 1];
        if i > 0 {
          assert nodes[i] == rest[i - 1];
        }
      }
    }
  }

  lemma {:induction false} LinksChain<T>(nodes: seq<Node<T>>)
    requires Distinct(nodes)
    requires forall i | 0 <= i < |nodes| :: nodes[i].next == At(nodes, i + 1)
    ensures Chain(At(nodes, 0), nodes)
    decreases |nodes|
  {
    if nodes != [] {
      var rest := nodes[1..];
      forall i | 0 <= i < |rest| ensures rest[i].next == At(rest, i + 1) {
        assert nodes[i + 1].next == At(nodes, i + 2);
      }
      LinksChain(rest);
      assert nodes[0].next == At(nodes, 1);
    }
  }

  function Without<T>(nodes: seq<T>, i: nat): seq<T>
    requires i < |nodes|
  {
    nodes[..i] + nodes[i + 1..]
  }

  /** The links after the one to the i-th node has been set to that node's own. */
  lemma Unlinked<T>(nodes: seq<Node<T>>, i: nat)
    requires i < |nodes| && Distinct(nodes)
    requires forall k | 0 <= k < |nodes| && k != i - 1 :: nodes[k].next == At(nodes, k + 1)
    requires i > 0 ==> nodes[i - 1].next == At(nodes, i + 1)
    ensures Chain(At(Without(nodes, i), 0), Without(nodes, i))
  {
    var left := Without(nodes, i);
    forall k | 0 <= k < |left| ensures left[k].next == At(left, k + 1) {
      assert left[k] == if k < i then nodes[k] else nodes[k + 1];
    }
    LinksChain(left);
  }

  /** Takes the i-th node out of the list, `prev` being the one before it. */
  method Unlink<T>(head: Node<T>, prev: Node?<T>, node: Node<T>, ghost nodes: seq<Node<T>>, ghost i: nat)
    returns (newHead: Node?<T>)
    requires Chain(head, nodes) && i < |nodes| && node == nodes[i]
    requires prev == if i == 0 then null else nodes[i - 1]
    modifies nodes`next
    ensures Chain(newHead, Without(nodes, i))
  {
    ChainLinks(head, nodes);
    if prev == null {
      newHead := node.next;
    } else {
      newHead := head;
      prev.next := node.next;
    }
    Unlinked(nodes, i);
  }

  lemma WithoutSteps<T>(s: seq<T>, i: nat)
    requires 0 < i < |s|
    ensures Without(s, i) == [s[0]] + Without(s[1..], i - 1)
  {
  }

  lemma {:induction false} WithoutKeeps<T>(nodes: seq<Node<T>>, i: nat)
    requires i < |nodes|
    ensures DataOf(Without(nodes, i)) == Without(DataOf(nodes), i)
    decreases i
  {
    if i == 0 {
      assert Without(nodes, 0) == nodes[1..];
      assert Without(DataOf(nodes), 0) == DataOf(nodes)[1..];
    } else {
      WithoutSteps(nodes, i);
      WithoutSteps(DataOf(nodes), i);
      WithoutKeeps(nodes[1..], i - 1);
      assert DataOf(nodes)[1..] == DataOf(nodes[1..]);
    }
  }

  /** A list with its data. */
  ghost predicate Holds<T>(head: Node?<T>, nodes: seq<Node<T>>, data: seq<T>)
    reads nodes
  {
    Chain(head, nodes) && DataOf(nodes) == data
  }

  /** One step along it. */
  lemma HoldsNext<T>(node: Node<T>, nodes: seq<Node<T>>, data: seq<T>)
    requires Holds(node, nodes, data)
    ensures nodes != [] && data != [] && node == nodes[0] && node.data == data[0]
    ensures Holds(node.next, nodes[1..], data[1..])
  {
  }

  /** Unlink, as seen in the data. */
  method Take<T>(head: Node<T>, prev: Node?<T>, cur: Node<T>, ghost nodes: seq<Node<T>>, ghost i: nat, ghost data: seq<T>)
    returns (newHead: Node?<T>)
    requires Holds(head, nodes, data)
    requires i < |nodes| && cur == nodes[i] && prev == if i == 0 then null else nodes[i - 1]
    modifies nodes`next
    ensures Holds(newHead, Without(nodes, i), Without(data, i))
  {
    WithoutKeeps(nodes, i);
    newHead := Unlink(head, prev, cur, nodes, i);
    WithoutKeeps(nodes, i);
  }

  // ---- several lists side by side ----

  /** Every node belongs to the list with that key. */
  ghost predicate Owned<T>(nodes: seq<Node<T>>, owner: map<Node<T>, int>, key: int) {
    forall n | n in nodes :: n in owner && owner[n] == key
  }

  ghost predicate Apart<T>(a: seq<Node<T>>, b: seq<Node<T>>) {
    forall n | n in a :: n !in b
  }
}
