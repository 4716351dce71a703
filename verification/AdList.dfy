/** The doubly linked list of adlist.c: forward and backward links mirror one sequence of nodes. */
module AdList {
  import opened Options

  class Node<T> {
    var prev: Node?<T>
    var next: Node?<T>
    const value: T

    constructor (value: T)
      ensures this.value == value && prev == null && next == null
    {
      this.value := value;
      prev, next := null, null;
    }
  }

  // Node i of a sequence, or null outside it.
  ghost function At<T>(nodes: seq<Node<T>>, i: int): Node?<T> {
    if 0 <= i < |nodes| then nodes[i] else null
  }

  ghost predicate Distinct<T>(nodes: seq<Node<T>>) {
    forall i, j :: 0 <= i < j < |nodes| ==> nodes[i] != nodes[j]
  }

  ghost predicate Backward<T>(nodes: seq<Node<T>>)
    reads nodes
  {
    forall i {:trigger nodes[i].prev} :: 0 <= i < |nodes| ==> nodes[i].prev == At(nodes, i - 1)
  }

  ghost predicate Forward<T>(nodes: seq<Node<T>>)
    reads nodes
  {
    forall i {:trigger nodes[i].next} :: 0 <= i < |nodes| ==> nodes[i].next == At(nodes, i + 1)
  }

  /** Both chains of links run through these nodes. */
  ghost predicate Linked<T>(nodes: seq<Node<T>>)
    reads nodes
  {
    Backward(nodes) && Forward(nodes)
  }

  // ----- a node comes in

  ghost function Inserted<T>(was: seq<Node<T>>, at: nat, node: Node<T>): (r: seq<Node<T>>)
    requires at <= |was|
    ensures |r| == |was| + 1 && forall i :: 0 <= i < |r| ==>
      r[i] == if i < at then was[i] else if i == at then node else was[i - 1]
  {
    was[..at] + [node] + was[at..]
  }

  lemma InsertDistinct<T>(was: seq<Node<T>>, at: nat, node: Node<T>)
    requires Distinct(was) && node !in was && at <= |was|
    ensures Distinct(Inserted(was, at, node))
  {
  }

  lemma InsertBackward<T>(was: seq<Node<T>>, at: nat, node: Node<T>, nodes: seq<Node<T>>)
    requires at <= |was| && nodes == Inserted(was, at, node) && node.prev == At(was, at - 1)
    requires forall i {:trigger was[i].prev} :: 0 <= i < |was| ==>
      was[i].prev == if i == at then node else At(was, i - 1)
    ensures Backward(nodes)
  {
    forall i | 0 <= i < |nodes|
      ensures nodes[i].prev == At(nodes, i - 1)
    {
      if i != at {
        var k := if i < at then i else i - 1;
        assert nodes[i] == was[k] && was[k].prev == if k == at then node else At(was, k - 1);
      }
    }
  }

  lemma InsertForward<T>(was: seq<Node<T>>, at: nat, node: Node<T>, nodes: seq<Node<T>>)
    requires at <= |was| && nodes == Inserted(was, at, node) && node.next == At(was, at)
    requires forall i {:trigger was[i].next} :: 0 <= i < |was| ==>
      was[i].next == if i == at - 1 then node else At(was, i + 1)
    ensures Forward(nodes)
  {
    forall i | 0 <= i < |nodes|
      ensures nodes[i].next == At(nodes, i + 1)
    {
      if i != at {
        var k := if i < at then i else i - 1;
        assert nodes[i] == was[k] && was[k].next == if k == at - 1 then node else At(was, k + 1);
      }
    }
  }

  // ----- a node goes

  ghost function Removed<T>(was: seq<Node<T>>, k: nat): (r: seq<Node<T>>)
    requires k < |was|
    ensures |r| == |was| - 1 && forall i :: 0 <= i < |r| ==> r[i] == if i < k then was[i] else was[i + 1]
  {
    was[..k] + was[k + 1..]
  }

  lemma RemoveDistinct<T>(was: seq<Node<T>>, k: nat)
    requires Distinct(was) && k < |was|
    ensures Distinct(Removed(was, k))
  {
  }

  lemma RemoveBackward<T>(was: seq<Node<T>>, k: nat, nodes: seq<Node<T>>)
    requires k < |was| && nodes == Removed(was, k)
    requires forall i {:trigger was[i].prev} :: 0 <= i < |was| && i != k ==>
      was[i].prev == At(was, if i == k + 1 then k - 1 else i - 1)
    ensures Backward(nodes)
  {
    forall i | 0 <= i < |nodes|
      ensures nodes[i].prev == At(nodes, i - 1)
    {
      var j := if i < k then i else i + 1;
      assert nodes[i] == was[j] && was[j].prev == At(was, if j == k + 1 then k - 1 else j - 1);
    }
  }

  lemma RemoveForward<T>(was: seq<Node<T>>, k: nat, nodes: seq<Node<T>>)
    requires k < |was| && nodes == Removed(was, k)
    requires forall i {:trigger was[i].next} :: 0 <= i < |was| && i != k ==>
      was[i].next == At(was, if i == k - 1 then k + 1 else i + 1)
    ensures Forward(nodes)
  {
    forall i | 0 <= i < |nodes|
      ensures nodes[i].next == At(nodes, i + 1)
    {
      var j := if i < k then i else i + 1;
      assert nodes[i] == was[j] && was[j].next == At(was, if j == k - 1 then k + 1 else j + 1);
    }
  }

  // ----- two lists become one

  lemma JoinDistinct<T>(a: seq<Node<T>>, b: seq<Node<T>>)
    requires Distinct(a) && Distinct(b)
    requires forall i, j :: 0 <= i < |a| && 0 <= j < |b| ==> a[i] != b[j]
    ensures Distinct(a + b)
  {
  }

  lemma JoinBackward<T>(a: seq<Node<T>>, b: seq<Node<T>>)
    requires Backward(a)
    requires forall j {:trigger b[j].prev} :: 0 <= j < |b| ==>
      b[j].prev == if j == 0 then At(a, |a| - 1) else b[j - 1]
    ensures Backward(a + b)
  {
    var nodes := a + b;
    forall i | 0 <= i < |nodes|
      ensures nodes[i].prev == At(nodes, i - 1)
    {
      if i < |a| {
        assert a[i].prev == At(a, i - 1);
      } else {
        var j := i - |a|;
        assert b[j].prev == if j == 0 then At(a, |a| - 1) else b[j - 1];
      }
    }
  }

  lemma JoinForward<T>(a: seq<Node<T>>, b: seq<Node<T>>)
    requires Forward(b)
    requires forall i {:trigger a[i].next} :: 0 <= i < |a| ==>
      a[i].next == if i == |a| - 1 then At(b, 0) else a[i + 1]
    ensures Forward(a + b)
  {
    var nodes := a + b;
    forall i | 0 <= i < |nodes|
      ensures nodes[i].next == At(nodes, i + 1)
    {
      if i < |a| {
        assert a[i].next == if i == |a| - 1 then At(b, 0) else a[i + 1];
      } else {
        assert b[i - |a|].next == At(b, i - |a| + 1);
      }
    }
  }

  // ----- copies

  /** The copies are those of the first nodes, in order. */
  ghost predicate Copied<T, U>(copyValue: T -> Option<U>, nodes: seq<Node<T>>, copies: seq<Node<U>>) {
    |copies| <= |nodes| && forall i :: 0 <= i < |copies| ==> copyValue(nodes[i].value) == Some(copies[i].value)
  }

  lemma OneMoreCopied<T, U>(copyValue: T -> Option<U>, nodes: seq<Node<T>>, copies: seq<Node<U>>, added: Node<U>)
    requires Copied(copyValue, nodes, copies) && |copies| < |nodes|
    requires copyValue(nodes[|copies|].value) == Some(added.value)
    ensures Copied(copyValue, nodes, copies + [added])
  {
  }

  /** listIter: the node to return next, and the direction. */
  datatype Iter<T> = Iter(next: Node?<T>, forward: bool)

  class List<T> {
    var head: Node?<T>
    var tail: Node?<T>
    var len: nat
    ghost var nodes: seq<Node<T>>

    ghost predicate Valid()
      reads this, nodes
    {
      && len == |nodes|
      && Distinct(nodes)
      && head == At(nodes, 0)
      && tail == At(nodes, |nodes| - 1)
      && Linked(nodes)
    }

    constructor ()
      ensures Valid() && nodes == []
    {
      head, tail, len, nodes := null, null, 0, [];
    }

    method AddNodeHead(value: T) returns (node: Node<T>)
      requires Valid()
      modifies this, if head == null then {} else {head}
      ensures Valid() && fresh(node) && node.value == value && nodes == [node] + old(nodes)
    {
      node := new Node<T>(value);
      if len == 0 {
        head, tail := node, node;
      } else {
        node.next := head;
        head.prev := node;
        head := node;
      }
      len := len + 1;
      nodes := [node] + nodes;
    }

    method AddNodeTail(value: T) returns (node: Node<T>)
      requires Valid()
      modifies this, if tail == null then {} else {tail}
      ensures Valid() && fresh(node) && node.value == value && nodes == old(nodes) + [node]
    {
      node := new Node<T>(value);
      if len == 0 {
        head, tail := node, node;
      } else {
        node.prev := tail;
        tail.next := node;
        tail := node;
      }
      len := len + 1;
      nodes := nodes + [node];
    }

    /** listInsertNode next to node k. */
    method InsertNode(oldNode: Node<T>, ghost k: nat, value: T, after: bool) returns (node: Node<T>)
      requires Valid() && k < |nodes| && nodes[k] == oldNode
      modifies this, nodes
      ensures var at := if after then k + 1 else k;
        Valid() && fresh(node) && node.value == value && nodes == old(nodes)[..at] + [node] + old(nodes)[at..]
    {
      node := new Node<T>(value);
      if after {
        node.prev := oldNode;
        node.next := oldNode.next;
        if tail == oldNode {
          tail := node;
        }
      } else {
        node.next := oldNode;
        node.prev := oldNode.prev;
        if head == oldNode {
          head := node;
        }
      }
      LinkIn(node, if after then k + 1 else k);
    }

    /** The end of listInsertNode: the neighbours of the new node are made to point to it. */
    method LinkIn(node: Node<T>, ghost at: nat)
      requires len == |nodes| && Distinct(nodes) && Linked(nodes) && node !in nodes && at <= |nodes| && nodes != []
      requires node.prev == At(nodes, at - 1) && node.next == At(nodes, at)
      requires head == (if at == 0 then node else nodes[0])
      requires tail == (if at == |nodes| then node else nodes[|nodes| - 1])
      modifies this, if node.prev == null then {} else {node.prev}, if node.next == null then {} else {node.next}
      ensures Valid() && nodes == old(nodes)[..at] + [node] + old(nodes)[at..]
    {
      if node.prev != null {
        node.prev.next := node;
      }
      if node.next != null {
        node.next.prev := node;
      }
      len := len + 1;
      ghost var was := nodes;
      nodes := Inserted(nodes, at, node);
      InsertDistinct(was, at, node);
      InsertBackward(was, at, node, nodes);
      InsertForward(was, at, node, nodes);
    }

    /** listDelNode of node k. */
    method DelNode(node: Node<T>, ghost k: nat)
      requires Valid() && k < |nodes| && nodes[k] == node
      modifies this, if node.prev == null then {} else {node.prev}, if node.next == null then {} else {node.next}
      ensures Valid() && nodes == old(nodes)[..k] + old(nodes)[k + 1..]
    {
      if node.prev != null {
        node.prev.next := node.next;
      } else {
        head := node.next;
      }
      if node.next != null {
        node.next.prev := node.prev;
      } else {
        tail := node.prev;
      }
      len := len - 1;
      ghost var was := nodes;
      nodes := Removed(nodes, k);
      RemoveDistinct(was, k);
      RemoveBackward(was, k, nodes);
      RemoveForward(was, k, nodes);
    }

    // ----- iterators

    /** The iterator has k nodes before it: it will return node k, or node k - 1 going backward. */
    ghost predicate Points(it: Iter<T>, k: nat)
      reads this
    {
      k <= |nodes| && it.next == At(nodes, if it.forward then k else k - 1)
    }

    method Rewind() returns (it: Iter<T>)
      requires Valid()
      ensures it.forward && Points(it, 0)
    {
      it := Iter(head, true);
    }

    method RewindTail() returns (it: Iter<T>)
      requires Valid()
      ensures !it.forward && Points(it, |nodes|)
    {
      it := Iter(tail, false);
    }

    method Next(it: Iter<T>, ghost k: nat) returns (node: Node?<T>, it': Iter<T>)
      requires Valid() && Points(it, k)
      ensures node == At(nodes, if it.forward then k else k - 1) && it'.forward == it.forward
      ensures if node == null then it' == it else Points(it', if it.forward then k + 1 else k - 1)
    {
      node, it' := it.next, it;
      if node != null {
        it' := Iter(if it.forward then node.next else node.prev, it.forward);
      }
    }

    /** Deleting the node that the iterator has just returned leaves it before the same remaining nodes. */
    method NextAndDelete(it: Iter<T>, ghost k: nat) returns (node: Node?<T>, it': Iter<T>)
      requires Valid() && Points(it, k)
      modifies this, nodes
      ensures Valid() && it'.forward == it.forward && node == old(At(nodes, if it.forward then k else k - 1))
      ensures node == null ==> nodes == old(nodes) && it' == it
      ensures node != null && it.forward ==> nodes == old(nodes)[..k] + old(nodes)[k + 1..] && Points(it', k)
      ensures node != null && !it.forward ==> nodes == old(nodes)[..k - 1] + old(nodes)[k..] && Points(it', k - 1)
    {
      node, it' := Next(it, k);
      if node != null {
        DelNode(node, if it.forward then k else k - 1);
      }
    }

    // ----- the other operations

    /** listIndex: negative indexes count from the tail. */
    method Index(index: int) returns (n: Node?<T>)
      requires Valid()
      ensures n == At(nodes, if index < 0 then |nodes| + index else index)
    {
      if index < 0 {
        var i := -index - 1;
        n := tail;
        while i != 0 && n != null
          invariant 0 <= i <= -index - 1 && n == At(nodes, |nodes| + index + i)
          decreases i
        {
          n := n.prev;
          i := i - 1;
        }
      } else {
        var i := index;
        n := head;
        while i != 0 && n != null
          invariant 0 <= i <= index && n == At(nodes, index - i)
          decreases i
        {
          n := n.next;
          i := i - 1;
        }
      }
    }

    /** listSearchKey: the first node that matches. */
    method SearchKey(matches: T -> bool) returns (node: Node?<T>, ghost k: nat)
      requires Valid()
      ensures k <= |nodes| && node == At(nodes, k)
      ensures forall i :: 0 <= i < k ==> !matches(nodes[i].value)
      ensures node != null ==> matches(node.value)
    {
      k := 0;
      var it := Rewind();
      while true
        invariant it.forward && Points(it, k)
        invariant forall i :: 0 <= i < k ==> !matches(nodes[i].value)
        decreases |nodes| - k
      {
        node, it := Next(it, k);
        if node == null || matches(node.value) {
          return;
        }
        k := k + 1;
      }
    }

    method RotateTailToHead()
      requires Valid()
      modifies this, nodes
      ensures Valid()
      ensures |old(nodes)| <= 1 ==> nodes == old(nodes)
      ensures |old(nodes)| > 1 ==>
        var n := |old(nodes)| - 1; nodes == [old(nodes)[n]] + old(nodes)[..n]
    {
      if len <= 1 {
        return;
      }
      var last := tail;
      tail := last.prev;
      tail.next := null;
      head.prev := last;
      last.prev := null;
      last.next := head;
      head := last;
      nodes := [nodes[|nodes| - 1]] + nodes[..|nodes| - 1];
    }

    method RotateHeadToTail()
      requires Valid()
      modifies this, nodes
      ensures Valid()
      ensures |old(nodes)| <= 1 ==> nodes == old(nodes)
      ensures |old(nodes)| > 1 ==> nodes == old(nodes)[1..] + [old(nodes)[0]]
    {
      if len <= 1 {
        return;
      }
      var first := head;
      head := first.next;
      head.prev := null;
      tail.next := first;
      first.next := null;
      first.prev := tail;
      tail := first;
      nodes := nodes[1..] + [nodes[0]];
    }

    /** listJoin: o's nodes go to the end of this list, and o is left empty. */
    method Join(o: List<T>)
      requires Valid() && o.Valid() && o != this
      requires forall i, j :: 0 <= i < |nodes| && 0 <= j < |o.nodes| ==> nodes[i] != o.nodes[j]
      modifies this, o, if tail == null then {} else {tail}, if o.head == null then {} else {o.head}
      ensures Valid() && o.Valid()
      ensures nodes == old(nodes) + old(o.nodes) && o.nodes == []
    {
      if o.len == 0 {
        return;
      }
      ghost var a, b := nodes, o.nodes;
      JoinDistinct(a, b);
      o.head.prev := tail;
      if tail != null {
        tail.next := o.head;
      } else {
        head := o.head;
      }
      tail := o.tail;
      len := len + o.len;
      nodes := a + b;
      o.head, o.tail, o.len, o.nodes := null, null, 0, [];
      JoinBackward(a, b);
      JoinForward(a, b);
    }

    /** listDup with a copy function for the values that may fail. */
    method Dup<U>(copyValue: T -> Option<U>) returns (copy: List?<U>)
      requires Valid()
      ensures copy == null <==> exists i :: 0 <= i < |nodes| && copyValue(nodes[i].value).None?
      ensures copy != null ==>
        fresh(copy) && copy.Valid() && |copy.nodes| == |nodes| && Copied(copyValue, nodes, copy.nodes)
    {
      var c := new List<U>();
      var ok := CopyTo(c, copyValue);
      return if ok then c else null;
    }

    // The loop of listDup.
    method CopyTo<U>(c: List<U>, copyValue: T -> Option<U>) returns (ok: bool)
      requires Valid() && c.Valid() && c.nodes == [] && this as object != c
      modifies c
      ensures ok <==> forall i :: 0 <= i < |nodes| ==> copyValue(nodes[i].value).Some?
      ensures ok ==> c.Valid() && |c.nodes| == |nodes| && Copied(copyValue, nodes, c.nodes)
    {
      var it := Rewind();
      ghost var k := 0;
      while true
        invariant it.forward && Points(it, k)
        invariant c.Valid() && |c.nodes| == k && fresh(c.nodes)
        invariant Copied(copyValue, nodes, c.nodes)
        decreases |nodes| - k
      {
        var node, it' := Next(it, k);
        if node == null {
          return true;
        }
        var value := copyValue(node.value);
        if value.None? {
          return false;
        }
        assert k > 0 ==> c.tail == c.nodes[k - 1] && c.nodes[k - 1] in c.nodes;
        ghost var was := c.nodes;
        var added := c.AddNodeTail(value.value);
        OneMoreCopied(copyValue, nodes, was, added);
        it, k := it', k + 1;
      }
    }
  }
}
