/** `details::list`: a doubly linked list edited through its own nodes. */
module LinkedList {

  class Node<T> {
    var prev: Node?<T>
    var next: Node?<T>
    /** The list itself never changes an element. */
    const data: T

    constructor (data: T)
      ensures prev == null && next == null && this.data == data
    {
      prev, next, this.data := null, null, data;
    }
  }

  ghost function NodeAt<T>(nodes: seq<Node<T>>, i: int): Node?<T> {
    if 0 <= i < |nodes| then nodes[i] else null
  }

  /** Following `next` goes through `nodes` in order and following `prev` goes back through them. */
  ghost predicate Chained<T>(nodes: seq<Node<T>>)
    reads nodes
  {
    && Distinct(nodes)
    && (forall i {:trigger nodes[i].prev} :: 0 <= i < |nodes| ==> nodes[i].prev == NodeAt(nodes, i - 1))
    && (forall i {:trigger nodes[i].next} :: 0 <= i < |nodes| ==> nodes[i].next == NodeAt(nodes, i + 1))
  }

  ghost predicate Holding<T>(nodes: seq<Node<T>>, contents: seq<T>) {
    |contents| == |nodes| && forall i {:trigger nodes[i].data} :: 0 <= i < |nodes| ==> nodes[i].data == contents[i]
  }

  /** Two lists share no node. */
  ghost predicate Apart<T>(a: seq<Node<T>>, b: seq<Node<T>>) {
    forall i :: 0 <= i < |a| ==> a[i] !in b
  }

  lemma MembersWithout<T>(s: seq<T>, k: nat)
    requires k < |s|
    ensures var r := s[..k] + s[k + 1..]; forall i :: 0 <= i < |r| ==> r[i] in s
  {
  }

  /** The chains lead past the `k`-th node. */
  ghost predicate Bypassed<T>(nodes: seq<Node<T>>, k: nat)
    reads nodes
  {
    && (forall i {:trigger nodes[i].prev} :: 0 <= i < |nodes| && i != k ==>
          nodes[i].prev == NodeAt(nodes, if i == k + 1 then k - 1 else i - 1))
    && (forall i {:trigger nodes[i].next} :: 0 <= i < |nodes| && i != k ==>
          nodes[i].next == NodeAt(nodes, if i == k - 1 then k + 1 else i + 1))
  }

  lemma LinkWithout<T>(nodes: seq<Node<T>>, k: nat, rest: seq<Node<T>>, i: nat)
    requires k < |nodes| && Bypassed(nodes, k) && rest == nodes[..k] + nodes[k + 1..] && i < |rest|
    ensures rest[i].prev == NodeAt(rest, i - 1) && rest[i].next == NodeAt(rest, i + 1)
  {
    var j := if i < k then i else i + 1;
    assert rest[i] == nodes[j];
    assert NodeAt(rest, i - 1) == NodeAt(nodes, if j == k + 1 then k - 1 else j - 1);
    assert NodeAt(rest, i + 1) == NodeAt(nodes, if j == k - 1 then k + 1 else j + 1);
  }

  predicate Distinct<T(==)>(s: seq<T>) {
    forall i, j :: 0 <= i < j < |s| ==> s[i] != s[j]
  }

  lemma DistinctWithout<T>(s: seq<T>, k: nat)
    requires k < |s| && Distinct(s)
    ensures Distinct(s[..k] + s[k + 1..])
  {
    var r := s[..k] + s[k + 1..];
    forall i, j | 0 <= i < j < |r|
      ensures r[i] != r[j]
    {
      assert r[i] == s[if i < k then i else i + 1] && r[j] == s[if j < k then j else j + 1];
    }
  }

  lemma ChainedWithout<T>(nodes: seq<Node<T>>, k: nat)
    requires k < |nodes| && Bypassed(nodes, k) && Distinct(nodes)
    ensures Chained(nodes[..k] + nodes[k + 1..])
  {
    var rest := nodes[..k] + nodes[k + 1..];
    DistinctWithout(nodes, k);
    forall i | 0 <= i < |rest|
      ensures rest[i].prev == NodeAt(rest, i - 1) && rest[i].next == NodeAt(rest, i + 1)
    {
      LinkWithout(nodes, k, rest, i);
    }
  }

  lemma EndsWithout<T>(nodes: seq<Node<T>>, k: nat)
    requires k < |nodes|
    ensures var rest := nodes[..k] + nodes[k + 1..]; var m := |nodes| - 1;
      && NodeAt(rest, 0) == (if k == 0 then NodeAt(nodes, 1) else nodes[0])
      && NodeAt(rest, |rest| - 1) == (if k == m then NodeAt(nodes, m - 1) else nodes[m])
  {
  }

  lemma HoldingWithout<T>(nodes: seq<Node<T>>, contents: seq<T>, k: nat)
    requires Holding(nodes, contents) && k < |nodes|
    ensures Holding(nodes[..k] + nodes[k + 1..], contents[..k] + contents[k + 1..])
  {
  }

  lemma EndsOf<T>(a: seq<Node<T>>, b: seq<Node<T>>)
    ensures NodeAt(a + b, 0) == if a == [] then NodeAt(b, 0) else NodeAt(a, 0)
    ensures NodeAt(a + b, |a + b| - 1) == if b == [] then NodeAt(a, |a| - 1) else NodeAt(b, |b| - 1)
  {
  }

  lemma ChainAlone<T>(a: seq<Node<T>>, b: seq<Node<T>>)
    requires Chained(a) && Chained(b) && (a == [] || b == [])
    ensures Chained(a + b)
  {
    assert a + b == if a == [] then b else a;
  }

  lemma HoldingBoth<T>(a: seq<Node<T>>, x: seq<T>, b: seq<Node<T>>, y: seq<T>)
    requires Holding(a, x) && Holding(b, y)
    ensures Holding(a + b, x + y)
  {
  }

  class List<T> {
    var front: Node?<T>
    var back: Node?<T>
    var size: nat
    /** The nodes from front to back. */
    ghost var nodes: seq<Node<T>>
    /** What they hold. */
    ghost var contents: seq<T>

    ghost predicate Valid()
      reads this, nodes
    {
      && Chained(nodes)
      && front == NodeAt(nodes, 0) && back == NodeAt(nodes, |nodes| - 1)
      && size == |nodes| && Holding(nodes, contents)
    }

    constructor ()
      ensures Valid() && nodes == [] && contents == []
    {
      front, back, size, nodes, contents := null, null, 0, [], [];
    }

    /** Link a new node behind the last. */
    method LinkBack(n: Node<T>)
      requires Valid() && n !in nodes && n.prev == null && n.next == null
      modifies this, nodes`next, n`prev
      ensures Valid() && nodes == old(nodes) + [n] && contents == old(contents) + [n.data]
    {
      if front != null {
        n.prev := back;
        back.next := n;
        back := n;
      } else {
        back := n;
        front := n;
      }
      size := size + 1;
      nodes, contents := nodes + [n], contents + [n.data];
    }

    method PushBack(data: T) returns (ghost n: Node<T>)
      requires Valid()
      modifies this, nodes`next
      ensures Valid() && fresh(n) && nodes == old(nodes) + [n]
      ensures contents == old(contents) + [data]
    {
      var newNode := new Node(data);
      LinkBack(newNode);
      n := newNode;
    }

    method LinkFront(n: Node<T>)
      requires Valid() && n !in nodes && n.prev == null && n.next == null
      modifies this, nodes`prev, n`next
      ensures Valid() && nodes == [n] + old(nodes) && contents == [n.data] + old(contents)
    {
      if front != null {
        n.next := front;
        front.prev := n;
        front := n;
      } else {
        back := n;
        front := n;
      }
      size := size + 1;
      nodes, contents := [n] + nodes, [n.data] + contents;
    }

    method PushFront(data: T) returns (ghost n: Node<T>)
      requires Valid()
      modifies this, nodes`prev
      ensures Valid() && fresh(n) && nodes == [n] + old(nodes)
      ensures contents == [data] + old(contents)
    {
      var newNode := new Node(data);
      LinkFront(newNode);
      n := newNode;
    }

    method Cerase(n: Node<T>, ghost k: nat)
      requires Valid() && k < |nodes| && n == nodes[k]
      modifies this, nodes`prev, nodes`next
      ensures Valid() && nodes == old(nodes)[..k] + old(nodes)[k + 1..]
      ensures contents == old(contents)[..k] + old(contents)[k + 1..]
    {
      HoldingWithout(nodes, contents, k);
      Unlink(n, k);
      size := size - 1;
      nodes, contents := nodes[..k] + nodes[k + 1..], contents[..k] + contents[k + 1..];
    }

    /** The neighbours of the `k`-th node are tied to each other. */
    method Unlink(n: Node<T>, ghost k: nat)
      requires Valid() && k < |nodes| && n == nodes[k]
      modifies `front, `back, nodes`prev, nodes`next
      ensures var rest := nodes[..k] + nodes[k + 1..];
        Chained(rest) && front == NodeAt(rest, 0) && back == NodeAt(rest, |rest| - 1)
    {
      assert n.prev == NodeAt(nodes, k - 1) && n.next == NodeAt(nodes, k + 1);
      if n.prev != null {
        n.prev.next := n.next;
      }
      if n.next != null {
        n.next.prev := n.prev;
      }
      if n == back {
        back := n.prev;
      }
      if n == front {
        front := n.next;
      }
      ChainedWithout(nodes, k);
      EndsWithout(nodes, k);
    }

    /** Erase the node under an iterator; the next iterator is returned. */
    method Erase(itr: Node?<T>, ghost k: nat) returns (after: Node?<T>)
      requires Valid() && k <= |nodes| && itr == NodeAt(nodes, k)
      modifies this, nodes`prev, nodes`next
      ensures Valid() && after == NodeAt(nodes, k)
      ensures nodes == if itr == null then old(nodes) else old(nodes)[..k] + old(nodes)[k + 1..]
      ensures forall i :: 0 <= i < |nodes| ==> nodes[i] in old(nodes)
      ensures contents == if itr == null then old(contents) else old(contents)[..k] + old(contents)[k + 1..]
    {
      if itr != null {
        after := itr.next;
        MembersWithout(nodes, k);
        Cerase(itr, k);
      } else {
        after := itr;
      }
    }

    /** Erase the node under an iterator moving back; the previous iterator is returned. */
    method Rerase(itr: Node?<T>, ghost k: int) returns (before: Node?<T>)
      requires Valid() && -1 <= k < |nodes| && itr == NodeAt(nodes, k)
      modifies this, nodes`prev, nodes`next
      ensures Valid() && before == NodeAt(nodes, k - 1)
      ensures nodes == if itr == null then old(nodes) else old(nodes)[..k] + old(nodes)[k + 1..]
      ensures forall i :: 0 <= i < |nodes| ==> nodes[i] in old(nodes)
      ensures contents == if itr == null then old(contents) else old(contents)[..k] + old(contents)[k + 1..]
    {
      if itr != null {
        before := itr.prev;
        MembersWithout(nodes, k);
        Cerase(itr, k);
      } else {
        before := itr;
      }
    }

    /** All nodes of `other` move behind those of this list. */
    method SpliceBack(other: List<T>)
      requires Valid() && other.Valid()
      requires other != this ==> Apart(nodes, other.nodes)
      modifies this, other, nodes`next, other.nodes`prev
      ensures Valid() && other.Valid()
      ensures nodes == if other != this then old(nodes) + old(other.nodes) else old(nodes)
      ensures other != this ==> other.nodes == [] && other.contents == []
      ensures contents == if other != this then old(contents) + old(other.contents) else old(contents)
    {
      if other != this {
        TakeAll(other);
      }
    }

    method TakeAll(other: List<T>)
      requires Valid() && other.Valid()
      requires other != this && Apart(nodes, other.nodes)
      modifies this, other, nodes`next, other.nodes`prev
      ensures Valid() && other.Valid()
      ensures nodes == old(nodes) + old(other.nodes) && other.nodes == []
      ensures contents == old(contents) + old(other.contents) && other.contents == []
    {
      EndsOf(nodes, other.nodes);
      HoldingBoth(nodes, contents, other.nodes, other.contents);
      JoinEnds(other);
      TakeOver(other);
    }

    /** The chains being one, the other list gives up its nodes. */
    method TakeOver(other: List<T>)
      requires other != this && size == |nodes| && other.size == |other.nodes|
      requires Holding(nodes + other.nodes, contents + other.contents)
      requires var all := nodes + other.nodes;
        Chained(all) && front == NodeAt(all, 0) && back == NodeAt(all, |all| - 1)
      modifies `size, `nodes, `contents, other
      ensures Valid() && other.Valid()
      ensures nodes == old(nodes) + old(other.nodes) && other.nodes == []
      ensures contents == old(contents) + old(other.contents) && other.contents == []
    {
      ghost var all := nodes + other.nodes;
      other.front, other.back := null, null;
      size := size + other.size;
      other.size := 0;
      nodes, other.nodes := all, [];
      contents, other.contents := contents + other.contents, [];
      assert Chained(all);
    }

    /** The two chains are made one, whichever of them is empty. */
    method JoinEnds(other: List<T>)
      requires Valid() && other.Valid()
      requires other != this && Apart(nodes, other.nodes)
      modifies `front, `back, nodes`next, other.nodes`prev
      ensures Chained(nodes + other.nodes)
      ensures front == (if nodes == [] then other.front else old(front))
      ensures back == (if other.nodes == [] then old(back) else other.back)
    {
      if front == null {
        ChainAlone(nodes, other.nodes);
        front := other.front;
        back := other.back;
      } else if other.front != null {
        Join(other.front, other.nodes);
        back := other.back;
      } else {
        ChainAlone(nodes, other.nodes);
      }
    }

    /** The last node and the first node of another chain are tied together. */
    method Join(first: Node<T>, ghost others: seq<Node<T>>)
      requires Chained(nodes) && nodes != [] && back == nodes[|nodes| - 1]
      requires Chained(others) && others != [] && first == others[0]
      requires Apart(nodes, others)
      modifies nodes`next, others`prev
      ensures Chained(nodes + others)
    {
      ghost var m, all := |nodes|, nodes + others;
      assert forall i :: 0 <= i < m ==> all[i] == nodes[i] && nodes[i] in nodes;
      assert forall i :: m <= i < |all| ==> all[i] == others[i - m] && others[i - m] in others;
      back.next := first;
      first.prev := back;
      assert forall i {:trigger all[i].next} :: 0 <= i < |all| ==> all[i].next == NodeAt(all, i + 1);
      assert forall i {:trigger all[i].prev} :: 0 <= i < |all| ==> all[i].prev == NodeAt(all, i - 1);
    }

    method Swap(other: List<T>)
      requires Valid() && other.Valid()
      modifies this, other
      ensures Valid() && other.Valid()
      ensures nodes == old(other.nodes) && other.nodes == old(nodes)
      ensures contents == old(other.contents) && other.contents == old(contents)
    {
      ghost var mine, theirs := nodes, other.nodes;
      front, other.front := other.front, front;
      back, other.back := other.back, back;
      size, other.size := other.size, size;
      nodes, other.nodes := theirs, mine;
      contents, other.contents := other.contents, contents;
      assert Chained(mine) && Chained(theirs);
    }

    /** The nodes are freed but the count is kept: only a list that was empty is a list afterwards. */
    method Clear()
      requires Valid()
      modifies this
      ensures front == null && back == null && nodes == [] && size == old(size)
      ensures Valid() <==> old(nodes) == []
    {
      front, back, nodes, contents := null, null, [], [];
    }
  }
}
