// The singly linked lists of src/misc.c.
module Lists {

  class Node<T> {
    const value: T
    var next: Node?<T>

    constructor (value: T)
      ensures this.value == value && next == null
    {
      this.value := value;
      next := null;
    }
  }

  /** Node number i, or null past the end. */
  ghost function Nth<T>(ns: seq<Node<T>>, i: nat): Node?<T> {
    if i < |ns| then ns[i] else null
  }

  /** The nodes reached from root, in order. */
  ghost predicate Chain<T>(root: Node?<T>, ns: seq<Node<T>>)
    reads ns
  {
    root == Nth(ns, 0)
    && (forall i {:trigger ns[i].next} :: 0 <= i < |ns| ==> ns[i].next == Nth(ns, i + 1))
    && (forall i, j :: 0 <= i < j < |ns| ==> ns[i] != ns[j])
  }

  /** list_add: the node goes to the end. */
  method ListAdd<T>(root: Node?<T>, node: Node<T>, ghost ns: seq<Node<T>>) returns (newRoot: Node<T>)
    requires Chain(root, ns) && node !in ns
    modifies node`next, (if ns == [] then {} else {ns[|ns| - 1]})`next
    ensures Chain(newRoot, ns + [node])
  {
    var ptr := root;
    ghost var i := 0;
    while ptr != null && ptr.next != null
      invariant 0 <= i <= |ns| && ptr == Nth(ns, i) && (ns != [] ==> ptr != null)
      decreases |ns| - i
    {
      ptr := ptr.next;
      i := i + 1;
    }
    if ptr != null {
      ptr.next := node;
      newRoot := root;
    } else {
      newRoot := node;
    }
    node.next := null;
  }

  /** list_prev: the node whose successor is `node`, or null for the first one. */
  method ListPrev<T>(root: Node?<T>, node: Node<T>, ghost ns: seq<Node<T>>, ghost k: nat) returns (prev: Node?<T>)
    requires Chain(root, ns) && k < |ns| && ns[k] == node
    ensures prev == if k == 0 then null else ns[k - 1]
  {
    var ptr := root;
    ghost var i := 0;
    while ptr != null
      invariant 0 <= i <= |ns| && ptr == Nth(ns, i)
      invariant k == 0 || i <= k - 1
      decreases |ns| - i
    {
      if ptr.next == node {
        return ptr;
      }
      ptr := ptr.next;
      i := i + 1;
    }
    return null;
  }
}
