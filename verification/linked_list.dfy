/*
 * The singly linked lists of calutil.c (CalProp and CalParam chains),
 * with addPropNode / addParamNode and countParams.  The rest of the model
 * works on sequences; Elems relates the two views.
 */
module LinkedList {

  datatype List<T> = Nil | Node(head: T, next: List<T>)

  /** The elements of the chain in order. */
  function Elems<T>(l: List<T>): seq<T> {
    match l
    case Nil => []
    case Node(h, n) => [h] + Elems(n)
  }

  /**
   * addPropNode / addParamNode: walk to the last node and link toAdd after
   * it; an empty list becomes toAdd itself.  toAdd may itself be a chain.
   */
  function AddNode<T>(head: List<T>, toAdd: List<T>): (r: List<T>)
    ensures Elems(r) == Elems(head) + Elems(toAdd)
    ensures head.Nil? ==> r == toAdd
    ensures head.Node? ==> r.Node? && r.head == head.head
  {
    match head
    case Nil => toAdd
    case Node(h, n) => Node(h, AddNode(n, toAdd))
  }

  /** countParams: the number of nodes reached by following next. */
  function CountNodes<T>(l: List<T>): (n: nat)
    ensures n == |Elems(l)|
    ensures n == 0 <==> l.Nil?
  {
    match l
    case Nil => 0
    case Node(_, rest) => 1 + CountNodes(rest)
  }

  /** The chain built by appending one node at a time. */
  function FromSeq<T>(s: seq<T>): (l: List<T>)
    ensures Elems(l) == s
  {
    if |s| == 0 then Nil else Node(s[0], FromSeq(s[1..]))
  }

  /** Appending one node keeps the existing order and puts toAdd last. */
  lemma {:induction false} AddOneNode<T>(head: List<T>, x: T)
    ensures Elems(AddNode(head, Node(x, Nil))) == Elems(head) + [x]
    ensures CountNodes(AddNode(head, Node(x, Nil))) == CountNodes(head) + 1
  {
    assert Elems(Node(x, Nil)) == [x];
  }
}
