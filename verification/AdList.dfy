/** The doubly linked list, on its nodes. The nodes in order are a ghost sequence. */
module AdList {

  datatype Option<+T> = None | Some(value: T)

  /** The values are pointers, here numbers. */
  type Value = int

  class ListNode {
    var prev: ListNode?
    var next: ListNode?
    var value: Value

    /** listInitNode */
    constructor (value: Value)
      ensures prev == null && next == null && this.value == value
    {
      prev, next, this.value := null, null, value;
    }
  }

  // ---- chains of nodes ----

  /** The node at a place, or null beside the list. */
  function At(nodes: seq<ListNode>, i: int): ListNode? {
    if 0 <= i < |nodes| then nodes[i] else null
  }

  ghost predicate Distinct(nodes: seq<ListNode>) {
    forall i, j :: 0 <= i < j < |nodes| ==> nodes[i] != nodes[j]
  }

  /** The links of the nodes are those of a list with the nodes in this order. */
  ghost predicate Chain(nodes: seq<ListNode>)
    reads nodes
  {
    && Distinct(nodes)
    && forall i :: 0 <= i < |nodes| ==> nodes[i].prev == At(nodes, i - 1) && nodes[i].next == At(nodes, i + 1)
  }

  lemma AtIs(nodes: seq<ListNode>, i: int)
    ensures if 0 <= i < |nodes| then At(nodes, i) == nodes[i] else At(nodes, i) == null
  {}

  lemma Apart(nodes: seq<ListNode>, i: int)
    requires Distinct(nodes)
    ensures 0 <= i < |nodes| ==> forall j :: 0 <= j < |nodes| ==> (nodes[i] == nodes[j] <==> i == j)
  {}

  /** Taking out the node at `i`. */
  function Without(nodes: seq<ListNode>, i: nat): seq<ListNode>
    requires i < |nodes|
  {
    nodes[..i] + nodes[i + 1..]
  }

  /** The links lead around the node at `i`. */
  ghost predicate LinkedAround(nodes: seq<ListNode>, i: nat)
    requires i < |nodes|
    reads nodes
  {
    && Distinct(nodes)
    && forall j :: 0 <= j < |nodes| && j != i ==>
         && nodes[j].prev == At(nodes, if j == i + 1 then i - 1 else j - 1)
         && nodes[j].next == At(nodes, if j == i - 1 then i + 1 else j + 1)
  }

  lemma WithoutAt(nodes: seq<ListNode>, i: nat)
    requires i < |nodes|
    ensures |Without(nodes, i)| == |nodes| - 1
    ensures forall j :: 0 <= j < |nodes| - 1 ==> Without(nodes, i)[j] == nodes[if j < i then j else j + 1]
  {}

  lemma DistinctWithout(nodes: seq<ListNode>, i: nat)
    requires i < |nodes| && Distinct(nodes)
    ensures Distinct(Without(nodes, i))
  {
    hide Without;
    WithoutAt(nodes, i);
  }

  lemma AtWithout(nodes: seq<ListNode>, i: nat, j: int)
    requires i < |nodes|
    ensures At(Without(nodes, i), j) == At(nodes, if j < i then j else j + 1)
  {}

  lemma ChainWithout(nodes: seq<ListNode>, i: nat)
    requires i < |nodes| && LinkedAround(nodes, i)
    ensures Chain(Without(nodes, i))
  {
    hide Without, Distinct, At;
    WithoutAt(nodes, i);
    DistinctWithout(nodes, i);
    var rest := Without(nodes, i);
    forall j | 0 <= j < |rest| ensures rest[j].prev == At(rest, j - 1) && rest[j].next == At(rest, j + 1) {
      AtWithout(nodes, i, j - 1);
      AtWithout(nodes, i, j + 1);
    }
  }

  /** Putting in a node in front of place `i`. */
  function Inserted(nodes: seq<ListNode>, i: nat, node: ListNode): seq<ListNode>
    requires i <= |nodes|
  {
    nodes[..i] + [node] + nodes[i..]
  }

  /** The links go through `node` in front of place `i`. */
  ghost predicate LinkedThrough(nodes: seq<ListNode>, i: nat, node: ListNode)
    requires i <= |nodes|
    reads nodes, node
  {
    && Distinct(nodes) && node !in nodes && node.prev == At(nodes, i - 1) && node.next == At(nodes, i)
    && forall j :: 0 <= j < |nodes| ==>
         && nodes[j].prev == (if j == i then node else At(nodes, j - 1))
         && nodes[j].next == (if j == i - 1 then node else At(nodes, j + 1))
  }

  lemma InsertedAt(nodes: seq<ListNode>, i: nat, node: ListNode)
    requires i <= |nodes|
    ensures |Inserted(nodes, i, node)| == |nodes| + 1 && Inserted(nodes, i, node)[i] == node
    ensures forall j :: 0 <= j <= |nodes| && j != i ==> Inserted(nodes, i, node)[j] == nodes[if j < i then j else j - 1]
  {}

  lemma DistinctInserted(nodes: seq<ListNode>, i: nat, node: ListNode)
    requires i <= |nodes| && Distinct(nodes) && node !in nodes
    ensures Distinct(Inserted(nodes, i, node))
  {
    hide Inserted;
    InsertedAt(nodes, i, node);
  }

  lemma AtInserted(nodes: seq<ListNode>, i: nat, node: ListNode, j: int)
    requires i <= |nodes|
    ensures At(Inserted(nodes, i, node), j) == if j == i then node else At(nodes, if j < i then j else j - 1)
  {}

  lemma ChainInserted(nodes: seq<ListNode>, i: nat, node: ListNode)
    requires i <= |nodes| && LinkedThrough(nodes, i, node)
    ensures Chain(Inserted(nodes, i, node))
  {
    hide Inserted, Distinct, At;
    InsertedAt(nodes, i, node);
    DistinctInserted(nodes, i, node);
    var all := Inserted(nodes, i, node);
    forall j | 0 <= j < |all| ensures all[j].prev == At(all, j - 1) && all[j].next == At(all, j + 1) {
      AtInserted(nodes, i, node, j - 1);
      AtInserted(nodes, i, node, j + 1);
    }
  }

  ghost predicate Disjoint(a: seq<ListNode>, b: seq<ListNode>) {
    forall n :: n in a ==> n !in b
  }

  lemma DisjointAt(a: seq<ListNode>, b: seq<ListNode>)
    requires Disjoint(a, b)
    ensures forall i, j :: 0 <= i < |a| && 0 <= j < |b| ==> a[i] != b[j]
  {
    assert forall i :: 0 <= i < |a| ==> a[i] in a;
    assert forall i :: 0 <= i < |b| ==> b[i] in b;
  }

  /** The links lead from the last node of `a` to the first of `b`. */
  ghost predicate LinkedAcross(a: seq<ListNode>, b: seq<ListNode>)
    reads a, b
  {
    && Distinct(a) && Distinct(b) && Disjoint(a, b)
    && (forall j :: 0 <= j < |a| ==>
          a[j].prev == At(a, j - 1) && a[j].next == if j == |a| - 1 then At(b, 0) else At(a, j + 1))
    && (forall j :: 0 <= j < |b| ==>
          b[j].next == At(b, j + 1) && b[j].prev == if j == 0 then At(a, |a| - 1) else At(b, j - 1))
  }

  lemma DistinctJoined(a: seq<ListNode>, b: seq<ListNode>)
    requires Distinct(a) && Distinct(b) && Disjoint(a, b)
    ensures Distinct(a + b)
  {
    assert forall i :: 0 <= i < |a| ==> a[i] in a;
    assert forall i :: 0 <= i < |b| ==> b[i] in b;
  }

  lemma AtJoined(a: seq<ListNode>, b: seq<ListNode>, j: int)
    ensures At(a + b, j) == if j < |a| then At(a, j) else At(b, j - |a|)
  {}

  lemma ChainJoined(a: seq<ListNode>, b: seq<ListNode>)
    requires LinkedAcross(a, b)
    ensures Chain(a + b)
  {
    hide Distinct, At;
    DistinctJoined(a, b);
    var all := a + b;
    forall j | 0 <= j < |all| ensures all[j].prev == At(all, j - 1) && all[j].next == At(all, j + 1) {
      AtJoined(a, b, j - 1);
      AtJoined(a, b, j + 1);
      AtIs(b, -1);
      AtIs(a, |a|);
    }
  }

  /** The last node moves to the front. */
  function TailToHead<T>(s: seq<T>): seq<T> {
    if |s| <= 1 then s else [s[|s| - 1]] + s[..|s| - 1]
  }

  /** The first node moves to the end. */
  function HeadToTail<T>(s: seq<T>): seq<T> {
    if |s| <= 1 then s else s[1..] + [s[0]]
  }

  lemma FrontAndBack<T>(front: T, s: seq<T>, back: T)
    ensures ([front] + s)[1..] == s && (s + [back])[..|s|] == s
  {}

  /** The two rotations undo each other. */
  lemma RotationsAreInverse<T>(s: seq<T>)
    ensures HeadToTail(TailToHead(s)) == s && TailToHead(HeadToTail(s)) == s
  {
    if |s| > 1 {
      var first, last, front, back := s[0], s[|s| - 1], s[..|s| - 1], s[1..];
      FrontAndBack(last, front, last);
      FrontAndBack(first, back, first);
      assert s == front + [last] == [first] + back;
    }
  }

  function Values(nodes: seq<ListNode>): (r: seq<Value>)
    reads nodes
    ensures |r| == |nodes| && forall i :: 0 <= i < |r| ==> r[i] == nodes[i].value
  {
    seq(|nodes|, i requires 0 <= i < |nodes| reads nodes => nodes[i].value)
  }

  class List {
    var head: ListNode?
    var tail: ListNode?
    var len: nat
    var dup: Option<Value -> Option<Value>>
    var matches: Option<(Value, Value) -> bool>
    var hasFree: bool
    /** The values given to the free callback so far. */
    var freed: seq<Value>
    ghost var nodes: seq<ListNode>

    ghost predicate Valid()
      reads this, nodes
    {
      Chain(nodes) && len == |nodes| && head == At(nodes, 0) && tail == At(nodes, |nodes| - 1)
    }

    /** listCreate */
    constructor ()
      ensures Valid() && nodes == [] && freed == [] && dup.None? && matches.None? && !hasFree
    {
      head, tail, len, nodes, freed := null, null, 0, [], [];
      dup, matches, hasFree := None, None, false;
    }

    /** listCreate in listDup: an empty list with the callbacks of another. */
    constructor Like(l: List)
      ensures Valid() && nodes == [] && freed == [] && dup == l.dup && matches == l.matches && hasFree == l.hasFree
    {
      head, tail, len, nodes, freed := null, null, 0, [], [];
      dup, matches, hasFree := l.dup, l.matches, l.hasFree;
    }

    // ---- adding nodes ----

    /** listLinkNodeHead */
    method LinkNodeHead(node: ListNode)
      requires Valid() && node !in nodes
      modifies this`head, this`tail, this`len, this`nodes, node`prev, node`next, nodes`prev
      ensures Valid() && nodes == [node] + old(nodes)
    {
      hide Distinct, At, Inserted;
      Apart(nodes, 0);
      AtEnds(nodes);
      if len == 0 {
        head, tail := node, node;
        node.prev, node.next := null, null;
      } else {
        node.prev := null;
        node.next := head;
        head.prev := node;
        head := node;
      }
      len := len + 1;
      ChainInserted(nodes, 0, node);
      InsertedEnds(nodes, node);
      AtEnds([node] + nodes);
      nodes := [node] + nodes;
    }

    /** listLinkNodeTail */
    method LinkNodeTail(node: ListNode)
      requires Valid() && node !in nodes
      modifies this`head, this`tail, this`len, this`nodes, node`prev, node`next, nodes`next
      ensures Valid() && nodes == old(nodes) + [node]
    {
      hide Distinct, At, Inserted;
      Apart(nodes, |nodes| - 1);
      AtEnds(nodes);
      if len == 0 {
        head, tail := node, node;
        node.prev, node.next := null, null;
      } else {
        node.prev := tail;
        node.next := null;
        tail.next := node;
        tail := node;
      }
      len := len + 1;
      ChainInserted(nodes, |nodes|, node);
      InsertedEnds(nodes, node);
      AtEnds(nodes + [node]);
      nodes := nodes + [node];
    }

    /** listAddNodeHead */
    method AddNodeHead(value: Value) returns (node: ListNode)
      requires Valid()
      modifies this`head, this`tail, this`len, this`nodes, nodes`prev
      ensures Valid() && fresh(node) && node.value == value && nodes == [node] + old(nodes)
    {
      hide Chain;
      node := new ListNode(value);
      LinkNodeHead(node);
    }

    /** listAddNodeTail */
    method AddNodeTail(value: Value) returns (node: ListNode)
      requires Valid()
      modifies this`head, this`tail, this`len, this`nodes, nodes`next
      ensures Valid() && fresh(node) && node.value == value && nodes == old(nodes) + [node]
    {
      hide Chain;
      node := new ListNode(value);
      LinkNodeTail(node);
    }

    /** The end of listInsertNode: the neighbours of the new node, in front of place `p`, point to it. */
    method HookNeighbours(node: ListNode, ghost p: nat)
      requires Chain(nodes) && p <= |nodes| && node !in nodes && node.prev == At(nodes, p - 1) && node.next == At(nodes, p)
      modifies nodes`prev, nodes`next
      ensures Chain(Inserted(nodes, p, node))
    {
      hide Distinct, At, Inserted;
      Apart(nodes, p - 1);
      Apart(nodes, p);
      AtIs(nodes, p - 1);
      AtIs(nodes, p);
      if node.prev != null {
        node.prev.next := node;
      }
      if node.next != null {
        node.next.prev := node;
      }
      ChainInserted(nodes, p, node);
    }

    /** listInsertNode; `i` is the place of the old node. */
    method InsertNode(oldNode: ListNode, value: Value, after: bool, ghost i: nat) returns (node: ListNode)
      requires Valid() && i < |nodes| && nodes[i] == oldNode
      modifies this`head, this`tail, this`len, this`nodes, nodes`prev, nodes`next
      ensures Valid() && fresh(node) && node.value == value
      ensures nodes == Inserted(old(nodes), if after then i + 1 else i, node)
    {
      hide Distinct, At, Inserted, Chain;
      ghost var p := if after then i + 1 else i;
      OldNode(nodes, i);
      node := new ListNode(value);
      if after {
        node.prev := oldNode;
        node.next := oldNode.next;
        if tail == oldNode {
          tail := node;
        }
      } else {
        node.next := oldNode;
        node.prev := oldNode.prev;
        if head == oldNode {
          head := node;
        }
      }
      HookNeighbours(node, p);
      len := len + 1;
      InsertedHeadTail(nodes, p, node);
      nodes := Inserted(nodes, p, node);
    }

    // ---- removing nodes ----

    /** The links of listUnlinkNode lead around the node; `i` is its place. */
    method Unhook(node: ListNode, ghost i: nat)
      requires Valid() && i < |nodes| && nodes[i] == node
      modifies this`head, this`tail, nodes`prev, nodes`next
      ensures Chain(Without(nodes, i)) && node.prev == null && node.next == null
      ensures head == (if i == 0 then At(nodes, 1) else old(head))
      ensures tail == (if i == |nodes| - 1 then At(nodes, |nodes| - 2) else old(tail))
    {
      hide Distinct, At, Without;
      Apart(nodes, i - 1);
      Apart(nodes, i);
      Apart(nodes, i + 1);
      AtIs(nodes, i - 1);
      AtIs(nodes, i + 1);
      if node.prev != null {
        node.prev.next := node.next;
      } else {
        head := node.next;
      }
      if node.next != null {
        node.next.prev := node.prev;
      } else {
        tail := node.prev;
      }
      node.next := null;
      node.prev := null;
      ChainWithout(nodes, i);
    }

    /** listUnlinkNode; `i` is the place of the node. */
    method UnlinkNode(node: ListNode, ghost i: nat)
      requires Valid() && i < |nodes| && nodes[i] == node
      modifies this`head, this`tail, this`len, this`nodes, nodes`prev, nodes`next
      ensures Valid() && nodes == Without(old(nodes), i) && node.prev == null && node.next == null
    {
      hide Distinct, At, Without, Chain;
      WithoutHeadTail(nodes, i);
      Unhook(node, i);
      len := len - 1;
      nodes := Without(nodes, i);
    }

    /** listDelNode */
    method DelNode(node: ListNode, ghost i: nat)
      requires Valid() && i < |nodes| && nodes[i] == node
      modifies this`head, this`tail, this`len, this`nodes, this`freed, nodes`prev, nodes`next
      ensures Valid() && nodes == Without(old(nodes), i)
      ensures freed == if hasFree then old(freed) + [node.value] else old(freed)
    {
      hide Chain, At, Without;
      UnlinkNode(node, i);
      if hasFree {
        freed := freed + [node.value];
      }
    }

    /** listEmpty: every value is given to the free callback once, in order. */
    method Empty()
      requires Valid()
      modifies this`head, this`tail, this`len, this`nodes, this`freed
      ensures Valid() && nodes == []
      ensures freed == old(freed) + if hasFree then Values(old(nodes)) else []
    {
      hide Distinct, At;
      AtEnds(nodes);
      var current, n := head, len;
      ghost var i := 0;
      while n > 0
        invariant i + n == |nodes| && current == At(nodes, i) && Chain(nodes) && unchanged(this`nodes)
        invariant freed == old(freed) + if hasFree then Values(nodes)[..i] else []
      {
        AtIs(nodes, i);
        var next := current.next;
        if hasFree {
          freed := freed + [current.value];
        }
        current := next;
        n, i := n - 1, i + 1;
      }
      head, tail, len, nodes := null, null, 0, [];
      EmptyChain();
    }

    // ---- rotating and joining ----

    /** The links of listRotateTailToHead; `front` are the other nodes. */
    method MoveTailToHead(ghost front: seq<ListNode>)
      requires tail != null && FrontOf(front, tail) && head == front[0]
      modifies this`head, this`tail, front`prev, front`next, tail`prev, tail`next
      ensures Chain(Inserted(front, 0, old(tail))) && head == old(tail) && tail == front[|front| - 1]
    {
      hide Distinct, At, Inserted;
      Apart(front, 0);
      Apart(front, |front| - 1);
      AtEnds(front);
      var last := tail;
      tail := last.prev;
      tail.next := null;
      head.prev := last;
      last.prev := null;
      last.next := head;
      head := last;
      ChainInserted(front, 0, last);
    }

    /** listRotateTailToHead */
    method RotateTailToHead()
      requires Valid()
      modifies this`head, this`tail, this`nodes, nodes`prev, nodes`next
      ensures Valid() && nodes == TailToHead(old(nodes))
    {
      hide Chain, At, Inserted, FrontOf;
      if len <= 1 {
        return;
      }
      ghost var n := |nodes| - 1;
      ghost var front, last := nodes[..n], nodes[n];
      AtEnds(nodes);
      FrontLinks(nodes);
      MoveTailToHead(front);
      InsertedEnds(front, last);
      AtEnds([last] + front);
      nodes := [last] + front;
    }

    /** The links of listRotateHeadToTail; `back` are the other nodes. */
    method MoveHeadToTail(ghost back: seq<ListNode>)
      requires head != null && BackOf(head, back) && tail == back[|back| - 1]
      modifies this`head, this`tail, back`prev, back`next, head`prev, head`next
      ensures Chain(Inserted(back, |back|, old(head))) && head == back[0] && tail == old(head)
    {
      hide Distinct, At, Inserted;
      Apart(back, 0);
      Apart(back, |back| - 1);
      AtEnds(back);
      var first := head;
      head := first.next;
      head.prev := null;
      tail.next := first;
      first.next := null;
      first.prev := tail;
      tail := first;
      ChainInserted(back, |back|, first);
    }

    /** listRotateHeadToTail */
    method RotateHeadToTail()
      requires Valid()
      modifies this`head, this`tail, this`nodes, nodes`prev, nodes`next
      ensures Valid() && nodes == HeadToTail(old(nodes))
    {
      hide Chain, At, Inserted, BackOf;
      if len <= 1 {
        return;
      }
      ghost var back, first := nodes[1..], nodes[0];
      AtEnds(nodes);
      BackLinks(nodes);
      MoveHeadToTail(back);
      InsertedEnds(back, first);
      AtEnds(back + [first]);
      nodes := back + [first];
    }

    /** The links of listJoin, between the nodes of the two lists. */
    method LinkTo(o: List)
      requires Valid() && o.Valid() && o.nodes != [] && Disjoint(nodes, o.nodes)
      modifies this`head, nodes`next, o.nodes`prev
      ensures LinkedAcross(nodes, o.nodes) && head == At(nodes + o.nodes, 0)
    {
      hide Distinct, At, Disjoint;
      AtEnds(nodes);
      AtEnds(o.nodes);
      Apart(o.nodes, 0);
      Apart(nodes, |nodes| - 1);
      DisjointAt(nodes, o.nodes);
      AtEnds(nodes + o.nodes);
      o.head.prev := tail;
      if tail != null {
        tail.next := o.head;
      } else {
        head := o.head;
      }
    }

    /** listJoin */
    method Join(o: List)
      requires Valid() && o.Valid() && o != this && Disjoint(nodes, o.nodes)
      modifies this`head, this`tail, this`len, this`nodes, nodes`next
      modifies o`head, o`tail, o`len, o`nodes, o.nodes`prev
      ensures Valid() && nodes == old(nodes) + old(o.nodes)
      ensures o.Valid() && o.nodes == []
    {
      hide Distinct, At, Chain, LinkedAcross, Disjoint;
      AtEnds(nodes);
      AtEnds(o.nodes);
      EmptyChain();
      if o.len == 0 {
        assert nodes + o.nodes == nodes;
        return;
      }
      LinkTo(o);
      tail := o.tail;
      len := len + o.len;
      o.head := null;
      o.tail := null;
      o.len := 0;
      ChainJoined(nodes, o.nodes);
      AtEnds(nodes + o.nodes);
      nodes := nodes + o.nodes;
      o.nodes := [];
    }
  
    // ---- reading ----

    /** listIndex: from the head, or with a negative index from the tail; null when out of range. */
    method Index(index: int) returns (n: ListNode?)
      requires Valid()
      ensures n == At(nodes, if index < 0 then |nodes| + index else index)
    {
      hide At;
      if index < 0 {
        var left := -index - 1;
        n := tail;
        while left != 0 && n != null
          invariant 0 <= left <= -index - 1 && n == At(nodes, |nodes| + index + left)
          decreases left
        {
          AtIs(nodes, |nodes| + index + left);
          n := n.prev;
          left := left - 1;
        }
        AtIs(nodes, |nodes| + index + left);
        AtIs(nodes, |nodes| + index);
      } else {
        var left := index;
        n := head;
        while left != 0 && n != null
          invariant 0 <= left <= index && n == At(nodes, index - left)
          decreases left
        {
          AtIs(nodes, index - left);
          n := n.next;
          left := left - 1;
        }
        AtIs(nodes, index - left);
        AtIs(nodes, index);
      }
    }

    /** The match callback, or the comparison of pointers when there is none. */
    predicate Matches(value: Value, key: Value)
      reads this
    {
      if matches.Some? then matches.value(value, key) else key == value
    }

    /** listSearchKey: the first node that matches, from the head. */
    method SearchKey(key: Value) returns (node: ListNode?, ghost i: nat)
      requires Valid()
      ensures node == null ==> forall j :: 0 <= j < |nodes| ==> !Matches(nodes[j].value, key)
      ensures node != null ==> i < |nodes| && nodes[i] == node && Matches(node.value, key)
      ensures node != null ==> forall j :: 0 <= j < i ==> !Matches(nodes[j].value, key)
    {
      hide At, Distinct, Matches;
      AtIs(nodes, 0);
      i := 0;
      var iter := Rewind(this, true);
      node, iter := Next(iter);
      while node != null
        invariant i <= |nodes| && node == At(nodes, i) && iter.forward
        invariant node != null ==> iter.next == At(nodes, i + 1)
        invariant forall j :: 0 <= j < i ==> !Matches(nodes[j].value, key)
        decreases |nodes| - i
      {
        AtIs(nodes, i);
        MatchesIs(node.value, key);
        if matches.Some? {
          if matches.value(node.value, key) {
            return;
          }
        } else {
          if key == node.value {
            return;
          }
        }
        i := i + 1;
        AtIs(nodes, i);
        node, iter := Next(iter);
      }
      AtIs(nodes, i);
    }

    lemma MatchesIs(value: Value, key: Value)
      ensures Matches(value, key) == if matches.Some? then matches.value(value, key) else key == value
    {}

    /** One round of listDup, on the copy; when the dup callback fails, the copy is released. */
    method AddCopy(value: Value) returns (ok: bool)
      requires Valid()
      modifies this`head, this`tail, this`len, this`nodes, this`freed, nodes`next
      ensures Valid() && (ok <==> Copy(dup, value).Some?)
      ensures ok ==> Values(nodes) == old(Values(nodes)) + [Copy(dup, value).value] && freed == old(freed)
      ensures ok ==> exists node :: fresh(node) && nodes == old(nodes) + [node]
      ensures !ok ==> nodes == [] && freed == old(freed) + if hasFree then old(Values(nodes)) else []
    {
      hide At, Distinct, Chain, Copy, Values;
      CopyIs(dup, value);
      ghost var before, done := nodes, Values(nodes);
      var made := value;
      if dup.Some? {
        var o := dup.value(value);
        if o.None? {
          Empty();
          return false;
        }
        made := o.value;
      }
      ValuesAre(before);
      var added := AddNodeTail(made);
      ValuesAre(nodes);
      ValuesGrow(before, added, done, Values(nodes));
      return true;
    }

    lemma IsChain()
      requires Valid()
      ensures Chain(nodes) && head == At(nodes, 0) && tail == At(nodes, |nodes| - 1)
    {}

    /** One round of the loop of listDup, over the values `vs`. */
    method CopyNext(copy: List, value: Value, ghost vs: seq<Value>, ghost n: nat) returns (ok: bool)
      requires copy.Valid() && copy.freed == [] && n < |vs| && value == vs[n]
      requires CopiedUpTo(copy.dup, vs, n, Values(copy.nodes))
      modifies copy`head, copy`tail, copy`len, copy`nodes, copy`freed, copy.nodes`next
      ensures copy.Valid() && (ok <==> Copy(copy.dup, value).Some?)
      ensures ok ==> copy.freed == [] && CopiedUpTo(copy.dup, vs, n + 1, Values(copy.nodes))
      ensures ok ==> exists node :: fresh(node) && copy.nodes == old(copy.nodes) + [node]
      ensures !ok ==> copy.nodes == [] && n <= |vs| && forall j :: 0 <= j < n ==> Copy(copy.dup, vs[j]).Some?
      ensures !ok ==> copy.freed == if copy.hasFree then Copies(copy.dup, vs[..n]) else []
    {
      hide At, Distinct, Copy, Copies, Values, CopiedUpTo, Chain, Valid;
      ghost var done := Values(copy.nodes);
      CopiedMeans(copy.dup, vs, n, done);
      ok := copy.AddCopy(value);
      if ok {
        CopiedOneMore(copy.dup, vs, n, done, Copy(copy.dup, value).value);
      }
    }

    /** The loop of listDup. */
    method CopyAll(copy: List) returns (ok: bool, ghost n: nat)
      requires Valid() && copy.Valid() && copy != this && copy.nodes == [] && copy.freed == []
      modifies copy`head, copy`tail, copy`len, copy`nodes, copy`freed
      ensures copy.Valid() && fresh(copy.nodes)
      ensures n <= |nodes| && forall j :: 0 <= j < n ==> Copy(copy.dup, nodes[j].value).Some?
      ensures ok ==> n == |nodes| && copy.freed == [] && Values(copy.nodes) == Copies(copy.dup, old(Values(nodes)))
      ensures !ok ==> n < |nodes| && Copy(copy.dup, nodes[n].value).None?
      ensures !ok ==> copy.freed == if copy.hasFree then Copies(copy.dup, old(Values(nodes))[..n]) else []
    {
      hide At, Distinct, Copy, Copies, Values, CopiedUpTo, Chain, Valid;
      IsChain();
      NodeAt(nodes, 0);
      ValuesAre(nodes);
      NothingCopied(copy.dup, nodes, copy.nodes);
      ghost var vs := Values(nodes);
      var node, iter := Next(Rewind(this, true));
      n := 0;
      while node != null
        invariant n <= |nodes| && node == At(nodes, n) && iter.forward && Chain(nodes)
        invariant node != null ==> iter.next == At(nodes, n + 1)
        invariant copy.Valid() && fresh(copy.nodes) && copy.freed == []
        invariant CopiedUpTo(copy.dup, vs, n, Values(copy.nodes))
        decreases |nodes| - n
      {
        NodeAt(nodes, n);
        ok := CopyNext(copy, node.value, vs, n);
        if !ok {
          return;
        }
        n := n + 1;
        NodeAt(nodes, n);
        node, iter := Next(iter);
      }
      AtIs(nodes, n);
      CopiedMeans(copy.dup, vs, n, Values(copy.nodes));
      ok := true;
    }

    /** listDup. The copy, unless the dup callback fails; then what was copied so far is given to the free callback. */
    method Dup() returns (r: Option<List>, released: seq<Value>, ghost n: nat)
      requires Valid()
      ensures n <= |nodes| && forall j :: 0 <= j < n ==> Copy(dup, nodes[j].value).Some?
      ensures r.Some? ==> n == |nodes| && released == []
      ensures r.None? ==> n < |nodes| && Copy(dup, nodes[n].value).None?
      ensures r.None? ==> released == if hasFree then Copies(dup, old(Values(nodes))[..n]) else []
      ensures r.Some? ==> fresh(r.value) && fresh(r.value.nodes) && r.value.Valid() &&
                          Values(r.value.nodes) == Copies(dup, old(Values(nodes))) &&
                          r.value.dup == dup && r.value.hasFree == hasFree && r.value.matches == matches
    {
      hide At, Distinct, Copy, Copies, Values, CopiedUpTo, Chain, Valid;
      ValuesAre(nodes);
      var copy := new List.Like(this);
      var ok;
      ok, n := CopyAll(copy);
      return if ok then Some(copy) else None, copy.freed, n;
    }
  }

  lemma NothingCopied(dup: Option<Value -> Option<Value>>, nodes: seq<ListNode>, none: seq<ListNode>)
    requires none == []
    ensures CopiedUpTo(dup, Values(nodes), 0, Values(none))
  {}

  lemma NodeAt(nodes: seq<ListNode>, n: nat)
    requires Chain(nodes) && n <= |nodes|
    ensures n < |nodes| ==> At(nodes, n) == nodes[n] && nodes[n].next == At(nodes, n + 1)
    ensures n == |nodes| ==> At(nodes, n) == null
  {}

  lemma ValuesAre(nodes: seq<ListNode>)
    ensures |Values(nodes)| == |nodes| && forall i :: 0 <= i < |nodes| ==> Values(nodes)[i] == nodes[i].value
  {}

  lemma ValuesGrow(before: seq<ListNode>, added: ListNode, done: seq<Value>, after: seq<Value>)
    requires |done| == |before| && |after| == |before| + 1 && after[|before|] == added.value
    requires forall i :: 0 <= i < |before| ==> after[i] == done[i]
    ensures after == done + [added.value]
  {}

  lemma CopyIs(dup: Option<Value -> Option<Value>>, v: Value)
    ensures Copy(dup, v) == if dup.Some? then dup.value(v) else Some(v)
  {}

  /** The first `n` values could be copied, to `done`. */
  ghost predicate CopiedUpTo(dup: Option<Value -> Option<Value>>, vs: seq<Value>, n: nat, done: seq<Value>) {
    && n <= |vs| && (forall j :: 0 <= j < n ==> Copy(dup, vs[j]).Some?)
    && done == Copies(dup, vs[..n])
  }

  lemma CopiedMeans(dup: Option<Value -> Option<Value>>, vs: seq<Value>, n: nat, done: seq<Value>)
    requires CopiedUpTo(dup, vs, n, done)
    ensures n <= |vs| && (forall j :: 0 <= j < n ==> Copy(dup, vs[j]).Some?) && done == Copies(dup, vs[..n])
    ensures [] + done == done && vs[..|vs|] == vs
  {}

  lemma CopiedOneMore(dup: Option<Value -> Option<Value>>, vs: seq<Value>, n: nat, done: seq<Value>, value: Value)
    requires CopiedUpTo(dup, vs, n, done) && n < |vs| && Copy(dup, vs[n]) == Some(value)
    ensures CopiedUpTo(dup, vs, n + 1, done + [value])
  {
    assert vs[..n + 1][..n] == vs[..n];
  }

  /** What the dup callback makes of a value; without it, the value itself. */
  function Copy(dup: Option<Value -> Option<Value>>, v: Value): Option<Value> {
    if dup.Some? then dup.value(v) else Some(v)
  }

  function Copies(dup: Option<Value -> Option<Value>>, vs: seq<Value>): seq<Value> {
    if vs == [] then []
    else Copies(dup, vs[..|vs| - 1]) + match Copy(dup, vs[|vs| - 1]) case Some(c) => [c] case None => []
  }

  // ---- iterating ----

  /** The iterator, a plain record that the caller owns. */
  datatype ListIter = ListIter(next: ListNode?, forward: bool)

  /** listRewind and listRewindTail */
  function Rewind(l: List, forward: bool): ListIter
    reads l
  {
    ListIter(if forward then l.head else l.tail, forward)
  }

  /** listNext */
  method Next(iter: ListIter) returns (current: ListNode?, after: ListIter)
    ensures current == iter.next && after.forward == iter.forward
    ensures after.next == if current == null then null else if iter.forward then current.next else current.prev
  {
    current, after := iter.next, iter;
    if current != null {
      if iter.forward {
        after := iter.(next := current.next);
      } else {
        after := iter.(next := current.prev);
      }
    }
  }

  // ---- deleting while iterating ----

  /** The nodes that are kept, when the `j`-th one visited is deleted if `doomed(j)`. */
  function Kept(visited: seq<ListNode>, doomed: nat -> bool): seq<ListNode> {
    if visited == [] then []
    else var n := |visited| - 1; Kept(visited[..n], doomed) + if doomed(n) then [] else [visited[n]]
  }

  function Reversed<T>(s: seq<T>): (r: seq<T>)
    ensures |r| == |s| && forall i :: 0 <= i < |s| ==> r[i] == s[|s| - 1 - i]
  {
    seq(|s|, i requires 0 <= i < |s| => s[|s| - 1 - i])
  }

  /** The list in the direction of the iteration. */
  function Ahead<T>(s: seq<T>, forward: bool): seq<T> {
    if forward then s else Reversed(s)
  }

  lemma {:induction false} KeptOneMore(visited: seq<ListNode>, node: ListNode, doomed: nat -> bool)
    ensures Kept(visited + [node], doomed) == Kept(visited, doomed) + if doomed(|visited|) then [] else [node]
  {
    assert (visited + [node])[..|visited|] == visited;
  }

  /** Where an iteration stands, seen in its direction: the nodes kept of those visited, then those still to come. */
  ghost predicate Sweeping(
    all: seq<ListNode>, nodes: seq<ListNode>, forward: bool, visited: seq<ListNode>, left: seq<ListNode>, doomed: nat -> bool)
  {
    visited + left == Ahead(all, forward) && Ahead(nodes, forward) == Kept(visited, doomed) + left
  }

  /** The place in the list of what is at `p` in the direction of the iteration. */
  function Place(n: nat, forward: bool, p: nat): nat
    requires p < n
  {
    if forward then p else n - 1 - p
  }

  lemma SweepBegins(all: seq<ListNode>, forward: bool, doomed: nat -> bool)
    ensures Sweeping(all, all, forward, [], Ahead(all, forward), doomed)
    ensures At(Ahead(all, forward), 0) == if forward then At(all, 0) else At(all, |all| - 1)
  {}

  /** The node to visit next, and its place in the list. */
  lemma SweepAt(
    all: seq<ListNode>, nodes: seq<ListNode>, forward: bool, visited: seq<ListNode>, left: seq<ListNode>, doomed: nat -> bool)
    requires Sweeping(all, nodes, forward, visited, left, doomed) && left != []
    ensures var p := |Kept(visited, doomed)|; p < |nodes| && nodes[Place(|nodes|, forward, p)] == left[0]
  {
    hide Kept;
    assert Ahead(nodes, forward)[|Kept(visited, doomed)|] == left[0];
  }

  lemma AheadNext(nodes: seq<ListNode>, forward: bool, p: nat)
    requires Chain(nodes) && p < |nodes|
    ensures var node := nodes[Place(|nodes|, forward, p)];
            (if forward then node.next else node.prev) == At(Ahead(nodes, forward), p + 1)
  {
    hide Distinct;
  }

  /** What listNext finds at the node it returns. */
  lemma SweepNext(
    all: seq<ListNode>, nodes: seq<ListNode>, forward: bool, visited: seq<ListNode>, left: seq<ListNode>, doomed: nat -> bool)
    requires Sweeping(all, nodes, forward, visited, left, doomed) && left != [] && Chain(nodes)
    ensures (if forward then left[0].next else left[0].prev) == At(left, 1)
  {
    hide Kept, Chain;
    var p := |Kept(visited, doomed)|;
    SweepAt(all, nodes, forward, visited, left, doomed);
    AheadNext(nodes, forward, p);
    assert At(Kept(visited, doomed) + left, p + 1) == At(left, 1);
  }

  lemma {:induction false} AheadWithout(nodes: seq<ListNode>, forward: bool, p: nat)
    requires p < |nodes|
    ensures Ahead(Without(nodes, Place(|nodes|, forward, p)), forward) == Without(Ahead(nodes, forward), p)
  {
    hide Without;
    WithoutAt(nodes, Place(|nodes|, forward, p));
    WithoutAt(Ahead(nodes, forward), p);
  }

  lemma HeadOff(front: seq<ListNode>, left: seq<ListNode>)
    requires left != []
    ensures Without(front + left, |front|) == front + left[1..]
    ensures front + left == front + [left[0]] + left[1..]
    ensures front + [] == front
  {}

  lemma SweepStep(
    all: seq<ListNode>, nodes: seq<ListNode>, forward: bool, visited: seq<ListNode>, left: seq<ListNode>, doomed: nat -> bool)
    requires Sweeping(all, nodes, forward, visited, left, doomed) && left != []
    ensures |Kept(visited, doomed)| < |nodes|
    ensures var i := Place(|nodes|, forward, |Kept(visited, doomed)|);
            var nodes' := if doomed(|visited|) then Without(nodes, i) else nodes;
            Sweeping(all, nodes', forward, visited + [left[0]], left[1..], doomed)
  {
    hide Kept, Without, Ahead;
    var front := Kept(visited, doomed);
    KeptOneMore(visited, left[0], doomed);
    HeadOff(front, left);
    HeadOff(visited, left);
    SweepAt(all, nodes, forward, visited, left, doomed);
    AheadWithout(nodes, forward, |front|);
  }

  /**
   The usage pattern of the iterator: any of the nodes may be deleted when it has just been returned. Every node that
   was in the list is visited once, in the direction of the iteration, and those not deleted remain in their order.
   */
  method Sweep(l: List, forward: bool, doomed: nat -> bool) returns (values: seq<Value>, ghost visited: seq<ListNode>)
    requires l.Valid()
    modifies l`head, l`tail, l`len, l`nodes, l`freed, l.nodes`prev, l.nodes`next
    ensures l.Valid() && visited == Ahead(old(l.nodes), forward)
    ensures |values| == |visited| && forall j :: 0 <= j < |values| ==> values[j] == visited[j].value
    ensures Ahead(l.nodes, forward) == Kept(visited, doomed)
  {
    hide Chain, Kept, Without, Ahead, At, Sweeping;
    ghost var all := l.nodes;
    ghost var left := Ahead(all, forward);
    SweepBegins(all, forward, doomed);
    values, visited := [], [];
    AheadNode(left, 0);
    var node, iter := Next(Rewind(l, forward));
    if node != null {
      SweepNext(all, l.nodes, forward, visited, left, doomed);
    }
    while node != null
      invariant l.Valid() && Sweeping(all, l.nodes, forward, visited, left, doomed) && iter.forward == forward
      invariant node == At(left, 0) && (node != null ==> iter.next == At(left, 1))
      invariant forall k :: 0 <= k < |l.nodes| ==> l.nodes[k] in all
      invariant |values| == |visited| && forall j :: 0 <= j < |values| ==> values[j] == visited[j].value
      decreases |left|
    {
      AheadNode(left, 0);
      AheadNode(left, 1);
      SweepAt(all, l.nodes, forward, visited, left, doomed);
      SweepStep(all, l.nodes, forward, visited, left, doomed);
      ghost var i := Place(|l.nodes|, forward, |Kept(visited, doomed)|);
      OnlyFewer(l.nodes, i);
      var delete := doomed(|values|);
      values := values + [node.value];
      if delete {
        l.DelNode(node, i);
      }
      visited, left := visited + [node], left[1..];
      AheadNode(left, 0);
      node, iter := Next(iter);
      if node != null {
        SweepNext(all, l.nodes, forward, visited, left, doomed);
      }
    }
    AheadNode(left, 0);
    SweepEnds(all, l.nodes, forward, visited, left, doomed);
  }

  lemma AheadNode(left: seq<ListNode>, i: nat)
    ensures At(left, i) == if i < |left| then left[i] else null
    ensures left != [] ==> At(left[1..], i) == At(left, i + 1)
  {}

  lemma OnlyFewer(nodes: seq<ListNode>, i: nat)
    requires i < |nodes|
    ensures forall k :: 0 <= k < |Without(nodes, i)| ==> Without(nodes, i)[k] in nodes
  {}

  lemma SweepEnds(
    all: seq<ListNode>, nodes: seq<ListNode>, forward: bool, visited: seq<ListNode>, left: seq<ListNode>, doomed: nat -> bool)
    requires Sweeping(all, nodes, forward, visited, left, doomed) && left == []
    ensures visited == Ahead(all, forward) && Ahead(nodes, forward) == Kept(visited, doomed)
  {
    assert visited + [] == visited && Kept(visited, doomed) + [] == Kept(visited, doomed);
  }

  lemma AtEnds(nodes: seq<ListNode>)
    ensures At(nodes, -1) == null && At(nodes, |nodes|) == null
    ensures nodes == [] ==> At(nodes, 0) == null
    ensures nodes != [] ==> At(nodes, 0) == nodes[0] && At(nodes, |nodes| - 1) == nodes[|nodes| - 1]
  {}

  /** What listInsertNode finds at the old node. */
  lemma OldNode(nodes: seq<ListNode>, i: nat)
    requires Chain(nodes) && i < |nodes|
    ensures nodes[i].prev == At(nodes, i - 1) && nodes[i].next == At(nodes, i + 1) && At(nodes, i) == nodes[i]
    ensures At(nodes, 0) == nodes[i] <==> i == 0
    ensures At(nodes, |nodes| - 1) == nodes[i] <==> i == |nodes| - 1
  {
    Apart(nodes, i);
  }

  lemma InsertedHeadTail(nodes: seq<ListNode>, p: nat, node: ListNode)
    requires p <= |nodes|
    ensures var all := Inserted(nodes, p, node);
            && |all| == |nodes| + 1 && At(all, 0) == (if p == 0 then node else At(nodes, 0))
            && At(all, |all| - 1) == (if p == |nodes| then node else At(nodes, |nodes| - 1))
  {}

  lemma WithoutHeadTail(nodes: seq<ListNode>, i: nat)
    requires i < |nodes|
    ensures var rest := Without(nodes, i);
            && |rest| == |nodes| - 1 && At(rest, 0) == (if i == 0 then At(nodes, 1) else At(nodes, 0))
            && At(rest, |rest| - 1) == (if i == |nodes| - 1 then At(nodes, |nodes| - 2) else At(nodes, |nodes| - 1))
  {}

  lemma EmptyChain()
    ensures Chain([]) && At([], 0) == null && At([], -1) == null
  {}

  /** `front` is a list but for its end, which is linked to `last`. */
  ghost predicate FrontOf(front: seq<ListNode>, last: ListNode)
    reads front, last
  {
    && front != [] && Distinct(front) && last !in front && last.prev == front[|front| - 1]
    && (forall j :: 0 <= j < |front| ==> front[j].prev == At(front, j - 1))
    && (forall j :: 0 <= j < |front| - 1 ==> front[j].next == At(front, j + 1))
  }

  lemma FrontLinks(nodes: seq<ListNode>)
    requires Chain(nodes) && |nodes| > 1
    ensures FrontOf(nodes[..|nodes| - 1], nodes[|nodes| - 1])
  {}

  /** `back` is a list but for its start, which is linked to `first`. */
  ghost predicate BackOf(first: ListNode, back: seq<ListNode>)
    reads back, first
  {
    && back != [] && Distinct(back) && first !in back && first.next == back[0]
    && (forall j :: 0 < j < |back| ==> back[j].prev == At(back, j - 1))
    && (forall j :: 0 <= j < |back| ==> back[j].next == At(back, j + 1))
  }

  lemma BackLinks(nodes: seq<ListNode>)
    requires Chain(nodes) && |nodes| > 1
    ensures BackOf(nodes[0], nodes[1..])
  {}

  lemma InsertedEnds(nodes: seq<ListNode>, node: ListNode)
    ensures Inserted(nodes, 0, node) == [node] + nodes
    ensures Inserted(nodes, |nodes|, node) == nodes + [node]
  {
    assert [] + [node] + nodes == [node] + nodes;
  }
}
