/** The doubly linked list (adlist.c) as one sequence of nodes without repetition. */
module AdList {
  import opened Options

  /** The values are pointers the list never looks into. */
  type Handle = int

  class Node {
    var prev: Node?
    var next: Node?
    var value: Handle

    constructor (value: Handle)
      ensures this.value == value && prev == null && next == null
    {
      this.value, prev, next := value, null, null;
    }
  }

  /** The neighbours of position `i`. */
  function Before(nodes: seq<Node>, i: nat): Node?
    requires i < |nodes|
  {
    if i == 0 then null else nodes[i - 1]
  }

  function After(nodes: seq<Node>, i: nat): Node?
    requires i < |nodes|
  {
    if i == |nodes| - 1 then null else nodes[i + 1]
  }

  function First(nodes: seq<Node>): Node? { if |nodes| == 0 then null else nodes[0] }
  function Last(nodes: seq<Node>): Node? { if |nodes| == 0 then null else nodes[|nodes| - 1] }

  function Ref(n: Node?): set<Node> { if n == null then {} else {n} }

  /** No node twice. */
  ghost predicate Distinct(nodes: seq<Node>) { forall i, j | 0 <= i < j < |nodes| :: nodes[i] != nodes[j] }

  ghost predicate Backward(nodes: seq<Node>)
    reads nodes`prev
  {
    forall i {:trigger nodes[i].prev} | 0 <= i < |nodes| :: nodes[i].prev == Before(nodes, i)
  }

  ghost predicate Forward(nodes: seq<Node>)
    reads nodes`next
  {
    forall i {:trigger nodes[i].next} | 0 <= i < |nodes| :: nodes[i].next == After(nodes, i)
  }

  /** Every node points to its neighbours. */
  ghost predicate Linked(nodes: seq<Node>)
    reads nodes
  {
    && (forall i {:trigger nodes[i].prev} | 0 <= i < |nodes| :: nodes[i].prev == Before(nodes, i))
    && (forall i {:trigger nodes[i].next} | 0 <= i < |nodes| :: nodes[i].next == After(nodes, i))
  }

  lemma BothWays(nodes: seq<Node>)
    ensures Linked(nodes) <==> Backward(nodes) && Forward(nodes)
  {
  }

  lemma DistinctInserted(nodes: seq<Node>, at: nat, node: Node)
    requires Distinct(nodes) && at <= |nodes| && node !in nodes
    ensures Distinct(nodes[..at] + [node] + nodes[at..])
  {
  }

  lemma DistinctRemoved(nodes: seq<Node>, k: nat)
    requires Distinct(nodes) && k < |nodes|
    ensures Distinct(nodes[..k] + nodes[k + 1..])
    ensures Before(nodes, k) != nodes[k] && After(nodes, k) != nodes[k]
  {
  }

  lemma EmptyChain()
    ensures Linked([]) && Distinct([])
  {
  }

  lemma Ends(nodes: seq<Node>, k: nat)
    requires Distinct(nodes) && k < |nodes|
    ensures Last(nodes) == nodes[k] <==> k == |nodes| - 1
    ensures First(nodes) == nodes[k] <==> k == 0
  {
  }

  lemma DistinctJoined(a: seq<Node>, b: seq<Node>)
    requires Distinct(a) && Distinct(b) && forall m | m in a :: m !in b
    ensures Distinct(a + b)
  {
    forall i, j | 0 <= i < j < |a + b| ensures (a + b)[i] != (a + b)[j] {
      if i < |a| <= j { assert a[i] in a && b[j - |a|] in b; }
    }
  }

  class List {
    var head: Node?
    var tail: Node?
    var len: nat
    ghost var nodes: seq<Node>

    ghost predicate Valid()
      reads this, nodes
    {
      Distinct(nodes) && Linked(nodes) && head == First(nodes) && tail == Last(nodes) && len == |nodes|
    }

    /** `listCreate` */
    constructor ()
      ensures Valid() && nodes == [] && tail == null
    {
      head, tail, len, nodes := null, null, 0, [];
    }

    /** `listEmpty` */
    method Empty()
      requires Valid()
      modifies this
      ensures Valid() && nodes == []
    {
      var current, n := head, len;
      ghost var k := 0;
      while n > 0
        invariant n + k == len && current == if n == 0 then null else nodes[k]
        invariant Valid() && nodes == old(nodes)
      {
        current := current.next;
        n, k := n - 1, k + 1;
      }
      head, tail, len, nodes := null, null, 0, [];
    }

    /** `listAddNodeHead` */
    method AddNodeHead(value: Handle) returns (node: Node)
      requires Valid()
      modifies this, Ref(head)`prev
      ensures Valid() && fresh(node) && nodes == [node] + old(nodes) && node.value == value
    {
      node := new Node(value);
      if len == 0 {
        head, tail := node, node;
      } else {
        node.next := head;
        head.prev := node;
        head := node;
      }
      len := len + 1;
      nodes := [node] + nodes;
    }

    /** `listAddNodeTail` */
    method AddNodeTail(value: Handle) returns (node: Node)
      requires Valid()
      modifies this, Ref(tail)`next
      ensures Valid() && fresh(node) && nodes == old(nodes) + [node] && node.value == value
    {
      node := new Node(value);
      if len == 0 {
        head, tail := node, node;
      } else {
        node.prev := tail;
        tail.next := node;
        tail := node;
      }
      ghost var ns := nodes + [node];
      forall i | 0 <= i < |ns| ensures ns[i].prev == Before(ns, i) && ns[i].next == After(ns, i) {
        if i < |nodes| { assert ns[i] == nodes[i]; }
      }
      len := len + 1;
      nodes := nodes + [node];
    }

    /** `listInsertNode`: right after or right before the node at position `k`. */
    method InsertNode(oldNode: Node, value: Handle, after: bool, ghost k: nat) returns (node: Node)
      requires Valid() && k < |nodes| && nodes[k] == oldNode
      modifies this, nodes`prev, nodes`next
      ensures Valid() && fresh(node) && node.value == value
      ensures var at := if after then k + 1 else k; nodes == old(nodes)[..at] + [node] + old(nodes)[at..]
    {
      hide Linked, Distinct;
      Neighbour(this, k);
      Ends(nodes, k);
      node := new Node(value);
      if after {
        node.prev := oldNode;
        node.next := oldNode.next;
        if tail == oldNode { tail := node; }
      } else {
        node.next := oldNode;
        node.prev := oldNode.prev;
        if head == oldNode { head := node; }
      }
      ghost var at := if after then k + 1 else k;
      Splice(node, at);
      len := len + 1;
      nodes := nodes[..at] + [node] + nodes[at..];
    }

    /** The end of `listInsertNode`: the neighbours are pointed at the new node. */
    method Splice(node: Node, ghost at: nat)
      requires Distinct(nodes) && Linked(nodes) && at <= |nodes| && node !in nodes
      requires node.prev == (if at == 0 then null else nodes[at - 1]) && node.next == (if at == |nodes| then null else nodes[at])
      modifies nodes`prev, nodes`next
      ensures Linked(nodes[..at] + [node] + nodes[at..]) && Distinct(nodes[..at] + [node] + nodes[at..])
    {
      ghost var p, q := node.prev, node.next;
      if node.prev != null { node.prev.next := node; }
      if node.next != null { node.next.prev := node; }
      DistinctInserted(nodes, at, node);
      ghost var ns := nodes[..at] + [node] + nodes[at..];
      forall i | 0 <= i < |ns| ensures ns[i].prev == Before(ns, i) && ns[i].next == After(ns, i) {
        if i < at { assert ns[i] == nodes[i]; } else if i > at { assert ns[i] == nodes[i - 1]; }
      }
    }

    /** `listDelNode`: the node at position `k`. Only its neighbours change, and only in their links. */
    method DelNode(node: Node, ghost k: nat)
      requires Valid() && k < |nodes| && nodes[k] == node
      modifies this, Ref(node.prev)`next, Ref(node.next)`prev
      ensures Valid() && nodes == old(nodes)[..k] + old(nodes)[k + 1..]
    {
      hide Linked, Forward, Backward, Distinct;
      Neighbour(this, k);
      Ends(nodes, k);
      DistinctRemoved(nodes, k);
      BothWays(nodes);
      if node.prev == null { head := node.next; }
      if node.next == null { tail := node.prev; }
      BypassForward(node, nodes, k);
      BypassBackward(node, nodes, k);
      BothWays(nodes[..k] + nodes[k + 1..]);
      len := len - 1;
      nodes := nodes[..k] + nodes[k + 1..];
    }

    /** The two halves of `listDelNode`: the node before is pointed past the node, and the node after likewise. */
    static method BypassForward(node: Node, ghost ns: seq<Node>, ghost k: nat)
      requires Forward(ns) && Distinct(ns) && k < |ns| && ns[k] == node && node.prev == Before(ns, k)
      modifies Ref(node.prev)`next
      ensures Forward(ns[..k] + ns[k + 1..])
    {
      if node.prev != null { node.prev.next := node.next; }
      ghost var rest := ns[..k] + ns[k + 1..];
      forall i | 0 <= i < |rest| ensures rest[i].next == After(rest, i) {
        if i < k { assert rest[i] == ns[i]; } else { assert rest[i] == ns[i + 1]; }
      }
    }

    static method BypassBackward(node: Node, ghost ns: seq<Node>, ghost k: nat)
      requires Backward(ns) && Distinct(ns) && k < |ns| && ns[k] == node && node.next == After(ns, k)
      modifies Ref(node.next)`prev
      ensures Backward(ns[..k] + ns[k + 1..])
    {
      if node.next != null { node.next.prev := node.prev; }
      ghost var rest := ns[..k] + ns[k + 1..];
      forall i | 0 <= i < |rest| ensures rest[i].prev == Before(rest, i) {
        if i < k { assert rest[i] == ns[i]; } else { assert rest[i] == ns[i + 1]; }
      }
    }

    /** `listIndex`: negative indexes count from the tail; out of range is null. */
    method Index(index: int) returns (n: Node?)
      requires Valid()
      ensures n == if 0 <= index < |nodes| then nodes[index] else if -|nodes| <= index < 0 then nodes[|nodes| + index] else null
    {
      if index < 0 {
        var i := -index - 1;
        n := tail;
        ghost var p := |nodes| - 1;
        while i > 0 && n != null
          invariant 0 <= i && p == |nodes| + index + i && -1 <= p < |nodes|
          invariant n == if p < 0 then null else nodes[p]
          decreases i
        {
          n := n.prev;
          i, p := i - 1, p - 1;
        }
      } else {
        var i := index;
        n := head;
        ghost var p := 0;
        while i > 0 && n != null
          invariant 0 <= i && p == index - i && 0 <= p <= |nodes|
          invariant n == if p < |nodes| then nodes[p] else null
          decreases i
        {
          n := n.next;
          i, p := i - 1, p + 1;
        }
      }
    }

    /** `listRotateTailToHead` */
    method RotateTailToHead()
      requires Valid()
      modifies this, nodes`prev, nodes`next
      ensures Valid()
      ensures nodes == if |old(nodes)| <= 1 then old(nodes) else [old(nodes)[|old(nodes)| - 1]] + old(nodes)[..|old(nodes)| - 1]
    {
      if len <= 1 { return; }
      var t := tail;
      ghost var n := |nodes|;
      assert t == nodes[n - 1] && t.prev == nodes[n - 2] && head == nodes[0];
      tail := t.prev;
      tail.next := null;
      head.prev := t;
      t.prev := null;
      t.next := head;
      head := t;
      ghost var ns := [t] + nodes[..|nodes| - 1];
      forall i | 0 <= i < |ns| ensures ns[i].prev == Before(ns, i) && ns[i].next == After(ns, i) {
        if i > 0 { assert ns[i] == nodes[i - 1]; }
      }
      nodes := [t] + nodes[..|nodes| - 1];
    }

    /** `listRotateHeadToTail` */
    method RotateHeadToTail()
      requires Valid()
      modifies this, nodes`prev, nodes`next
      ensures Valid()
      ensures nodes == if |old(nodes)| <= 1 then old(nodes) else old(nodes)[1..] + [old(nodes)[0]]
    {
      if len <= 1 { return; }
      var h := head;
      head := h.next;
      head.prev := null;
      tail.next := h;
      h.next := null;
      h.prev := tail;
      tail := h;
      ghost var ns := nodes[1..] + [h];
      forall i | 0 <= i < |ns| ensures ns[i].prev == Before(ns, i) && ns[i].next == After(ns, i) {
        if i < |ns| - 1 { assert ns[i] == nodes[i + 1]; }
      }
      nodes := nodes[1..] + [h];
    }

    /** The start of one chain pointed back at the end of another, and that end at the start. */
    static method BridgeBackward(last: Node?, first: Node, ghost a: seq<Node>, ghost b: seq<Node>)
      requires Backward(a) && Backward(b) && Distinct(a + b) && last == Last(a) && |b| > 0 && first == b[0]
      modifies b`prev
      ensures Backward(a + b)
    {
      ghost var ns := a + b;
      assert first == ns[|a|] && (|a| > 0 ==> last == ns[|a| - 1]);
      first.prev := last;
      forall i | 0 <= i < |ns| && i != |a| ensures ns[i].prev == Before(ns, i) {
        assert ns[i] != first;
        if i < |a| { assert a[i].prev == Before(a, i); } else { assert b[i - |a|].prev == Before(b, i - |a|); }
      }
    }

    static method BridgeForward(last: Node?, first: Node, ghost a: seq<Node>, ghost b: seq<Node>)
      requires Forward(a) && Forward(b) && Distinct(a + b) && last == Last(a) && |b| > 0 && first == b[0]
      modifies a`next
      ensures Forward(a + b)
    {
      ghost var ns := a + b;
      assert first == ns[|a|] && (|a| > 0 ==> last == ns[|a| - 1]);
      if last != null { last.next := first; }
      forall i | 0 <= i < |ns| && i != |a| - 1 ensures ns[i].next == After(ns, i) {
        assert ns[i] != last;
        if i < |a| { assert a[i].next == After(a, i); } else { assert b[i - |a|].next == After(b, i - |a|); }
      }
    }

    static method Bridge(last: Node?, first: Node, ghost a: seq<Node>, ghost b: seq<Node>)
      requires Linked(a) && Linked(b) && Distinct(a + b) && last == Last(a) && |b| > 0 && first == b[0]
      modifies a`next, b`prev
      ensures Linked(a + b)
    {
      hide Linked, Forward, Backward, Distinct;
      BothWays(a);
      BothWays(b);
      BridgeBackward(last, first, a, b);
      BridgeForward(last, first, a, b);
      BothWays(a + b);
    }

    /** `listJoin`: all nodes of `o` move to the end of this list. */
    method Join(o: List)
      requires Valid() && o.Valid() && o != this
      requires forall m | m in nodes :: m !in o.nodes
      modifies this, nodes`next, o, o.nodes`prev
      ensures Valid() && nodes == old(nodes) + old(o.nodes) && o.Valid() && o.nodes == []
    {
      hide Linked, Forward, Backward, Distinct;
      if o.len == 0 {
        assert o.nodes == [] && nodes + o.nodes == nodes;
        return;
      }
      EmptyChain();
      DistinctJoined(nodes, o.nodes);
      Bridge(tail, o.head, nodes, o.nodes);
      if tail == null { head := o.head; }
      tail := o.tail;
      len := len + o.len;
      nodes := nodes + o.nodes;
      o.head, o.tail, o.len, o.nodes := null, null, 0, [];
    }
  }

  // ------------------------------------------------------------------ iteration

  class Iter {
    var next: Node?
    var forward: bool

    /** `listRewind` and `listRewindTail` */
    constructor (list: List, forward: bool)
      ensures this.forward == forward && next == if forward then list.head else list.tail
    {
      this.forward := forward;
      next := if forward then list.head else list.tail;
    }

    /** `listNext` */
    method Next() returns (current: Node?)
      modifies this
      ensures current == old(next) && forward == old(forward)
      ensures next == if current == null then null else if forward then current.next else current.prev
    {
      current := next;
      if current != null { next := if forward then current.next else current.prev; }
    }
  }

  /** The nodes of `all`, up to position `v`, that were not chosen. */
  ghost function Unchosen(all: seq<Node>, chosen: seq<bool>, v: nat): (r: seq<Node>)
    requires v <= |all| <= |chosen|
    ensures |r| <= v
  {
    if v == 0 then [] else Unchosen(all, chosen, v - 1) + (if chosen[v - 1] then [] else [all[v - 1]])
  }

  /** The node at a position from the head, or from the tail; null behind the end. */
  function At(all: seq<Node>, v: nat): Node? { if v < |all| then all[v] else null }
  function AtBack(all: seq<Node>, v: nat): Node? { if v < |all| then all[|all| - 1 - v] else null }

  /** One node of the way from the head: deleted if it was chosen. */
  method VisitOne(list: List, ghost all: seq<Node>, chosen: seq<bool>, node: Node, v: nat)
    requires list.Valid() && v < |all| == |chosen| && node == all[v] && list.nodes == Remaining(all, chosen, v)
    modifies list, all
    ensures list.Valid() && list.nodes == Remaining(all, chosen, v + 1)
  {
    hide List.Valid, Unchosen, Remaining, Before, After;
    Visited(all, chosen, v);
    if chosen[v] {
      ghost var k := |Unchosen(all, chosen, v)|;
      RemainingIn(all, chosen, v);
      Neighbour(list, k);
      NeighboursIn(list.nodes, k);
      list.DelNode(node, k);
    }
  }

  /**
   Going through a list from the head while deleting any of the nodes just returned: every node is returned exactly
   once, in order, and the others stay.
   */
  method VisitAndDelete(list: List, chosen: seq<bool>) returns (ghost visited: seq<Node>)
    requires list.Valid() && |chosen| == |list.nodes|
    modifies list, list.nodes
    ensures list.Valid() && visited == old(list.nodes) && list.nodes == Unchosen(visited, chosen, |visited|)
  {
    hide List.Valid, Unchosen, Remaining;
    Starts(list);
    ghost var all := list.nodes;
    var iter := new Iter(list, true);
    visited := [];
    NothingVisited(all, chosen);
    var node := iter.Next();
    if node != null { NextRemaining(list, all, chosen, 0); }
    var v := 0;
    while node != null
      invariant 0 <= v <= |all| == |chosen| && visited == all[..v] && fresh(iter) && iter.forward
      invariant list.Valid() && list.nodes == Remaining(all, chosen, v)
      invariant node == At(all, v) && (node != null ==> iter.next == At(all, v + 1))
      decreases |all| - v
    {
      visited := visited + [node];
      VisitOne(list, all, chosen, node, v);
      v := v + 1;
      node := iter.Next();
      if node != null { NextRemaining(list, all, chosen, v); }
    }
    NothingLeft(all, chosen, v);
  }

  lemma NeighboursIn(nodes: seq<Node>, k: nat)
    requires k < |nodes|
    ensures Before(nodes, k) != null ==> Before(nodes, k) in nodes
    ensures After(nodes, k) != null ==> After(nodes, k) in nodes
  {
  }

  /** What a node of a valid list points to. */
  lemma Neighbour(list: List, k: nat)
    requires list.Valid() && k < |list.nodes|
    ensures list.nodes[k].next == After(list.nodes, k) && list.nodes[k].prev == Before(list.nodes, k)
  {
  }

  /** The list after `v` visits. */
  ghost function Remaining(all: seq<Node>, chosen: seq<bool>, v: nat): seq<Node>
    requires v <= |all| <= |chosen|
  {
    Unchosen(all, chosen, v) + all[v..]
  }

  lemma {:induction false} UnchosenIn(all: seq<Node>, chosen: seq<bool>, v: nat)
    requires v <= |all| <= |chosen|
    ensures forall m | m in Unchosen(all, chosen, v) :: m in all
  {
    if v > 0 { UnchosenIn(all, chosen, v - 1); }
  }

  lemma RemainingIn(all: seq<Node>, chosen: seq<bool>, v: nat)
    requires v <= |all| <= |chosen|
    ensures forall m | m in Remaining(all, chosen, v) :: m in all
  {
    UnchosenIn(all, chosen, v);
  }

  lemma NextRemaining(list: List, all: seq<Node>, chosen: seq<bool>, v: nat)
    requires v < |all| <= |chosen| && list.Valid() && list.nodes == Remaining(all, chosen, v)
    ensures all[v].next == At(all, v + 1)
  {
    hide Linked, Distinct, Unchosen;
    var k := |Unchosen(all, chosen, v)|;
    assert list.nodes[k] == all[v];
    Neighbour(list, k);
    if v + 1 < |all| { assert list.nodes[k + 1] == all[v + 1]; }
  }

  lemma NothingVisited(all: seq<Node>, chosen: seq<bool>)
    requires |all| == |chosen|
    ensures Remaining(all, chosen, 0) == all && all[0..] == all
  {
  }

  lemma NothingLeft(all: seq<Node>, chosen: seq<bool>, v: nat)
    requires v <= |all| == |chosen| && At(all, v) == null
    ensures v == |all| && all[..v] == all && Remaining(all, chosen, v) == Unchosen(all, chosen, v)
  {
  }

  /** One node visited: kept or deleted, the rest of the list is the rest of the nodes. */
  lemma Visited(all: seq<Node>, chosen: seq<bool>, v: nat)
    requires v < |all| == |chosen|
    ensures
      var ns, ns', k := Remaining(all, chosen, v), Remaining(all, chosen, v + 1), |Unchosen(all, chosen, v)|;
      && k < |ns| && ns[k] == all[v] && all[..v + 1] == all[..v] + [all[v]]
      && (if chosen[v] then ns[..k] + ns[k + 1..] == ns' else ns == ns')
  {
    UnchosenStep(all, chosen, v);
    hide Unchosen;
    var kept, rest := Unchosen(all, chosen, v), all[v + 1..];
    assert all[v..] == [all[v]] + rest && all[..v + 1] == all[..v] + [all[v]];
    assert kept + ([all[v]] + rest) == kept + [all[v]] + rest;
    assert (kept + [all[v]] + rest)[..|kept|] == kept && (kept + [all[v]] + rest)[|kept| + 1..] == rest;
    assert kept + [] == kept;
  }

  lemma UnchosenStep(all: seq<Node>, chosen: seq<bool>, v: nat)
    requires v < |all| <= |chosen|
    ensures Unchosen(all, chosen, v + 1) == Unchosen(all, chosen, v) + (if chosen[v] then [] else [all[v]])
  {
  }

  // ------------------------------------------------------------------ from the tail

  /** The nodes among the last `v` that were not chosen, in list order. */
  ghost function UnchosenBack(all: seq<Node>, chosen: seq<bool>, v: nat): seq<Node>
    requires v <= |all| <= |chosen|
  {
    if v == 0 then [] else (if chosen[v - 1] then [] else [all[|all| - v]]) + UnchosenBack(all, chosen, v - 1)
  }

  ghost function RemainingBack(all: seq<Node>, chosen: seq<bool>, v: nat): seq<Node>
    requires v <= |all| <= |chosen|
  {
    all[..|all| - v] + UnchosenBack(all, chosen, v)
  }

  lemma VisitedBack(all: seq<Node>, chosen: seq<bool>, v: nat)
    requires v < |all| == |chosen|
    ensures
      var ns, ns', k := RemainingBack(all, chosen, v), RemainingBack(all, chosen, v + 1), |all| - v - 1;
      && k < |ns| && ns[k] == all[k] && (if chosen[v] then ns[..k] + ns[k + 1..] == ns' else ns == ns')
  {
    var k, kept := |all| - v - 1, UnchosenBack(all, chosen, v);
    BackStep(all, chosen, v);
    hide UnchosenBack;
    assert all[..k + 1] == all[..k] + [all[k]];
    assert all[..k] + [all[k]] + kept == all[..k] + ([all[k]] + kept);
    assert [] + kept == kept;
  }

  lemma BackStep(all: seq<Node>, chosen: seq<bool>, v: nat)
    requires v < |all| <= |chosen|
    ensures UnchosenBack(all, chosen, v + 1) == (if chosen[v] then [] else [all[|all| - v - 1]]) + UnchosenBack(all, chosen, v)
  {
  }

  lemma PrevRemaining(list: List, all: seq<Node>, chosen: seq<bool>, v: nat)
    requires v < |all| <= |chosen| && list.Valid() && list.nodes == RemainingBack(all, chosen, v)
    ensures all[|all| - v - 1].prev == AtBack(all, v + 1)
    ensures all[|all| - v - 1].prev != null ==> all[|all| - v - 1].prev in all
  {
    hide Linked, Distinct, UnchosenBack;
    var k := |all| - v - 1;
    assert list.nodes[k] == all[k];
    Neighbour(list, k);
    if k > 0 { assert list.nodes[k - 1] == all[k - 1]; }
  }

  lemma {:induction false} UnchosenBackIn(all: seq<Node>, chosen: seq<bool>, v: nat)
    requires v <= |all| <= |chosen|
    ensures forall m | m in UnchosenBack(all, chosen, v) :: m in all
  {
    if v > 0 { UnchosenBackIn(all, chosen, v - 1); }
  }

  lemma NextBackIn(list: List, all: seq<Node>, chosen: seq<bool>, v: nat)
    requires v < |all| <= |chosen| && list.Valid() && list.nodes == RemainingBack(all, chosen, v)
    ensures var n := all[|all| - v - 1].next; n != null ==> n in all
  {
    hide Linked, Distinct, UnchosenBack;
    var k := |all| - v - 1;
    assert list.nodes[k] == all[k];
    Neighbour(list, k);
    UnchosenBackIn(all, chosen, v);
    NeighboursIn(list.nodes, k);
  }

  /** One node of the way from the tail. */
  method VisitOneBack(list: List, ghost all: seq<Node>, chosen: seq<bool>, node: Node, v: nat)
    requires list.Valid() && v < |all| == |chosen| && node == all[|all| - 1 - v] && list.nodes == RemainingBack(all, chosen, v)
    modifies list, all
    ensures list.Valid() && list.nodes == RemainingBack(all, chosen, v + 1)
  {
    hide List.Valid, UnchosenBack, RemainingBack, Before, After;
    VisitedBack(all, chosen, v);
    if chosen[v] {
      PrevRemaining(list, all, chosen, v);
      NextBackIn(list, all, chosen, v);
      list.DelNode(node, |all| - v - 1);
    }
  }

  /** The same from the tail: the nodes are returned in reverse order. */
  method VisitAndDeleteBackwards(list: List, chosen: seq<bool>) returns (ghost visited: seq<Node>)
    requires list.Valid() && |chosen| == |list.nodes|
    modifies list, list.nodes
    ensures Reversed(old(list.nodes), visited) && |visited| == |old(list.nodes)|
    ensures list.Valid() && list.nodes == UnchosenBack(old(list.nodes), chosen, |visited|)
  {
    hide List.Valid, UnchosenBack, RemainingBack, Reversed;
    Stops(list);
    ghost var all := list.nodes;
    var iter := new Iter(list, false);
    visited := [];
    NothingVisitedBack(all, chosen);
    NoneReversed(all);
    var node := iter.Next();
    if node != null { PrevRemaining(list, all, chosen, 0); }
    var v := 0;
    while node != null
      invariant 0 <= v <= |all| == |chosen| && fresh(iter) && !iter.forward
      invariant |visited| == v && Reversed(all, visited)
      invariant list.Valid() && list.nodes == RemainingBack(all, chosen, v)
      invariant node == AtBack(all, v) && (node != null ==> iter.next == AtBack(all, v + 1))
      decreases |all| - v
    {
      OneMoreBack(all, visited);
      visited := visited + [node];
      VisitOneBack(list, all, chosen, node, v);
      v := v + 1;
      node := iter.Next();
      if node != null { PrevRemaining(list, all, chosen, v); }
    }
    NothingLeftBack(all, chosen, v);
  }

  /** `visited` are the last nodes of `all`, the last one first. */
  ghost predicate Reversed(all: seq<Node>, visited: seq<Node>) {
    |visited| <= |all| && forall i | 0 <= i < |visited| :: visited[i] == all[|all| - 1 - i]
  }

  lemma NoneReversed(all: seq<Node>)
    ensures Reversed(all, [])
  {
  }

  lemma OneMoreBack(all: seq<Node>, visited: seq<Node>)
    requires Reversed(all, visited) && |visited| < |all|
    ensures Reversed(all, visited + [all[|all| - 1 - |visited|]])
  {
  }

  lemma NothingVisitedBack(all: seq<Node>, chosen: seq<bool>)
    requires |all| == |chosen|
    ensures RemainingBack(all, chosen, 0) == all && all[..|all|] == all
  {
  }

  lemma NothingLeftBack(all: seq<Node>, chosen: seq<bool>, v: nat)
    requires v <= |all| == |chosen| && AtBack(all, v) == null
    ensures v == |all| && RemainingBack(all, chosen, v) == UnchosenBack(all, chosen, v)
  {
  }

  // ------------------------------------------------------------------ copying and searching

  ghost function ValuesOf(nodes: seq<Node>): (vs: seq<Handle>)
    reads nodes
    ensures |vs| == |nodes| && forall i | 0 <= i < |vs| :: vs[i] == nodes[i].value
  {
    seq(|nodes|, i requires 0 <= i < |nodes| reads nodes => nodes[i].value)
  }

  /** The values duplicated in order, or none if one cannot be. */
  function DupAll(vs: seq<Handle>, dup: Handle -> Option<Handle>): Option<seq<Handle>> {
    if |vs| == 0 then Some([])
    else
      match DupAll(vs[..|vs| - 1], dup)
      case None => None
      case Some(r) => (match dup(vs[|vs| - 1]) case None => None case Some(x) => Some(r + [x]))
  }

  lemma DupNext(vs: seq<Handle>, dup: Handle -> Option<Handle>, v: nat)
    requires v < |vs| && DupAll(vs[..v], dup).Some?
    ensures DupAll(vs[..v + 1], dup) == match dup(vs[v]) case None => None case Some(x) => Some(DupAll(vs[..v], dup).value + [x])
  {
    assert vs[..v + 1][..v] == vs[..v];
  }

  lemma {:induction false} DupStops(vs: seq<Handle>, dup: Handle -> Option<Handle>, v: nat)
    requires v <= |vs| && DupAll(vs[..v], dup).None?
    ensures DupAll(vs, dup).None?
  {
    if v == |vs| {
      assert vs[..v] == vs;
    } else {
      assert vs[..|vs| - 1][..v] == vs[..v];
      DupStops(vs[..|vs| - 1], dup, v);
    }
  }

  /** One turn of the loop of `listDup`. */
  method CopyAndGoOn(orig: List, made: List, iter: Iter, value: Handle, ghost copied: seq<Handle>, ghost v: nat) returns (node: Node?)
    requires orig.Valid() && made.Valid() && made != orig && (made.tail != null ==> made.tail !in orig.nodes)
    requires HoldsAll(made.nodes, copied) && v < |orig.nodes| && iter.forward && iter.next == After(orig.nodes, v)
    modifies made, Ref(made.tail)`next, iter
    ensures orig.Valid() && orig.nodes == old(orig.nodes) && ValuesOf(orig.nodes) == old(ValuesOf(orig.nodes))
    ensures made.Valid() && HoldsAll(made.nodes, copied + [value]) && made.tail != null && fresh(made.tail)
    ensures iter.forward
    ensures if v + 1 < |orig.nodes| then node == orig.nodes[v + 1] && iter.next == After(orig.nodes, v + 1) else node == null
  {
    hide List.Valid, HoldsAll, After, ValuesOf;
    AfterIs(orig.nodes, v);
    ghost var vs := ValuesOf(orig.nodes);
    AppendCopy(made, value, copied);
    node := iter.Next();
    if node != null { Neighbour(orig, v + 1); }
    assert ValuesOf(orig.nodes) == vs;
  }

  /** `listDup`: the copy holds the duplicates in order; if one cannot be made there is no copy. */
  method Dup(orig: List, dup: Handle -> Option<Handle>) returns (copy: List?)
    requires orig.Valid()
    ensures copy == null <==> DupAll(ValuesOf(orig.nodes), dup).None?
    ensures copy != null ==> fresh(copy) && copy.Valid() && HoldsAll(copy.nodes, DupAll(ValuesOf(orig.nodes), dup).value)
  {
    hide List.Valid, DupAll, HoldsAll, After, ValuesOf;
    ghost var ns, vs := orig.nodes, ValuesOf(orig.nodes);
    var made := new List();
    var iter := new Iter(orig, true);
    var node := iter.Next();
    Starts(orig);
    ghost var v, copied := 0, [];
    NoDups(vs, dup);
    HoldsNothing();
    while node != null
      invariant 0 <= v <= |ns| && fresh(iter) && iter.forward && orig.Valid() && orig.nodes == ns
      invariant fresh(made) && made.Valid() && (made.tail != null ==> fresh(made.tail))
      invariant ValuesOf(ns) == vs && DupAll(vs[..v], dup) == Some(copied) && HoldsAll(made.nodes, copied)
      invariant if v < |ns| then node == ns[v] && iter.next == After(ns, v) else node == null
      decreases |ns| - v
    {
      var value := dup(node.value);
      ValueAt(ns, v);
      DupNext(vs, dup, v);
      if value.None? {
        DupStops(vs, dup, v + 1);
        return null;
      }
      node := CopyAndGoOn(orig, made, iter, value.value, copied, v);
      copied := copied + [value.value];
      v := v + 1;
    }
    assert vs[..|vs|] == vs;
    copy := made;
  }

  lemma ValueAt(nodes: seq<Node>, v: nat)
    requires v < |nodes|
    ensures |ValuesOf(nodes)| == |nodes| && ValuesOf(nodes)[v] == nodes[v].value
  {
  }

  lemma Stops(list: List)
    requires list.Valid()
    ensures list.tail == Last(list.nodes)
  {
  }

  lemma Starts(list: List)
    requires list.Valid()
    ensures list.head == First(list.nodes) && (list.head != null ==> list.head.next == After(list.nodes, 0))
  {
  }

  ghost predicate HoldsAll(nodes: seq<Node>, vs: seq<Handle>)
    reads nodes
  {
    |vs| == |nodes| && forall i | 0 <= i < |vs| :: nodes[i].value == vs[i]
  }

  lemma HoldsNothing()
    ensures HoldsAll([], [])
  {
  }

  method AppendCopy(made: List, value: Handle, ghost vs: seq<Handle>)
    requires made.Valid() && HoldsAll(made.nodes, vs)
    modifies made, Ref(made.tail)`next
    ensures made.Valid() && HoldsAll(made.nodes, vs + [value]) && made.tail != null && fresh(made.tail)
  {
    hide Linked, Distinct;
    var node := made.AddNodeTail(value);
  }

  lemma AfterIs(nodes: seq<Node>, v: nat)
    requires v < |nodes|
    ensures After(nodes, v) == if v + 1 < |nodes| then nodes[v + 1] else null
  {
  }

  lemma NoDups(vs: seq<Handle>, dup: Handle -> Option<Handle>)
    ensures DupAll(vs[..0], dup) == Some([])
  {
  }

  /** Position `k` matches and none before it does. */
  ghost predicate FirstMatch(nodes: seq<Node>, matches: Handle -> bool, k: nat)
    reads nodes
  {
    k < |nodes| && matches(nodes[k].value) && forall i | 0 <= i < k :: !matches(nodes[i].value)
  }

  /** `listSearchKey`: the first node from the head that matches. */
  method SearchKey(list: List, matches: Handle -> bool) returns (found: Node?)
    requires list.Valid()
    ensures found == null ==> forall i | 0 <= i < |list.nodes| :: !matches(list.nodes[i].value)
    ensures found != null ==> exists k | 0 <= k < |list.nodes| :: found == list.nodes[k] && FirstMatch(list.nodes, matches, k)
  {
    hide Linked, Distinct;
    var iter := new Iter(list, true);
    var node := iter.Next();
    if node != null { Neighbour(list, 0); }
    ghost var v := 0;
    while node != null
      invariant 0 <= v <= |list.nodes| && list.Valid() && fresh(iter) && iter.forward
      invariant forall i | 0 <= i < v :: !matches(list.nodes[i].value)
      invariant if v < |list.nodes| then node == list.nodes[v] && iter.next == After(list.nodes, v) else node == null
      decreases |list.nodes| - v
    {
      if matches(node.value) {
        assert FirstMatch(list.nodes, matches, v);
        return node;
      }
      v := v + 1;
      node := iter.Next();
      if node != null { Neighbour(list, v); }
    }
    found := null;
  }
}
