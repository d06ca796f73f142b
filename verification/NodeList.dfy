/** The list of mobile nodes of `channel.cc`, doubly linked and sorted by X. */
module NodeList {
  import opened Ordering
  import opened Geometry
  import opened Options

  /** `MobileNode`: its position and its links. */
  class MobileNode {
    var x: real
    var y: real
    var z: real
    var nextX: MobileNode?
    var prevX: MobileNode?

    function Here(): Position
      reads this
    {
      Position(x, y, z)
    }
  }

  function At(ns: seq<MobileNode>, i: int): MobileNode? { if 0 <= i < |ns| then ns[i] else null }

  ghost predicate Distinct(ns: seq<MobileNode>) { forall i, j :: 0 <= i < j < |ns| ==> ns[i] != ns[j] }

  /** The links of node `i` lead to its neighbours. */
  ghost predicate LinkedAt(ns: seq<MobileNode>, i: nat)
    requires i < |ns|
    reads ns`nextX, ns`prevX
  {
    ns[i].nextX == At(ns, i + 1) && ns[i].prevX == At(ns, i - 1)
  }

  ghost predicate Linked(ns: seq<MobileNode>)
    reads ns`nextX, ns`prevX
  {
    Distinct(ns) && forall i :: 0 <= i < |ns| ==> LinkedAt(ns, i)
  }

  /** The set holds exactly the nodes of the list. */
  ghost predicate Covers(members: set<MobileNode>, ns: seq<MobileNode>) {
    (forall i :: 0 <= i < |ns| ==> ns[i] in members) && forall n :: n in members ==> n in ns
  }

  lemma CoversAt(members: set<MobileNode>, ns: seq<MobileNode>, i: nat)
    requires Covers(members, ns) && i < |ns|
    ensures ns[i] in members
  {
  }

  lemma CoversNone(members: set<MobileNode>, ns: seq<MobileNode>)
    requires Covers(members, ns)
    ensures ns == [] ==> members == {}
  {
  }

  lemma CoversWhere(members: set<MobileNode>, ns: seq<MobileNode>, mn: MobileNode) returns (k: nat)
    requires Covers(members, ns) && mn in members
    ensures k < |ns| && ns[k] == mn
  {
    k :| k < |ns| && ns[k] == mn;
  }

  lemma CoversMore(members: set<MobileNode>, ns: seq<MobileNode>, mn: MobileNode)
    requires Covers(members, ns)
    ensures Covers(members + {mn}, ns + [mn])
  {
  }

  lemma CoversSwapped(members: set<MobileNode>, ns: seq<MobileNode>, k: nat)
    requires Covers(members, ns) && k + 1 < |ns|
    ensures Covers(members, Swapped(ns, k))
  {
    SwappedContents(ns, k);
    var t := Swapped(ns, k);
    forall n | n in members ensures n in t { assert n in multiset(ns); }
  }

  lemma CoversWithout(members: set<MobileNode>, ns: seq<MobileNode>, k: nat)
    requires Covers(members, ns) && Distinct(ns) && k < |ns|
    ensures Covers(members - {ns[k]}, ns[..k] + ns[k + 1..])
  {
    var t := ns[..k] + ns[k + 1..];
    forall n | n in members - {ns[k]} ensures n in t {
      var i :| 0 <= i < |ns| && ns[i] == n;
      assert t[if i < k then i else i - 1] == n;
    }
    forall i | 0 <= i < |t| ensures t[i] in members - {ns[k]} {
      assert t[i] == ns[if i < k then i else i + 1];
    }
  }

  ghost function Xs(ns: seq<MobileNode>): (xs: seq<real>)
    reads ns`x
    ensures |xs| == |ns| && forall i :: 0 <= i < |ns| ==> xs[i] == ns[i].x
  {
    if ns == [] then [] else [ns[0].x] + Xs(ns[1..])
  }

  /** `WirelessChannel`: the nodes in list order are those the links lead through. */
  class Channel {
    var xListHead: MobileNode?
    var numNodes: nat
    var sorted: bool
    ghost var nodes: seq<MobileNode>
    ghost var members: set<MobileNode>

    ghost predicate Valid()
      reads this, members`nextX, members`prevX
    {
      && Covers(members, nodes)
      && xListHead == At(nodes, 0) && numNodes == |nodes| && Linked(nodes)
    }

    constructor ()
      ensures Valid() && nodes == [] && members == {}
    {
      xListHead, numNodes, sorted, nodes, members := null, 0, false, [], {};
    }

    /** `addNodeToList`: at the end of the list. */
    method Add(mn: MobileNode)
      requires Valid() && mn !in members
      modifies this, mn, members
      ensures Valid() && nodes == old(nodes) + [mn]
      ensures forall n :: n in members ==> n.x == old(n.x) && n.y == old(n.y) && n.z == old(n.z)
    {
      CoversMore(members, nodes, mn);
      forall i | 0 <= i < |nodes| ensures nodes[i] in members { CoversAt(members, nodes, i); }
      hide Covers;
      if xListHead == null {
        xListHead := mn;
        mn.nextX := null;
        mn.prevX := null;
      } else {
        var tmp := xListHead;
        ghost var k := 0;
        while tmp.nextX != null
          invariant 0 <= k < |nodes| && tmp == nodes[k]
          decreases |nodes| - k
        {
          assert LinkedAt(nodes, k);
          tmp := tmp.nextX;
          k := k + 1;
        }
        assert LinkedAt(nodes, k);
        tmp.nextX := mn;
        mn.prevX := tmp;
        mn.nextX := null;
      }
      numNodes := numNodes + 1;
      nodes, members := nodes + [mn], members + {mn};
      forall i | 0 <= i < |nodes| ensures LinkedAt(nodes, i) {
        if i < |old(nodes)| { assert old(LinkedAt(nodes, i)); }
      }
    }

    /**
     `removeNodeFromList`. The search stops before the last node, so the node goes
     exactly when it is in the list but not its last.
     */
    method Remove(mn: MobileNode) returns (removed: bool)
      requires Valid() && nodes != []
      modifies this, members
      ensures Valid() && removed == (mn in old(nodes)[..|old(nodes)| - 1])
      ensures if !removed then nodes == old(nodes)
              else exists k :: 0 <= k < |old(nodes)| && old(nodes)[k] == mn
                               && nodes == old(nodes)[..k] + old(nodes)[k + 1..]
    {
      var tmp := xListHead;
      ghost var k := 0;
      while tmp.nextX != null
        invariant 0 <= k < |nodes| && tmp == nodes[k] && mn !in nodes[..k]
        invariant nodes == old(nodes) && members == old(members) && Valid()
        invariant forall n :: n in members ==> n.nextX == old(n.nextX) && n.prevX == old(n.prevX)
        decreases |nodes| - k
      {
        assert LinkedAt(nodes, k);
        if tmp == mn {
          Unlink(tmp, k);
          return true;
        }
        tmp := tmp.nextX;
        k := k + 1;
      }
      assert LinkedAt(nodes, k);
      return false;
    }

    /** Takes node `k` out of the list, which has a node after it. */
    method Unlink(tmp: MobileNode, ghost k: nat)
      requires Valid() && k + 1 < |nodes| && tmp == nodes[k]
      modifies this, members
      ensures Valid() && nodes == old(nodes)[..k] + old(nodes)[k + 1..]
    {
      hide Covers;
      CoversWithout(members, nodes, k);
      CoversAt(members, nodes, k);
      CoversAt(members, nodes, k + 1);
      if 0 < k { CoversAt(members, nodes, k - 1); }
      assert LinkedAt(nodes, k) && LinkedAt(nodes, k + 1);
      if tmp == xListHead {
        xListHead := tmp.nextX;
        tmp.nextX.prevX := null;
      } else {
        assert LinkedAt(nodes, k - 1);
        tmp.prevX.nextX := tmp.nextX;
        tmp.nextX.prevX := tmp.prevX;
      }
      numNodes := numNodes - 1;
      ghost var ns := nodes;
      nodes, members := nodes[..k] + nodes[k + 1..], members - {tmp};
      forall i | 0 <= i < |nodes| ensures LinkedAt(nodes, i) {
        assert old(LinkedAt(ns, if i < k then i else i + 1));
      }
    }

    /** The statements of `sortLists` that put the node after `m` before it. */
    method Relink(m: MobileNode, q: MobileNode)
      requires q == m.nextX && q != m && m in members && q in members
      requires q.nextX != null ==> q.nextX in members - {m, q}
      requires m.prevX != null ==> m.prevX in members - {m, q}
      modifies this`xListHead, members`nextX, members`prevX
      ensures xListHead == if m == old(xListHead) then q else old(xListHead)
      ensures forall n :: n in members ==>
        n.nextX == if n == m then old(q.nextX) else if n == q then m else if n == old(m.prevX) then q else old(n.nextX)
      ensures forall n :: n in members ==>
        n.prevX == if n == m then q else if n == q then old(m.prevX) else if n == old(q.nextX) then m else old(n.prevX)
    {
      m.nextX := q.nextX;
      if q.nextX != null { q.nextX.prevX := m; }
      q.nextX := m;
      q.prevX := m.prevX;
      m.prevX := q;
      if q.prevX != null { q.prevX.nextX := q; }
      if m == xListHead { xListHead := m.prevX; }
    }

    /** Swaps node `k` with the next, which `sortLists` does when they are out of order. */
    method SwapNext(m: MobileNode, ghost k: nat)
      requires Valid() && k + 1 < |nodes| && m == nodes[k]
      modifies this`nodes, this`xListHead, members`nextX, members`prevX
      ensures Valid() && nodes == Swapped(old(nodes), k)
    {
      hide Covers;
      ghost var ns := nodes;
      CoversSwapped(members, ns, k);
      forall i | 0 <= i < |ns| ensures ns[i] in members { CoversAt(members, ns, i); }
      assert LinkedAt(ns, k) && LinkedAt(ns, k + 1);
      Relink(m, m.nextX);
      nodes := Swapped(ns, k);
      forall i | 0 <= i < |nodes| ensures LinkedAt(nodes, i) {
        var j := if i == k then k + 1 else if i == k + 1 then k else i;
        assert nodes[i] == ns[j] && old(LinkedAt(ns, j)) && ns[j] in members;
      }
    }

    /** The same nodes, in any order. */
    twostate predicate Permuted()
      reads this
    {
      multiset(nodes) == multiset(old(nodes))
    }

    /** A swap of two nodes out of order takes away one inversion. */
    method SwapStep(m: MobileNode, ghost k: nat)
      requires Valid() && k + 1 < |nodes| && m == nodes[k] && nodes[k + 1].x < m.x
      modifies this`nodes, this`xListHead, members`nextX, members`prevX
      ensures Valid() && Permuted() && |nodes| == |old(nodes)| && nodes[k + 1] == m
      ensures Inversions(Xs(nodes)) == Inversions(old(Xs(nodes))) - 1
    {
      hide Inversions, Covers, Linked;
      ghost var ns := nodes;
      SwapNext(m, k);
      XsSwapped(ns, k);
      InversionsSwapped(Xs(ns), k);
      SwappedContents(ns, k);
    }

    /**
     One pass of `sortLists`, which moves on by two nodes after a swap. It either takes away
     inversions or finds the list sorted.
     */
    method Pass() returns (flag: bool)
      requires Valid()
      modifies this`nodes, this`xListHead, members`nextX, members`prevX
      ensures Valid() && Permuted()
      ensures if flag then Inversions(Xs(nodes)) < Inversions(old(Xs(nodes)))
              else nodes == old(nodes) && Ascending(Xs(nodes))
    {
      hide Inversions, Ascending, Covers, Distinct, Xs;
      flag := false;
      var m := xListHead;
      ghost var k := 0;
      while m != null
        invariant 0 <= k <= |nodes| && m == At(nodes, k) && Valid() && Permuted()
        invariant flag ==> Inversions(Xs(nodes)) < Inversions(old(Xs(nodes)))
        invariant !flag ==> nodes == old(nodes)
        invariant !flag ==> forall i :: 0 <= i < k && i + 1 < |nodes| ==> Xs(nodes)[i] <= Xs(nodes)[i + 1]
        decreases |nodes| - k
      {
        assert LinkedAt(nodes, k);
        if m.nextX != null {
          if m.nextX.x < m.x {
            SwapStep(m, k);
            flag := true;
            k := k + 1;
            assert LinkedAt(nodes, k);
          }
        }
        m := m.nextX;
        k := k + 1;
      }
      if !flag {
        NeighboursAscend(Xs(nodes), |nodes|);
        assert Xs(nodes)[..|nodes|] == Xs(nodes);
      }
    }

    /** `sortLists`: passes until one finds nothing to swap. */
    method SortLists()
      requires Valid()
      modifies this`nodes, this`xListHead, this`sorted, members`nextX, members`prevX
      ensures Valid() && Permuted() && Ascending(Xs(nodes)) && sorted
    {
      hide Inversions, Ascending, Covers, Linked, Xs;
      var flag := true;
      sorted := true;
      while flag
        invariant Valid() && Permuted() && sorted && (!flag ==> Ascending(Xs(nodes)))
        decreases Inversions(Xs(nodes)), flag
      {
        flag := Pass();
      }
    }

    /** `isListSorted`; an empty list is not. */
    method IsListSorted() returns (b: bool)
      requires Valid()
      ensures b == (nodes != [] && Ascending(Xs(nodes)))
    {
      hide Ascending, Covers, Distinct, Xs;
      if xListHead == null { return false; }
      var mn := xListHead;
      ghost var k := 0;
      while mn != null
        invariant 0 <= k <= |nodes| && mn == At(nodes, k)
        invariant forall i :: 0 <= i < k && i + 1 < |nodes| ==> Xs(nodes)[i] <= Xs(nodes)[i + 1]
        decreases |nodes| - k
      {
        assert LinkedAt(nodes, k);
        if mn.nextX != null && mn.nextX.x < mn.x {
          NotAscending(Xs(nodes), k);
          return false;
        }
        mn := mn.nextX;
        k := k + 1;
      }
      NeighboursAscend(Xs(nodes), |nodes|);
      assert Xs(nodes)[..|nodes|] == Xs(nodes);
      return true;
    }

    /**
     `updateNodesList`, after a node of the list has moved. If the list is found sorted, the
     node is between its neighbours, so the statements that would relink it are never reached.
     */
    method UpdateNodesList(mn: MobileNode)
      requires Valid() && mn in members
      modifies this`nodes, this`xListHead, this`sorted, members`nextX, members`prevX
      ensures Valid() && Permuted() && Ascending(Xs(nodes))
      ensures old(Ascending(Xs(nodes))) ==> nodes == old(nodes)
    {
      hide Ascending, Xs, Distinct, Covers;
      ghost var k := CoversWhere(members, nodes, mn);
      var ok := IsListSorted();
      if !ok {
        SortLists();
        return;
      }
      var skip := false;
      assert LinkedAt(nodes, k);
      NeighboursInOrder(nodes, k);
      if mn.nextX != null {
        if mn.prevX != null {
          if mn.x <= mn.nextX.x && mn.prevX.x <= mn.x { skip := true; } else { assert false; }
        } else {
          if mn.x <= mn.nextX.x { skip := true; } else { assert false; }
        }
      } else if mn.prevX != null {
        if mn.prevX.x <= mn.x { skip := true; } else { assert false; }
      }
      if mn.prevX == null && mn.nextX == null { skip := true; }
      assert skip;
    }

    /** The nodes in list order. */
    method Collect() returns (list: seq<MobileNode>)
      requires Valid()
      ensures list == nodes
    {
      hide Covers, Distinct;
      list := [];
      var tmp := xListHead;
      while tmp != null
        invariant |list| <= |nodes| && list == nodes[..|list|] && tmp == At(nodes, |list|)
        decreases |nodes| - |list|
      {
        assert LinkedAt(nodes, |list|);
        list := list + [tmp];
        tmp := tmp.nextX;
      }
    }

    /** `update_position` for every node, whose new positions come from outside. */
    method MoveAll(list: seq<MobileNode>, moved: map<MobileNode, Position>)
      requires Valid() && list == nodes && forall n :: n in members ==> n in moved
      modifies members`x, members`y, members`z
      ensures Valid() && forall n :: n in members ==> n.Here() == moved[n]
    {
      forall i | 0 <= i < |nodes| ensures nodes[i] in members { CoversAt(members, nodes, i); }
      assert forall n :: n in members ==> n in nodes;
      hide Covers, LinkedAt;
      for k := 0 to |list|
        invariant Valid() && forall i :: 0 <= i < k ==> nodes[i].Here() == moved[nodes[i]]
      {
        list[k].x := moved[list[k]].x;
        list[k].y := moved[list[k]].y;
        list[k].z := moved[list[k]].z;
      }
    }

    /** The search leftwards from node `k`, itself included. */
    method SearchLeft(mn: MobileNode, ghost k: nat, was: Position, radius: real) returns (r: seq<MobileNode>)
      requires Valid() && Ascending(Xs(nodes)) && k < |nodes| && nodes[k] == mn
      ensures Distinct(r)
      ensures forall n :: n in r <==> n in nodes[..k + 1] && Returned(was, mn.Here(), true, n.Here(), radius)
    {
      hide Covers, Xs, Within;
      r := [];
      var tmp: MobileNode? := mn;
      ghost var j := k;
      while tmp != null && was.x - radius <= tmp.x
        invariant -1 <= j <= k && tmp == At(nodes, j) && Distinct(r)
        invariant forall n :: n in r <==> n in nodes[j + 1..k + 1] && Returned(was, mn.Here(), true, n.Here(), radius)
        decreases j + 1
      {
        assert LinkedAt(nodes, j);
        assert nodes[j..k + 1] == [nodes[j]] + nodes[j + 1..k + 1];
        if was.y - radius <= tmp.y <= was.y + radius {
          if Within(tmp.Here(), mn.Here(), radius) { r := r + [tmp]; }
        }
        tmp := tmp.prevX;
        j := j - 1;
      }
      assert nodes[..k + 1] == nodes[..j + 1] + nodes[j + 1..k + 1];
      forall n | n in nodes[..j + 1] ensures n.x < was.x - radius {
        var i :| 0 <= i <= j && nodes[i] == n;
        assert i < j ==> Xs(nodes)[i] <= Xs(nodes)[j];
      }
    }

    /** The search rightwards from the node after node `k`. */
    method SearchRight(mn: MobileNode, ghost k: nat, was: Position, radius: real) returns (r: seq<MobileNode>)
      requires Valid() && Ascending(Xs(nodes)) && k < |nodes| && nodes[k] == mn
      ensures Distinct(r)
      ensures forall n :: n in r <==> n in nodes[k + 1..] && Returned(was, mn.Here(), false, n.Here(), radius)
    {
      hide Covers, Xs, Within;
      r := [];
      assert LinkedAt(nodes, k);
      var tmp := mn.nextX;
      ghost var j := k + 1;
      while tmp != null && tmp.x <= was.x + radius
        invariant k < j <= |nodes| && tmp == At(nodes, j) && Distinct(r)
        invariant forall n :: n in r <==> n in nodes[k + 1..j] && Returned(was, mn.Here(), false, n.Here(), radius)
        decreases |nodes| - j
      {
        assert LinkedAt(nodes, j);
        assert nodes[k + 1..j + 1] == nodes[k + 1..j] + [nodes[j]];
        if was.y - radius <= tmp.y <= was.y + radius {
          if Within(tmp.Here(), mn.Here(), radius) { r := r + [tmp]; }
        }
        tmp := tmp.nextX;
        j := j + 1;
      }
      assert nodes[k + 1..] == nodes[k + 1..j] + nodes[j..];
      forall n | n in nodes[j..] ensures was.x + radius < n.x {
        var i :| j <= i < |nodes| && nodes[i] == n;
        assert j < i ==> Xs(nodes)[j] <= Xs(nodes)[i];
      }
    }

    /**
     `getAffectedNodes`. The window is laid around the position `mn` had before all nodes moved.
     The answer has each node once. It is what a scan of all nodes would give if `mn` has not moved
     in the plane.
     */
    method GetAffectedNodes(mn: MobileNode, radius: real, moved: map<MobileNode, Position>)
      returns (r: Option<seq<MobileNode>>)
      requires Valid() && (nodes != [] ==> mn in members) && forall n :: n in members ==> n in moved
      modifies this`nodes, this`xListHead, this`sorted, members
      ensures Valid() && Permuted() && (r == None <==> nodes == [])
      ensures forall n :: n in members ==> n.Here() == moved[n]
      ensures r.Some? ==> Ascending(Xs(nodes)) && Distinct(r.value) && |r.value| <= numNodes
      ensures r.Some? ==> exists k :: 0 <= k < |nodes| && nodes[k] == mn && forall i :: 0 <= i < |nodes| ==>
        (nodes[i] in r.value <==> Returned(old(mn.Here()), mn.Here(), i <= k, nodes[i].Here(), radius))
      ensures r.Some? && old(mn.x) == mn.x && old(mn.y) == mn.y ==>
        forall n :: n in r.value <==> n in nodes && Within(n.Here(), mn.Here(), radius)
    {
      hide Ascending, Covers, Linked, Xs, Returned, Within, Distinct;
      CoversNone(members, nodes);
      if xListHead == null { return None; }
      var was := mn.Here();
      var list := Collect();
      MoveAll(list, moved);
      Settle();
      var answer;
      ghost var k;
      answer, k := Search(mn, was, radius);
      r := Some(answer);
      if was.x == mn.x && was.y == mn.y { AsScan(nodes, k, answer, was, radius); }
    }

    /** Sorts until the list is sorted. */
    method Settle()
      requires Valid() && nodes != []
      modifies this`nodes, this`xListHead, this`sorted, members`nextX, members`prevX
      ensures Valid() && Permuted() && Ascending(Xs(nodes))
    {
      hide Ascending, Covers, Linked, Xs;
      var ok := IsListSorted();
      while !ok
        invariant Valid() && Permuted() && ok == Ascending(Xs(nodes)) && nodes != []
        decreases !ok
      {
        SortLists();
        ok := IsListSorted();
      }
    }

    /** Both searches, for a node of the list. */
    method Search(mn: MobileNode, was: Position, radius: real) returns (r: seq<MobileNode>, ghost k: nat)
      requires Valid() && Ascending(Xs(nodes)) && mn in members
      ensures Distinct(r) && |r| <= |nodes| && (forall n :: n in r ==> n in nodes) && k < |nodes| && nodes[k] == mn
      ensures forall i :: 0 <= i < |nodes| ==>
        (nodes[i] in r <==> Returned(was, mn.Here(), i <= k, nodes[i].Here(), radius))
    {
      hide Ascending, LinkedAt, Xs, Returned, Distinct;
      k :| 0 <= k < |nodes| && nodes[k] == mn;
      var left := SearchLeft(mn, k, was, radius);
      var right := SearchRight(mn, k, was, radius);
      r := left + right;
      BothSides(nodes, k, left, right, was, radius);
    }
  }

  /** A node is in one part of the list, going by its place. */
  lemma SideOf(ns: seq<MobileNode>, k: nat, i: nat)
    requires Distinct(ns) && k < |ns| && i < |ns|
    ensures ns[i] in ns[..k + 1] <==> i <= k
    ensures ns[i] in ns[k + 1..] <==> k < i
  {
    if i <= k { assert ns[i] == ns[..k + 1][i]; } else { assert ns[i] == ns[k + 1..][i - k - 1]; }
  }

  lemma PartsDistinct(ns: seq<MobileNode>, k: nat, left: seq<MobileNode>, right: seq<MobileNode>)
    requires Distinct(ns) && k < |ns| && Distinct(left) && Distinct(right)
    requires (forall n :: n in left ==> n in ns[..k + 1]) && (forall n :: n in right ==> n in ns[k + 1..])
    ensures Distinct(left + right)
  {
    forall i, j | 0 <= i < |left| && 0 <= j < |right| ensures left[i] != right[j] {
      assert left[i] in left && right[j] in right;
      var p :| 0 <= p < k + 1 && ns[p] == left[i];
      SideOf(ns, k, p);
    }
  }

  lemma {:induction false} NoLonger(r: seq<MobileNode>, ns: seq<MobileNode>)
    requires Distinct(r) && forall n :: n in r ==> n in ns
    ensures |r| <= |ns|
  {
    if r != [] {
      var last := r[|r| - 1];
      assert last in r;
      var i :| 0 <= i < |ns| && ns[i] == last;
      var rest := ns[..i] + ns[i + 1..];
      forall n | n in r[..|r| - 1] ensures n in rest {
        var j :| 0 <= j < |r| - 1 && r[j] == n;
        assert n in r && n != last;
        var m :| 0 <= m < |ns| && ns[m] == n;
        assert rest[if m < i then m else m - 1] == n;
      }
      NoLonger(r[..|r| - 1], rest);
    }
  }

  lemma BothSides(ns: seq<MobileNode>, k: nat, left: seq<MobileNode>, right: seq<MobileNode>, was: Position,
                  radius: real)
    requires k < |ns| && Distinct(ns) && Distinct(left) && Distinct(right)
    requires forall n :: n in left <==> n in ns[..k + 1] && Returned(was, ns[k].Here(), true, n.Here(), radius)
    requires forall n :: n in right <==> n in ns[k + 1..] && Returned(was, ns[k].Here(), false, n.Here(), radius)
    ensures Distinct(left + right) && |left + right| <= |ns|
    ensures forall n :: n in left + right ==> n in ns
    ensures forall i :: 0 <= i < |ns| ==>
      (ns[i] in left + right <==> Returned(was, ns[k].Here(), i <= k, ns[i].Here(), radius))
  {
    hide Returned, Distinct;
    assert ns == ns[..k + 1] + ns[k + 1..];
    PartsDistinct(ns, k, left, right);
    NoLonger(left + right, ns);
    forall i | 0 <= i < |ns|
      ensures ns[i] in left + right <==> Returned(was, ns[k].Here(), i <= k, ns[i].Here(), radius)
    {
      SideOf(ns, k, i);
    }
  }

  /** Around a node that has kept its place the search is as good as a scan. */
  lemma AsScan(ns: seq<MobileNode>, k: nat, r: seq<MobileNode>, was: Position, radius: real)
    requires k < |ns| && Ascending(Xs(ns)) && was.x == ns[k].x && was.y == ns[k].y
    requires forall n :: n in r ==> n in ns
    requires forall i :: 0 <= i < |ns| ==> (ns[i] in r <==> Returned(was, ns[k].Here(), i <= k, ns[i].Here(), radius))
    ensures forall n :: n in r <==> n in ns && Within(n.Here(), ns[k].Here(), radius)
  {
    hide Within, Xs;
    forall i | 0 <= i < |ns| ensures ns[i] in r <==> Within(ns[i].Here(), ns[k].Here(), radius) {
      if Within(ns[i].Here(), ns[k].Here(), radius) { InSquare(ns[i].Here(), ns[k].Here(), radius); }
    }
  }

  lemma NeighboursInOrder(ns: seq<MobileNode>, k: nat)
    requires k < |ns| && Ascending(Xs(ns))
    ensures k + 1 < |ns| ==> ns[k].x <= ns[k + 1].x
    ensures 0 < k ==> ns[k - 1].x <= ns[k].x
  {
    hide Xs;
    assert k + 1 < |ns| ==> Xs(ns)[k] <= Xs(ns)[k + 1];
    assert 0 < k ==> Xs(ns)[k - 1] <= Xs(ns)[k];
  }

  lemma NotAscending(s: seq<real>, k: nat)
    requires k + 1 < |s| && s[k + 1] < s[k]
    ensures !Ascending(s)
  {
  }

  lemma XsSwapped(ns: seq<MobileNode>, k: nat)
    requires k + 1 < |ns|
    ensures Xs(Swapped(ns, k)) == Swapped(Xs(ns), k)
  {
    hide Xs;
    var a, b := Xs(Swapped(ns, k)), Swapped(Xs(ns), k);
    forall i | 0 <= i < |ns| ensures a[i] == b[i] { assert a[i] == Swapped(ns, k)[i].x; }
  }
}
