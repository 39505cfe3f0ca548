/** A parent graph on the nodes 0, 1, ... : each node has at most one parent, and nothing rules out
    cycles.  From the nodes without a parent downwards it is a forest; this module says which nodes
    that forest holds. */
module ParentForest {
  import opened Sequences

  type Parents = seq<Option<nat>>

  datatype Tree = Tree(node: nat, children: seq<Tree>)

  predicate Valid(up: Parents) {
    forall i :: 0 <= i < |up| && up[i].Some? ==> up[i].value < |up|
  }

  /** The `k`-th ancestor, if the chain of parents is that long. */
  function Ancestor(up: Parents, i: nat, k: nat): (r: Option<nat>)
    requires Valid(up) && i < |up|
    ensures r.Some? ==> r.value < |up|
  {
    if k == 0 then Some(i)
    else
      var below := Ancestor(up, i, k - 1);
      if below.None? then None else up[below.value]
  }

  /** The chain of parents of `i` ends after `d` steps. */
  ghost predicate HasDepth(up: Parents, i: nat, d: nat)
    requires Valid(up) && i < |up|
  {
    Ancestor(up, i, d).Some? && up[Ancestor(up, i, d).value].None?
  }

  ghost predicate Rooted(up: Parents, i: nat)
    requires Valid(up) && i < |up|
  {
    exists d :: HasDepth(up, i, d)
  }

  /** The chain of parents of `i` runs into a cycle. */
  ghost predicate ReachesCycle(up: Parents, i: nat)
    requires Valid(up) && i < |up|
  {
    exists a: nat, b: nat :: a < b && Ancestor(up, i, a).Some? && Ancestor(up, i, a) == Ancestor(up, i, b)
  }

  /** The first `n` nodes whose parent entry is `p`, in order: the children of a node, or with
      `None` the roots. */
  function Under(up: Parents, p: Option<nat>, n: nat): (r: seq<nat>)
    requires n <= |up|
  {
    if n == 0 then [] else Under(up, p, n - 1) + if up[n-1] == p then [n - 1] else []
  }

  lemma {:induction false} UnderSpec(up: Parents, p: Option<nat>, n: nat)
    requires n <= |up|
    ensures forall k :: 0 <= k < |Under(up, p, n)| ==> Under(up, p, n)[k] < n && up[Under(up, p, n)[k]] == p
    ensures forall j: nat :: j < n && up[j] == p ==> j in Under(up, p, n)
    ensures Distinct(Under(up, p, n))
  {
    if n > 0 {
      UnderSpec(up, p, n - 1);
    }
  }

  function Children(up: Parents, i: nat): seq<nat> {
    Under(up, Some(i), |up|)
  }

  function Roots(up: Parents): seq<nat> {
    Under(up, None, |up|)
  }

  /** What hangs below `i`, to the given height. */
  function TreeOf(up: Parents, i: nat, height: nat): Tree
    decreases height, 1
  {
    Tree(i, if height == 0 then [] else ForestOf(up, Children(up, i), height - 1))
  }

  function ForestOf(up: Parents, nodes: seq<nat>, height: nat): (ts: seq<Tree>)
    ensures |ts| == |nodes|
    decreases height, 2, |nodes|
  {
    if nodes == [] then [] else [TreeOf(up, nodes[0], height)] + ForestOf(up, nodes[1..], height)
  }

  lemma {:induction false} ForestAt(up: Parents, nodes: seq<nat>, height: nat, k: nat)
    requires k < |nodes|
    ensures ForestOf(up, nodes, height)[k] == TreeOf(up, nodes[k], height)
    decreases k
  {
    if k > 0 {
      ForestAt(up, nodes[1..], height, k - 1);
    }
  }

  /** Everything below the roots.  No chain that ends is longer than there are nodes. */
  function Whole(up: Parents): seq<Tree> {
    ForestOf(up, Roots(up), |up|)
  }

  /** How often `x` occurs. */
  function Count(t: Tree, x: nat): nat {
    (if t.node == x then 1 else 0) + CountAll(t.children, x)
  }

  function CountAll(ts: seq<Tree>, x: nat): nat {
    if ts == [] then 0 else Count(ts[0], x) + CountAll(ts[1..], x)
  }

  // ---------------------------------------------------------------- chains of parents

  lemma {:induction false} AncestorAdds(up: Parents, i: nat, a: nat, b: nat)
    requires Valid(up) && i < |up| && Ancestor(up, i, a).Some?
    ensures Ancestor(up, i, a + b) == Ancestor(up, Ancestor(up, i, a).value, b)
  {
    if b > 0 {
      AncestorAdds(up, i, a, b - 1);
    }
  }

  lemma {:induction false} ChainIsClosedBelow(up: Parents, i: nat, a: nat, b: nat)
    requires Valid(up) && i < |up| && a <= b && Ancestor(up, i, b).Some?
    ensures Ancestor(up, i, a).Some?
    decreases b
  {
    if a < b {
      ChainIsClosedBelow(up, i, a, b - 1);
    }
  }

  lemma DepthIsUnique(up: Parents, i: nat, d: nat, e: nat)
    requires Valid(up) && i < |up| && HasDepth(up, i, d)
    requires Ancestor(up, i, e).Some?
    ensures e <= d
    ensures HasDepth(up, i, e) ==> e == d
  {
    if e > d {
      ChainIsClosedBelow(up, i, d + 1, e);
    } else if e < d {
      ChainIsClosedBelow(up, i, e + 1, d);
    }
  }

  function Chain(up: Parents, i: nat, n: nat): (r: seq<nat>)
    requires Valid(up) && i < |up|
    requires forall k: nat :: k < n ==> Ancestor(up, i, k).Some?
    ensures |r| == n && forall k :: 0 <= k < n ==> r[k] < |up| && Some(r[k]) == Ancestor(up, i, k)
  {
    seq(n, k requires 0 <= k < n => Ancestor(up, i, k).value)
  }

  function Below(n: nat): (r: set<nat>)
    ensures |r| == n && forall j: nat :: j in r <==> j < n
  {
    if n == 0 then {} else Below(n - 1) + {n - 1}
  }

  /** A chain with more steps than nodes visits some node twice. */
  lemma LongChainRepeats(up: Parents, i: nat, n: nat)
    requires Valid(up) && i < |up| && n > |up|
    requires forall k: nat :: k < n ==> Ancestor(up, i, k).Some?
    ensures exists a: nat, b: nat :: a < b < n && Ancestor(up, i, a) == Ancestor(up, i, b)
  {
    var chain := Chain(up, i, n);
    if Distinct(chain) {
      DistinctFits(chain, Below(|up|));
    }
    var a, b :| 0 <= a < b < |chain| && chain[a] == chain[b];
    assert Ancestor(up, i, a) == Ancestor(up, i, b);
  }

  lemma RootedIsAcyclic(up: Parents, i: nat, d: nat, a: nat, b: nat)
    requires Valid(up) && i < |up| && HasDepth(up, i, d)
    requires a < b && Ancestor(up, i, a).Some?
    ensures Ancestor(up, i, a) != Ancestor(up, i, b)
  {
    if Ancestor(up, i, a) == Ancestor(up, i, b) {
      DepthIsUnique(up, i, d, b);
      AncestorAdds(up, i, a, d - b);
      AncestorAdds(up, i, b, d - b);
      DepthIsUnique(up, i, d, a + (d - b));
    }
  }

  lemma DepthBound(up: Parents, i: nat, d: nat)
    requires Valid(up) && i < |up| && HasDepth(up, i, d)
    ensures d < |up|
  {
    if d >= |up| {
      forall k: nat | k < d + 1 ensures Ancestor(up, i, k).Some? {
        ChainIsClosedBelow(up, i, k, d);
      }
      LongChainRepeats(up, i, d + 1);
      var a: nat, b: nat :| a < b < d + 1 && Ancestor(up, i, a) == Ancestor(up, i, b);
      RootedIsAcyclic(up, i, d, a, b);
    }
  }

  /** A chain of parents either ends at a root or runs into a cycle. */
  lemma RootedIffNoCycle(up: Parents, i: nat)
    requires Valid(up) && i < |up|
    ensures Rooted(up, i) <==> !ReachesCycle(up, i)
  {
    if Rooted(up, i) {
      var d :| HasDepth(up, i, d);
      forall a: nat, b: nat | a < b && Ancestor(up, i, a).Some? ensures Ancestor(up, i, a) != Ancestor(up, i, b) {
        RootedIsAcyclic(up, i, d, a, b);
      }
    } else {
      forall k: nat ensures Ancestor(up, i, k).Some? {
        UnrootedGoesOn(up, i, k);
      }
      LongChainRepeats(up, i, |up| + 1);
    }
  }

  lemma {:induction false} UnrootedGoesOn(up: Parents, i: nat, k: nat)
    requires Valid(up) && i < |up| && !Rooted(up, i)
    ensures Ancestor(up, i, k).Some?
  {
    if k > 0 {
      UnrootedGoesOn(up, i, k - 1);
      assert !HasDepth(up, i, k - 1);
    }
  }

  lemma ChildDepth(up: Parents, i: nat, p: nat, d: nat)
    requires Valid(up) && i < |up| && up[i] == Some(p) && HasDepth(up, p, d)
    ensures HasDepth(up, i, d + 1)
  {
    assert Ancestor(up, i, 1) == Some(p);
    AncestorAdds(up, i, 1, d);
  }

  // ---------------------------------------------------------------- what the forest holds

  ghost predicate AllAtDepth(up: Parents, nodes: seq<nat>, d: nat)
    requires Valid(up)
  {
    forall k :: 0 <= k < |nodes| ==> nodes[k] < |up| && HasDepth(up, nodes[k], d)
  }

  ghost predicate AllRooted(up: Parents, nodes: seq<nat>)
    requires Valid(up)
  {
    forall k :: 0 <= k < |nodes| ==> nodes[k] < |up| && Rooted(up, nodes[k])
  }

  lemma ChildrenDepth(up: Parents, i: nat, d: nat)
    requires Valid(up) && i < |up| && HasDepth(up, i, d)
    ensures AllAtDepth(up, Children(up, i), d + 1)
  {
    var children := Children(up, i);
    UnderSpec(up, Some(i), |up|);
    forall k | 0 <= k < |children| ensures children[k] < |up| && HasDepth(up, children[k], d + 1) {
      ChildDepth(up, children[k], i, d);
    }
  }

  ghost predicate AtDepth(up: Parents, x: nat, m: nat, d: nat, nodes: seq<nat>)
    requires Valid(up) && x < |up|
  {
    d <= m && Ancestor(up, x, m - d).Some? && Ancestor(up, x, m - d).value in nodes
  }

  /** In a forest of nodes at depth `d`, a node `x` of depth `m` occurs once if its ancestor at
      that depth is one of them, and otherwise not at all. */
  lemma {:induction false} CountForest(up: Parents, nodes: seq<nat>, d: nat, height: nat, x: nat, m: nat)
    requires Valid(up) && x < |up| && HasDepth(up, x, m)
    requires Distinct(nodes) && AllAtDepth(up, nodes, d) && height + d == |up|
    ensures CountAll(ForestOf(up, nodes, height), x) == if AtDepth(up, x, m, d, nodes) then 1 else 0
    decreases height, 2, |nodes|
  {
    if nodes != [] {
      CountTree(up, nodes[0], d, height, x, m);
      CountForest(up, nodes[1..], d, height, x, m);
    }
  }

  lemma {:induction false} CountTree(up: Parents, i: nat, d: nat, height: nat, x: nat, m: nat)
    requires Valid(up) && x < |up| && HasDepth(up, x, m)
    requires i < |up| && HasDepth(up, i, d) && height + d == |up|
    ensures Count(TreeOf(up, i, height), x) == if AtDepth(up, x, m, d, [i]) then 1 else 0
    decreases height, 1
  {
    DepthBound(up, i, d);
    var children := Children(up, i);
    ChildrenDepth(up, i, d);
    UnderSpec(up, Some(i), |up|);
    CountForest(up, children, d + 1, height - 1, x, m);
    OneLevelUp(up, x, m, d, i);
    assert Count(TreeOf(up, i, height), x)
        == (if i == x then 1 else 0) + CountAll(ForestOf(up, children, height - 1), x);
  }

  /** `x` lies below `i` if it is `i`, or lies below a child of `i`; not both. */
  lemma OneLevelUp(up: Parents, x: nat, m: nat, d: nat, i: nat)
    requires Valid(up) && x < |up| && HasDepth(up, x, m) && i < |up| && HasDepth(up, i, d)
    ensures AtDepth(up, x, m, d, [i]) <==> x == i || AtDepth(up, x, m, d + 1, Children(up, i))
    ensures !(x == i && AtDepth(up, x, m, d + 1, Children(up, i)))
  {
    UnderSpec(up, Some(i), |up|);
    if x == i {
      DepthIsUnique(up, x, m, d);
    } else if d < m {
      ChainIsClosedBelow(up, x, m - d - 1, m);
    }
  }

  lemma ChildrenRooted(up: Parents, i: nat)
    requires Valid(up) && i < |up| && Rooted(up, i)
    ensures AllRooted(up, Children(up, i))
  {
    var d :| HasDepth(up, i, d);
    ChildrenDepth(up, i, d);
  }

  /** Below a rooted node there are only rooted nodes. */
  lemma {:induction false} OnlyRooted(up: Parents, nodes: seq<nat>, height: nat, x: nat)
    requires Valid(up) && x < |up| && !Rooted(up, x)
    requires AllRooted(up, nodes)
    ensures CountAll(ForestOf(up, nodes, height), x) == 0
    decreases height, |nodes|
  {
    if nodes != [] {
      ChildrenRooted(up, nodes[0]);
      OnlyRooted(up, nodes[1..], height, x);
      if height > 0 {
        OnlyRooted(up, Children(up, nodes[0]), height - 1, x);
      }
    }
  }

  lemma RootsDepth(up: Parents)
    requires Valid(up)
    ensures AllAtDepth(up, Roots(up), 0)
  {
    UnderSpec(up, None, |up|);
  }

  /** The forest holds each node whose chain of parents ends exactly once, and no other node. */
  lemma WholeHoldsTheRooted(up: Parents, x: nat)
    requires Valid(up) && x < |up|
    ensures CountAll(Whole(up), x) == if Rooted(up, x) then 1 else 0
  {
    RootsDepth(up);
    UnderSpec(up, None, |up|);
    if Rooted(up, x) {
      var m :| HasDepth(up, x, m);
      CountForest(up, Roots(up), 0, |up|, x, m);
    } else {
      assert AllRooted(up, Roots(up));
      OnlyRooted(up, Roots(up), |up|, x);
    }
  }

  lemma NoRootsIffNoneRooted(up: Parents)
    requires Valid(up)
    ensures Roots(up) == [] <==> forall i :: 0 <= i < |up| ==> !Rooted(up, i)
  {
    RootsDepth(up);
    UnderSpec(up, None, |up|);
    if Roots(up) == [] {
      forall i, d: nat | 0 <= i < |up| ensures !HasDepth(up, i, d) {
        assert Ancestor(up, i, d).Some? ==> Ancestor(up, i, d).value !in Roots(up);
      }
    } else {
      var r := Roots(up)[0];
      assert HasDepth(up, r, 0);
      assert Rooted(up, r);
    }
  }
}
