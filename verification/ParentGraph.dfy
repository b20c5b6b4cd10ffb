/** Parent links as a finite graph: what it means to have no cycle, to reach a node
    by going up, and when a new link closes a cycle. */
module ParentGraph {
  import opened Base

  type Graph<T> = map<T, Option<T>>

  /** Every parent is a node. */
  ghost predicate Closed<T>(g: Graph<T>) {
    forall x :: x in g && g[x].Some? ==> g[x].value in g
  }

  /** Going up from `x` ends, after exactly `depth` links. */
  predicate DepthIs<T(==)>(g: Graph<T>, x: T, depth: nat) {
    x in g && (if depth == 0 then g[x].None? else g[x].Some? && DepthIs(g, g[x].value, depth - 1))
  }

  ghost predicate HasDepth<T>(g: Graph<T>, x: T) {
    exists depth: nat :: DepthIs(g, x, depth)
  }

  /** No cycle: going up always ends. */
  ghost predicate Acyclic<T>(g: Graph<T>) {
    forall x :: x in g ==> HasDepth(g, x)
  }

  ghost function Depth<T>(g: Graph<T>, x: T): (depth: nat)
    requires Acyclic(g) && x in g
    ensures DepthIs(g, x, depth)
  {
    assert HasDepth(g, x);
    var depth: nat :| DepthIs(g, x, depth);
    depth
  }

  lemma {:induction false} DepthIsUnique<T>(g: Graph<T>, x: T, d: nat, e: nat)
    requires DepthIs(g, x, d) && DepthIs(g, x, e)
    ensures d == e
    decreases d
  {
    if d > 0 && e > 0 {
      DepthIsUnique(g, g[x].value, d - 1, e - 1);
    }
  }

  /** A parent is one link less deep. */
  lemma DepthStep<T>(g: Graph<T>, x: T)
    requires Closed(g) && Acyclic(g) && x in g && g[x].Some?
    ensures Depth(g, x) == Depth(g, g[x].value) + 1
  {
    DepthIsUnique(g, g[x].value, Depth(g, x) - 1, Depth(g, g[x].value));
  }

  /** `y` is `x`, or an ancestor of it at most `steps` links up. */
  predicate ReachesIn<T(==)>(g: Graph<T>, x: T, y: T, steps: nat) {
    x == y || (steps > 0 && x in g && g[x].Some? && ReachesIn(g, g[x].value, y, steps - 1))
  }

  ghost predicate Reaches<T>(g: Graph<T>, x: T, y: T) {
    exists steps: nat :: ReachesIn(g, x, y, steps)
  }

  lemma ReachesStep<T>(g: Graph<T>, x: T, y: T)
    requires x in g
    ensures Reaches(g, x, y) <==> x == y || (g[x].Some? && Reaches(g, g[x].value, y))
  {
    if Reaches(g, x, y) && x != y {
      var steps: nat :| ReachesIn(g, x, y, steps);
      assert ReachesIn(g, g[x].value, y, steps - 1);
    }
    if g[x].Some? && Reaches(g, g[x].value, y) {
      var steps: nat :| ReachesIn(g, g[x].value, y, steps);
      assert ReachesIn(g, x, y, steps + 1);
    }
    assert ReachesIn(g, y, y, 0);
  }

  // ------------------------------------------------------------------
  // A new link

  /** With `p` as the parent of `x` and no cycle, whatever reached `x` before is at least as deep. */
  lemma {:induction false} ReachingIsDeeper<T>(g: Graph<T>, x: T, p: T, y: T, steps: nat)
    requires Closed(g) && x in g && y in g && p in g && ReachesIn(g, y, x, steps)
    requires Closed(g[x := Some(p)]) && Acyclic(g[x := Some(p)])
    ensures Depth(g[x := Some(p)], y) >= Depth(g[x := Some(p)], x)
    decreases steps
  {
    if y != x {
      assert g[x := Some(p)][y] == g[y];
      DepthStep(g[x := Some(p)], y);
      ReachingIsDeeper(g, x, p, g[y].value, steps - 1);
    }
  }

  /** A way up that does not pass `x` is as long as it was. */
  lemma {:induction false} OtherWaysStay<T>(g: Graph<T>, x: T, p: T, y: T, depth: nat)
    requires Closed(g) && DepthIs(g, y, depth) && !Reaches(g, y, x)
    ensures DepthIs(g[x := Some(p)], y, depth)
    decreases depth
  {
    ReachesStep(g, y, x);
    if depth > 0 {
      OtherWaysStay(g, x, p, g[y].value, depth - 1);
    }
  }

  /** A way up that passes `x` goes on from `p`. */
  lemma {:induction false} WaysThroughEnd<T>(g: Graph<T>, x: T, p: T, y: T, depth: nat)
    requires Closed(g) && Acyclic(g) && x in g && p in g && !Reaches(g, p, x)
    requires DepthIs(g, y, depth)
    ensures HasDepth(g[x := Some(p)], y)
    decreases depth
  {
    var g' := g[x := Some(p)];
    if y == x {
      var d := Depth(g, p);
      OtherWaysStay(g, x, p, p, d);
      assert DepthIs(g', x, d + 1);
    } else if depth == 0 {
      assert DepthIs(g', y, 0);
    } else {
      WaysThroughEnd(g, x, p, g[y].value, depth - 1);
      var d: nat :| DepthIs(g', g[y].value, d);
      assert DepthIs(g', y, d + 1);
    }
  }

  /** A new parent link keeps the graph free of cycles exactly when the child cannot
      be reached from the new parent. */
  lemma LinkKeepsAcyclicExactlyWhen<T>(g: Graph<T>, x: T, p: T)
    requires Closed(g) && Acyclic(g) && x in g && p in g
    ensures Closed(g[x := Some(p)])
    ensures Acyclic(g[x := Some(p)]) <==> !Reaches(g, p, x)
  {
    var g' := g[x := Some(p)];
    if Reaches(g, p, x) {
      var steps: nat :| ReachesIn(g, p, x, steps);
      if Acyclic(g') {
        ReachingIsDeeper(g, x, p, p, steps);
        DepthStep(g', x);
        assert false;
      }
    } else {
      forall y | y in g' ensures HasDepth(g', y) {
        WaysThroughEnd(g, x, p, y, Depth(g, y));
      }
    }
  }

  /** Taking a parent away never makes a cycle. */
  lemma UnlinkKeepsAcyclic<T>(g: Graph<T>, x: T)
    requires Closed(g) && Acyclic(g) && x in g
    ensures Closed(g[x := None]) && Acyclic(g[x := None])
  {
    forall y | y in g ensures HasDepth(g[x := None], y) {
      CutWaysEnd(g, x, y, Depth(g, y));
    }
  }

  lemma {:induction false} CutWaysEnd<T>(g: Graph<T>, x: T, y: T, depth: nat)
    requires Closed(g) && x in g && DepthIs(g, y, depth)
    ensures HasDepth(g[x := None], y)
    decreases depth
  {
    var g' := g[x := None];
    if y == x || depth == 0 {
      assert DepthIs(g', y, 0);
    } else {
      CutWaysEnd(g, x, g[y].value, depth - 1);
      var d: nat :| DepthIs(g', g[y].value, d);
      assert DepthIs(g', y, d + 1);
    }
  }
}
