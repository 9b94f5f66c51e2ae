/** Weak connectivity of a topology: paths that ignore the direction of links. */
module Connectivity {
  import opened Common
  import opened TopologySpec

  predicate Adjacent(v: View, a: NodeNum, b: NodeNum) {
    (a, b) in v.links || (b, a) in v.links
  }

  ghost predicate IsPath(v: View, p: seq<NodeNum>) {
    && p != [] && p[0] in v.nodes
    && forall i :: 0 < i < |p| ==> Adjacent(v, p[i - 1], p[i])
  }

  ghost predicate Joins(v: View, p: seq<NodeNum>, a: NodeNum, b: NodeNum) {
    IsPath(v, p) && p[0] == a && Last(p) == b
  }

  ghost predicate Connected(v: View, a: NodeNum, b: NodeNum) {
    exists p :: Joins(v, p, a, b)
  }

  /**
   `groups` partitions the tracked nodes into non-empty lists without
   repetition, and two nodes share a group exactly when a path joins them.
   */
  ghost predicate Components(v: View, groups: seq<seq<NodeNum>>) {
    && (forall c | 0 <= c < |groups| :: groups[c] != [] && Distinct(groups[c]))
    && (forall c, d | 0 <= c < d < |groups| :: Elements(groups[c]) !! Elements(groups[d]))
    && (forall c, n | 0 <= c < |groups| && n in groups[c] :: n in v.nodes)
    && (forall n | n in v.nodes :: exists c :: 0 <= c < |groups| && n in groups[c])
    && (forall c, a, b | 0 <= c < |groups| && a in groups[c] :: b in groups[c] <==> Connected(v, a, b))
  }

  // ------------------------------------------------------ paths and closed sets

  lemma ConnectedToItself(v: View, a: NodeNum)
    requires a in v.nodes
    ensures Connected(v, a, a)
  {
    assert Joins(v, [a], a, a);
  }

  lemma ConnectedStep(v: View, a: NodeNum, b: NodeNum, c: NodeNum)
    requires Connected(v, a, b) && Adjacent(v, b, c)
    ensures Connected(v, a, c)
  {
    var p :| Joins(v, p, a, b);
    assert Joins(v, p + [c], a, c);
  }

  lemma ConnectedBack(v: View, a: NodeNum, b: NodeNum)
    requires Connected(v, a, b) && b in v.nodes
    ensures Connected(v, b, a)
  {
    var p :| Joins(v, p, a, b);
    var q := seq(|p|, i requires 0 <= i < |p| => p[|p| - 1 - i]);
    forall i | 0 < i < |q| ensures Adjacent(v, q[i - 1], q[i]) {
      assert Adjacent(v, p[|p| - 1 - i], p[|p| - i]);
    }
    assert Joins(v, q, b, a);
  }

  lemma ConnectedOnward(v: View, a: NodeNum, b: NodeNum, c: NodeNum)
    requires Connected(v, a, b) && Connected(v, b, c)
    ensures Connected(v, a, c)
  {
    var p :| Joins(v, p, a, b);
    var q :| Joins(v, q, b, c);
    var r := p + q[1..];
    forall i | 0 < i < |r| ensures Adjacent(v, r[i - 1], r[i]) {
      if i >= |p| {
        assert r[i] == q[i - |p| + 1] && r[i - 1] == q[i - |p|];
        assert Adjacent(v, q[i - |p|], q[i - |p| + 1]);
      }
    }
    assert Joins(v, r, a, c);
  }

  ghost predicate Closed(v: View, s: set<NodeNum>) {
    forall a, b | a in s && Adjacent(v, a, b) :: b in s
  }

  lemma {:induction false} PathStaysInside(v: View, s: set<NodeNum>, p: seq<NodeNum>)
    requires Closed(v, s) && IsPath(v, p) && p[0] in s
    ensures Last(p) in s
    decreases |p|
  {
    if |p| == 1 {
    } else {
      PathStaysInside(v, s, Init(p));
      assert Adjacent(v, p[|p| - 2], p[|p| - 1]);
    }
  }

  lemma ClosedUnderConnection(v: View, s: set<NodeNum>, a: NodeNum, b: NodeNum)
    requires Closed(v, s) && a in s && Connected(v, a, b)
    ensures b in s
  {
    var p :| Joins(v, p, a, b);
    PathStaysInside(v, s, p);
  }

  /** Two closed sets differ by a closed set, because adjacency is symmetric. */
  lemma ClosedDifference(v: View, small: set<NodeNum>, large: set<NodeNum>)
    requires Closed(v, small) && Closed(v, large)
    ensures Closed(v, large - small)
  {
    forall a, b | a in large - small && Adjacent(v, a, b) ensures b in large - small {
      assert Adjacent(v, b, a);
    }
  }

  /** A closed group all of whose members are reached from one of them is a component. */
  lemma GroupIsComponent(v: View, group: seq<NodeNum>, start: NodeNum)
    requires Closed(v, Elements(group)) && start in v.nodes
    requires forall n | n in group :: n in v.nodes && Connected(v, start, n)
    ensures forall a, b | a in group :: b in group <==> Connected(v, a, b)
  {
    forall a, b | a in group ensures b in group <==> Connected(v, a, b) {
      if b in group {
        ConnectedBack(v, start, a);
        ConnectedOnward(v, a, start, b);
      }
      if Connected(v, a, b) {
        ClosedUnderConnection(v, Elements(group), a, b);
      }
    }
  }

  /** Membership in a common group decides connection. */
  lemma SharedGroupDecides(v: View, groups: seq<seq<NodeNum>>, a: NodeNum, b: NodeNum)
    requires Components(v, groups) && a in v.nodes
    ensures (exists c :: 0 <= c < |groups| && a in groups[c] && b in groups[c]) <==> Connected(v, a, b)
  {
    var c :| 0 <= c < |groups| && a in groups[c];
  }
}
