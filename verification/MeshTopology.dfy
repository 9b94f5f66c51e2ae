/**
 The topology graph as the collector stores it: a stable graph of node and edge
 slots beside an index from node number to slot, both updated in place and kept
 in step with the abstract view.
 */
module MeshTopology {
  import opened Common
  import opened TopologySpec
  import opened TopologySnapshot
  import opened Connectivity

  datatype Edge = Edge(source: nat, target: nat, link: Link)

  /** A directed multigraph with stable slots; nothing here forbids parallel edges. */
  datatype Graph = Graph(nodes: map<nat, NodeNum>, edges: map<nat, Edge>) {
    predicate Incident(e: nat, i: nat)
      requires e in edges
    {
      edges[e].source == i || edges[e].target == i
    }

    function WithoutNode(i: nat): Graph {
      Graph(nodes - {i}, map e | e in edges && !Incident(e, i) :: edges[e])
    }

    function Ends(e: nat): Pair
      requires e in edges && edges[e].source in nodes && edges[e].target in nodes
    {
      (nodes[edges[e].source], nodes[edges[e].target])
    }
  }

  /** The node index and the graph's node slots are inverse to each other. */
  ghost predicate Indexed(g: Graph, index: map<NodeNum, nat>) {
    && (forall n | n in index :: index[n] in g.nodes && g.nodes[index[n]] == n)
    && (forall i | i in g.nodes :: g.nodes[i] in index && index[g.nodes[i]] == i)
  }

  /**
   Every edge joins live slots, and `slot` inverts the map from an edge to the
   pair of nodes it joins; so no pair has two edges, and the links of the view
   are exactly the edges.
   */
  ghost predicate Slotted(g: Graph, slot: map<Pair, nat>, links: map<Pair, Link>) {
    && (forall e | e in g.edges :: g.edges[e].source in g.nodes && g.edges[e].target in g.nodes)
    && (forall e | e in g.edges :: g.Ends(e) in slot && slot[g.Ends(e)] == e)
    && (forall k | k in slot :: slot[k] in g.edges && g.Ends(slot[k]) == k)
    && slot.Keys == links.Keys
    && (forall k | k in slot :: g.edges[slot[k]].link == links[k])
  }

  ghost predicate Represents(g: Graph, index: map<NodeNum, nat>, slot: map<Pair, nat>, v: View) {
    Indexed(g, index) && index.Keys == v.nodes && Slotted(g, slot, v.links)
  }

  /** What a representation guarantees about the stored graph itself. */
  lemma RepresentedGraphIsSimple(g: Graph, index: map<NodeNum, nat>, slot: map<Pair, nat>, v: View)
    requires Represents(g, index, slot, v)
    ensures forall e | e in g.edges :: g.edges[e].source in g.nodes && g.edges[e].target in g.nodes
    ensures forall e, f | e in g.edges && f in g.edges
                          && g.edges[e].source == g.edges[f].source && g.edges[e].target == g.edges[f].target :: e == f
    ensures |g.nodes| == |v.nodes| && |g.edges| == |v.links|
  {
    forall e, f | e in g.edges && f in g.edges
                  && g.edges[e].source == g.edges[f].source && g.edges[e].target == g.edges[f].target
      ensures e == f
    {
      assert g.Ends(e) == g.Ends(f);
    }
    EdgeCount(g, index, slot, v);
    assert index.Values == g.nodes.Keys by {
      forall i | i in g.nodes ensures i in index.Values { assert index[g.nodes[i]] == i; }
    }
    InjectiveCount(index);
    assert |g.nodes| == |g.nodes.Keys|;
  }

  // -------------------------------------------------- effect of graph updates

  lemma RemoveNodeIndexed(g: Graph, index: map<NodeNum, nat>, n: NodeNum)
    requires Indexed(g, index) && n in index
    ensures Indexed(g.WithoutNode(index[n]), index - {n})
  {
  }

  lemma RemoveNodeSlotted(g: Graph, index: map<NodeNum, nat>, slot: map<Pair, nat>, v: View, n: NodeNum)
    requires Indexed(g, index) && Slotted(g, slot, v.links) && n in index
    ensures Slotted(g.WithoutNode(index[n]), map k | k in slot && !Touches(k, n) :: slot[k], Without(v, {n}).links)
  {
    var g' := g.WithoutNode(index[n]);
    forall e | e in g'.edges
      ensures g'.edges[e].source in g'.nodes && g'.edges[e].target in g'.nodes && g'.Ends(e) == g.Ends(e)
    {
    }
  }

  lemma RemoveNodeRep(g: Graph, index: map<NodeNum, nat>, slot: map<Pair, nat>, v: View, n: NodeNum)
    requires Represents(g, index, slot, v) && n in index
    ensures Represents(g.WithoutNode(index[n]), index - {n},
                       map k | k in slot && !Touches(k, n) :: slot[k], Without(v, {n}))
  {
    hide Slotted, Indexed;
    RemoveNodeIndexed(g, index, n);
    RemoveNodeSlotted(g, index, slot, v, n);
  }

  lemma AddNodeRep(g: Graph, index: map<NodeNum, nat>, slot: map<Pair, nat>, v: View, n: NodeNum, i: nat)
    requires Represents(g, index, slot, v) && n !in index && i !in g.nodes
    ensures Represents(g.(nodes := g.nodes[i := n]), index[n := i], slot, WithNode(v, n))
  {
    var g' := g.(nodes := g.nodes[i := n]);
    forall e | e in g.edges ensures g'.Ends(e) == g.Ends(e) {}
  }

  lemma RemoveEdgeRep(g: Graph, index: map<NodeNum, nat>, slot: map<Pair, nat>, v: View, k: Pair)
    requires Represents(g, index, slot, v) && k in slot
    ensures Represents(g.(edges := g.edges - {slot[k]}), index, slot - {k}, v.(links := v.links - {k}))
  {
    var g' := g.(edges := g.edges - {slot[k]});
    forall e | e in g'.edges ensures g'.Ends(e) == g.Ends(e) {}
  }

  lemma NewEdgeRep(g: Graph, index: map<NodeNum, nat>, slot: map<Pair, nat>, v: View, e: nat, k: Pair, link: Link)
    requires Represents(g, index, slot, v) && k.0 in index && k.1 in index
    requires e !in g.edges && k !in v.links
    ensures Represents(g.(edges := g.edges[e := Edge(index[k.0], index[k.1], link)]), index,
                       slot[k := e], v.(links := v.links[k := link]))
  {
    var g' := g.(edges := g.edges[e := Edge(index[k.0], index[k.1], link)]);
    assert g'.Ends(e) == k;
    forall f | f in g.edges ensures g'.Ends(f) == g.Ends(f) {}
  }

  lemma ReweighEdgeRep(g: Graph, index: map<NodeNum, nat>, slot: map<Pair, nat>, v: View, k: Pair, link: Link)
    requires Represents(g, index, slot, v) && k in slot
    ensures Represents(g.(edges := g.edges[slot[k] := g.edges[slot[k]].(link := link)]), index,
                       slot, v.(links := v.links[k := link]))
  {
    var g' := g.(edges := g.edges[slot[k] := g.edges[slot[k]].(link := link)]);
    assert Slotted(g', slot, v.links[k := link]) by {
      hide Indexed;
      forall f | f in g.edges ensures g'.Ends(f) == g.Ends(f) {}
    }
  }

  /** Slots and links are equally many, so the caps on either are the same. */
  lemma EdgeCount(g: Graph, index: map<NodeNum, nat>, slot: map<Pair, nat>, v: View)
    requires Represents(g, index, slot, v)
    ensures |g.edges| == |v.links|
  {
    assert slot.Values == g.edges.Keys by {
      forall e | e in g.edges ensures e in slot.Values { assert slot[g.Ends(e)] == e; }
    }
    InjectiveCount(slot);
    assert |g.edges| == |g.edges.Keys| && |v.links| == |v.links.Keys|;
  }

  lemma {:induction false} InjectiveCount<T>(m: map<T, nat>)
    requires forall a, b | a in m && b in m && m[a] == m[b] :: a == b
    ensures |m.Keys| == |m.Values|
    decreases |m.Keys|
  {
    if m.Keys == {} {
      assert m.Values == {};
    } else {
      var a :| a in m;
      var rest := m - {a};
      assert rest.Keys == m.Keys - {a};
      InjectiveCount(rest);
      assert m.Values == rest.Values + {m[a]} by {
        forall i | i in m.Values ensures i in rest.Values + {m[a]} {
          var b :| b in m && m[b] == i;
          assert b == a || (b in rest && rest[b] == i);
        }
      }
      assert m[a] !in rest.Values;
    }
  }

  // ----------------------------------------------------------------- the class

  /** The latest observation among the edges of slot `i` is the freshness of its node. */
  lemma FreshnessByEdges(g: Graph, index: map<NodeNum, nat>, slot: map<Pair, nat>, v: View, i: nat, f: Option<nat>)
    requires Represents(g, index, slot, v) && i in g.nodes
    requires forall e | e in g.edges && g.Incident(e, i) :: f.Some? && g.edges[e].link.lastObserved <= f.value
    requires f.Some? ==> exists e :: e in g.edges && g.Incident(e, i) && g.edges[e].link.lastObserved == f.value
    ensures f == Freshness(v, g.nodes[i])
  {
    var n := g.nodes[i];
    forall k | k in v.links && Touches(k, n)
      ensures f.Some? && v.links[k].lastObserved <= f.value
    {
      assert g.Incident(slot[k], i);
    }
    if f.Some? {
      var e :| e in g.edges && g.Incident(e, i) && g.edges[e].link.lastObserved == f.value;
      assert Touches(g.Ends(e), n) && v.links[g.Ends(e)].lastObserved == f.value;
      assert f.value in TimesOf(v, n);
    } else {
      assert TimesOf(v, n) == {};
    }
  }

  lemma StaleByEdges(g: Graph, index: map<NodeNum, nat>, slot: map<Pair, nat>, v: View, cutoff: nat)
    requires Represents(g, index, slot, v)
    ensures StaleSlots(g, index, cutoff) == StaleNodes(v, cutoff)
  {
    forall n | n in index ensures n in StaleSlots(g, index, cutoff) <==> n in StaleNodes(v, cutoff) {
      if n in StaleNodes(v, cutoff) {
        forall e | e in g.edges && g.Incident(e, index[n]) ensures g.edges[e].link.lastObserved < cutoff {
          assert Touches(g.Ends(e), n);
        }
      } else {
        var k :| k in v.links && Touches(k, n) && v.links[k].lastObserved >= cutoff;
        assert g.Incident(slot[k], index[n]);
      }
    }
  }

  lemma ColdestByEdges(g: Graph, index: map<NodeNum, nat>, slot: map<Pair, nat>, v: View, e: nat)
    requires Represents(g, index, slot, v) && e in g.edges
    requires forall f | f in g.edges :: g.edges[e].link.lastObserved <= g.edges[f].link.lastObserved
    ensures ColdestLink(v, g.Ends(e))
  {
    forall j | j in v.links ensures v.links[g.Ends(e)].lastObserved <= v.links[j].lastObserved {
      assert slot[j] in g.edges;
    }
  }

  lemma OneProtectsNotTwo(s: set<NodeNum>, protect: seq<NodeNum>)
    requires |s| >= 2 && |protect| <= 1
    ensures s - Elements(protect) != {}
  {
    if protect == [] {
      assert s - Elements(protect) == s;
    } else {
      assert s - Elements(protect) == s - {protect[0]};
      assert |s - {protect[0]}| >= |s| - 1;
    }
  }

  class Topology {
    const caps: Caps
    var graph: Graph
    var nodeIndex: map<NodeNum, nat>
    ghost var slot: map<Pair, nat>
    ghost var view: View

    /** The stored graph and index stand for `view`. */
    ghost predicate Consistent()
      reads this
    {
      Represents(graph, nodeIndex, slot, view)
    }

    ghost predicate Valid()
      reads this
    {
      Consistent() && WellFormed(caps, view)
    }

    constructor (caps: Caps)
      requires 2 <= caps.nodes && 1 <= caps.links
      ensures Valid() && view == EMPTY && this.caps == caps
    {
      this.caps := caps;
      graph, nodeIndex := Graph(map[], map[]), map[];
      slot, view := map[], EMPTY;
    }

    // ------------------------------------------------- single graph updates

    method DropNode(n: NodeNum)
      requires Consistent() && n in nodeIndex
      modifies this
      ensures Consistent() && view == Without(old(view), {n}) && nodeIndex == old(nodeIndex) - {n}
    {
      RemoveNodeRep(graph, nodeIndex, slot, view, n);
      graph, nodeIndex := graph.WithoutNode(nodeIndex[n]), nodeIndex - {n};
      slot := map k | k in slot && !Touches(k, n) :: slot[k];
      view := Without(view, {n});
    }

    method PutNode(n: NodeNum) returns (i: nat)
      requires Consistent() && n !in nodeIndex
      modifies this
      ensures Consistent() && view == WithNode(old(view), n) && nodeIndex == old(nodeIndex)[n := i]
    {
      i := Unused(graph.nodes.Keys);
      AddNodeRep(graph, nodeIndex, slot, view, n, i);
      graph, nodeIndex := graph.(nodes := graph.nodes[i := n]), nodeIndex[n := i];
      view := WithNode(view, n);
    }

    method DropEdge(e: nat)
      requires Consistent() && e in graph.edges
      modifies this`graph, this`slot, this`view
      ensures Consistent() && graph == old(graph).(edges := old(graph).edges - {e})
      ensures view == old(view).(links := old(view).links - {old(graph).Ends(e)})
    {
      ghost var k := graph.Ends(e);
      RemoveEdgeRep(graph, nodeIndex, slot, view, k);
      graph := graph.(edges := graph.edges - {e});
      slot, view := slot - {k}, view.(links := view.links - {k});
    }

    method PutEdge(from: NodeNum, to: NodeNum, link: Link)
      requires Consistent() && from in nodeIndex && to in nodeIndex && (from, to) !in view.links
      modifies this`graph, this`slot, this`view
      ensures Consistent() && view == old(view).(links := old(view).links[(from, to) := link])
    {
      var e := Unused(graph.edges.Keys);
      ghost var k := (from, to);
      NewEdgeRep(graph, nodeIndex, slot, view, e, k, link);
      graph := graph.(edges := graph.edges[e := Edge(nodeIndex[from], nodeIndex[to], link)]);
      slot, view := slot[k := e], view.(links := view.links[k := link]);
    }

    method Reweigh(e: nat, link: Link)
      requires Consistent() && e in graph.edges
      modifies this`graph, this`slot, this`view
      ensures Consistent() && view == old(view).(links := old(view).links[old(graph).Ends(e) := link])
    {
      ghost var k := graph.Ends(e);
      ReweighEdgeRep(graph, nodeIndex, slot, view, k, link);
      graph := graph.(edges := graph.edges[e := graph.edges[e].(link := link)]);
      view := view.(links := view.links[k := link]);
    }

    // --------------------------------------------------------------- queries

    method FreshnessOf(i: nat) returns (f: Option<nat>)
      requires Consistent() && i in graph.nodes
      ensures f == Freshness(view, graph.nodes[i])
    {
      f := None;
      var todo := graph.edges.Keys;
      while todo != {}
        invariant todo <= graph.edges.Keys
        invariant forall e | e in graph.edges && e !in todo && graph.Incident(e, i) ::
                    f.Some? && graph.edges[e].link.lastObserved <= f.value
        invariant f.Some? ==>
                    exists e :: e in graph.edges && graph.Incident(e, i) && graph.edges[e].link.lastObserved == f.value
        decreases todo
      {
        var e :| e in todo;
        todo := todo - {e};
        if graph.Incident(e, i) && (f.None? || f.value < graph.edges[e].link.lastObserved) {
          f := Some(graph.edges[e].link.lastObserved);
        }
      }
      FreshnessByEdges(graph, nodeIndex, slot, view, i, f);
    }

    /** The edge from one slot to another, if any. */
    method EdgeBetween(from: NodeNum, to: NodeNum) returns (e: Option<nat>)
      requires Consistent() && from in nodeIndex && to in nodeIndex
      ensures e.Some? <==> (from, to) in view.links
      ensures e.Some? ==> e.value in graph.edges && graph.Ends(e.value) == (from, to)
                          && graph.edges[e.value].link == view.links[(from, to)]
    {
      var source, target := nodeIndex[from], nodeIndex[to];
      assert (from, to) in view.links ==> slot[(from, to)] in graph.edges;
      var todo := graph.edges.Keys;
      while todo != {}
        invariant todo <= graph.edges.Keys
        invariant forall f | f in graph.edges && f !in todo ::
                    graph.edges[f].source != source || graph.edges[f].target != target
        decreases todo
      {
        var f :| f in todo;
        todo := todo - {f};
        if graph.edges[f].source == source && graph.edges[f].target == target {
          assert graph.Ends(f) == (from, to);
          return Some(f);
        }
      }
      return None;
    }

    /** The coldest node outside `protect`, if there is one; ties fall either way. */
    method ColdestNode(protect: seq<NodeNum>) returns (best: Option<NodeNum>)
      requires Consistent()
      ensures best.None? ==> view.nodes <= Elements(protect)
      ensures best.Some? ==> Coldest(view, Elements(protect), best.value)
    {
      best := None;
      var bestFreshness: Option<nat> := None;
      var todo := nodeIndex.Keys;
      while todo != {}
        invariant todo <= nodeIndex.Keys
        invariant best.Some? ==> best.value in nodeIndex && best.value !in protect
                                 && bestFreshness == Freshness(view, best.value)
        invariant forall n | n in nodeIndex.Keys - todo && n !in protect ::
                    best.Some? && AtMost(bestFreshness, Freshness(view, n))
        decreases todo
      {
        var n :| n in todo;
        todo := todo - {n};
        if n !in protect {
          var f := FreshnessOf(nodeIndex[n]);
          if best.None? || !AtMost(bestFreshness, f) {
            best, bestFreshness := Some(n), f;
          }
        }
      }
    }

    /** The edge observed longest ago, if there is one; ties fall either way. */
    method ColdestEdge() returns (best: Option<nat>)
      requires Consistent()
      ensures best.None? ==> view.links == map[]
      ensures best.Some? ==> best.value in graph.edges && ColdestLink(view, graph.Ends(best.value))
    {
      best := None;
      assert forall k | k in view.links :: slot[k] in graph.edges;
      var todo := graph.edges.Keys;
      while todo != {}
        invariant todo <= graph.edges.Keys && (best.Some? ==> best.value in graph.edges)
        invariant forall f | f in graph.edges && f !in todo ::
                    best.Some? && graph.edges[best.value].link.lastObserved <= graph.edges[f].link.lastObserved
        decreases todo
      {
        var f :| f in todo;
        todo := todo - {f};
        if best.None? || graph.edges[f].link.lastObserved < graph.edges[best.value].link.lastObserved {
          best := Some(f);
        }
      }
      if best.Some? {
        ColdestByEdges(graph, nodeIndex, slot, view, best.value);
      }
    }

    // ------------------------------------------------------------ operations

    /** Inserts a node, or finds its slot, never evicting a protected one. */
    method AddNodeProtecting(node: NodeNum, protect: seq<NodeNum>) returns (i: nat)
      requires Valid() && |protect| <= 1
      modifies this
      ensures Valid() && node in nodeIndex && i == nodeIndex[node]
      ensures Admits(caps, old(view), node, Elements(protect), view)
      ensures forall n | n in nodeIndex && n in old(nodeIndex) :: nodeIndex[n] == old(nodeIndex[n])
    {
      hide Slotted, Indexed, Joined;
      if node in nodeIndex {
        return nodeIndex[node];
      }
      ghost var before := view;
      assert |nodeIndex| == |nodeIndex.Keys| == |view.nodes|;
      if |nodeIndex| >= caps.nodes {
        OneProtectsNotTwo(view.nodes, protect);
        var victim := ColdestNode(protect);
        if victim.Some? {
          DropNode(victim.value);
        }
      }
      i := PutNode(node);
      assert Admits(caps, before, node, Elements(protect), view);
      AdmitsShape(caps, before, node, Elements(protect), view);
      AdmitsCaps(caps, before, node, Elements(protect), view);
    }

    method AddNode(node: NodeNum) returns (i: nat)
      requires Valid()
      modifies this
      ensures Valid() && node in nodeIndex && i == nodeIndex[node]
      ensures Admits(caps, old(view), node, {}, view)
    {
      i := AddNodeProtecting(node, []);
      assert Elements<NodeNum>([]) == {};
    }

    /** Adds or refreshes the link between two tracked nodes. */
    method Observe(from: NodeNum, to: NodeNum, snr: Snr, now: nat)
      requires Valid() && from in nodeIndex && to in nodeIndex
      modifies this`graph, this`slot, this`view
      ensures Valid() && Observes(caps, old(view), (from, to), snr, now, view)
    {
      hide Slotted, Indexed, Joined, ColdestLink;
      ghost var before, k := view, (from, to);
      var existing := EdgeBetween(from, to);
      if existing.Some? {
        var count := graph.edges[existing.value].link.packetCount;
        Reweigh(existing.value, Link(snr, now, SatAdd(count, 1)));
      } else {
        EdgeCount(graph, nodeIndex, slot, view);
        if |graph.edges| >= caps.links {
          var victim := ColdestEdge();
          if victim.Some? {
            DropEdge(victim.value);
          }
        }
        PutEdge(from, to, Link(snr, now, 1));
      }
      assert Observes(caps, before, k, snr, now, view);
      ObservesShape(caps, before, k, snr, now, view);
      ObservesCaps(caps, before, k, snr, now, view);
    }

    /** Records an observation of the link from one node to another. */
    method UpdateLink(from: NodeNum, to: NodeNum, snr: Snr, now: nat)
      requires Valid()
      modifies this
      ensures Valid() && UpdatesLink(caps, old(view), from, to, snr, now, view)
    {
      hide Slotted, Indexed, Joined, Admits, Observes;
      if snr.NonFinite? {
        return;
      }
      ghost var v := view;
      assert Elements([to]) == {to} && Elements([from]) == {from};
      var source := AddNodeProtecting(from, [to]);
      ghost var v1 := view;
      var target := AddNodeProtecting(to, [from]);
      ghost var v2 := view;
      TwoAdmissionsShape(caps, v, from, to, v1, v2);
      assert nodeIndex[from] == source;
      Observe(from, to, snr, now);
    }

    method DropNodes(gone: set<NodeNum>)
      requires Consistent() && gone <= nodeIndex.Keys
      modifies this
      ensures Consistent() && view == Without(old(view), gone)
    {
      hide Slotted, Indexed, Without;
      var todo := gone;
      WithoutNothing(view);
      assert gone - todo == {};
      while todo != {}
        invariant todo <= gone && todo <= nodeIndex.Keys
        invariant Consistent() && view == Without(old(view), gone - todo)
        decreases todo
      {
        var n :| n in todo;
        DropNode(n);
        WithoutTwice(old(view), gone - todo, {n});
        assert gone - (todo - {n}) == (gone - todo) + {n};
        todo := todo - {n};
      }
      assert gone - todo == gone;
    }

    /** Removes every node all of whose links are older than the timeout. */
    method RemoveStaleNodes(now: nat, timeout: nat)
      requires Valid()
      modifies this
      ensures Valid() && view == WithoutStaleNodes(old(view), now, timeout)
      ensures forall n :: n in view.nodes <==>
                          n in old(view).nodes && (now < timeout || HeardSince(old(view), n, now, timeout))
    {
      hide Slotted, Joined, StaleNodes, Without, HeardSince;
      StalePruningIsExact(view, now, timeout);
      if now < timeout {
        return;
      }
      var stale := StaleSlots(graph, nodeIndex, now - timeout);
      StaleByEdges(graph, nodeIndex, slot, view, now - timeout);
      WithoutKeeps(caps, view, stale);
      DropNodes(stale);
    }

    /** Removes every link older than the timeout. */
    method RemoveStaleLinks(now: nat, timeout: nat)
      requires Valid()
      modifies this`graph, this`slot, this`view
      ensures Valid() && view == WithoutStaleLinks(old(view), now, timeout)
      ensures view.nodes == old(view).nodes
      ensures forall k :: k in view.links <==> k in old(view).links && old(view).links[k].lastObserved + timeout >= now
    {
      hide Slotted, Indexed, Joined, StaleEdges;
      StaleLinksAreExact(view, now, timeout);
      if now < timeout {
        return;
      }
      StaleEdgesRep(graph, nodeIndex, slot, view, now, timeout);
      StaleLinksKeep(caps, view, now, timeout);
      graph := RemoveEdges(graph, StaleEdges(graph, now - timeout));
      view := WithoutStaleLinks(view, now, timeout);
      slot := map k | k in slot && k in view.links :: slot[k];
    }

    // ---------------------------------------------------- weak components

    /** Pushes the unvisited neighbours of a slot, along outgoing and then incoming edges. */
    method PushNeighbors(i: nat, component: map<nat, nat>, stack: seq<nat>) returns (r: seq<nat>)
      requires Consistent() && i in graph.nodes
      ensures forall j | j in stack :: j in r
      ensures forall j | j in r ::
                j in stack || (j in graph.nodes && Adjacent(view, graph.nodes[i], graph.nodes[j]))
      ensures forall b | Adjacent(view, graph.nodes[i], b) ::
                b in nodeIndex && (nodeIndex[b] in component || nodeIndex[b] in r)
    {
      hide Slotted, Indexed;
      r := PushTargets(i, component, stack);
      var targets := r;
      r := PushSources(i, component, stack, r);
      assert forall j | j in targets :: j in r;
      NeighborsByEdges(graph, nodeIndex, slot, view, i, component.Keys + Elements(r));
    }

    method PushTargets(i: nat, component: map<nat, nat>, stack: seq<nat>) returns (r: seq<nat>)
      requires Consistent() && i in graph.nodes
      ensures NeighborsOnly(i, stack, r)
      ensures forall e | e in graph.edges && graph.edges[e].source == i ::
                graph.edges[e].target in component || graph.edges[e].target in r
    {
      EdgesJoin(graph, nodeIndex, slot, view);
      hide Slotted, Indexed;
      r := stack;
      var todo := graph.edges.Keys;
      while todo != {}
        invariant todo <= graph.edges.Keys && NeighborsOnly(i, stack, r)
        invariant forall e | e in graph.edges && e !in todo && graph.edges[e].source == i ::
                    graph.edges[e].target in component || graph.edges[e].target in r
        decreases todo
      {
        var e :| e in todo;
        todo := todo - {e};
        if graph.edges[e].source == i && graph.edges[e].target !in component {
          r := r + [graph.edges[e].target];
        }
      }
    }

    /** What was on the stack is kept, and only neighbours were added. */
    ghost predicate NeighborsOnly(i: nat, stack: seq<nat>, r: seq<nat>)
      requires i in graph.nodes
      reads this
    {
      && (forall j | j in stack :: j in r)
      && (forall j | j in r :: j in stack || (j in graph.nodes && Adjacent(view, graph.nodes[i], graph.nodes[j])))
    }

    method PushSources(i: nat, component: map<nat, nat>, ghost stack: seq<nat>, before: seq<nat>) returns (r: seq<nat>)
      requires Consistent() && i in graph.nodes && NeighborsOnly(i, stack, before)
      ensures NeighborsOnly(i, stack, r) && before <= r
      ensures forall e | e in graph.edges && graph.edges[e].target == i ::
                graph.edges[e].source in component || graph.edges[e].source in r
    {
      EdgesJoin(graph, nodeIndex, slot, view);
      hide Slotted, Indexed;
      r := before;
      var todo := graph.edges.Keys;
      while todo != {}
        invariant todo <= graph.edges.Keys && NeighborsOnly(i, stack, r) && before <= r
        invariant forall e | e in graph.edges && e !in todo && graph.edges[e].target == i ::
                    graph.edges[e].source in component || graph.edges[e].source in r
        decreases todo
      {
        var e :| e in todo;
        todo := todo - {e};
        if graph.edges[e].target == i && graph.edges[e].source !in component {
          r := r + [graph.edges[e].source];
        }
      }
    }

    /** Depth-first search from one slot: the group found, added to the visited slots. */
    method Explore(start: nat, id: nat, visited: map<nat, nat>, ghost seen: set<NodeNum>)
      returns (component: map<nat, nat>, group: seq<NodeNum>)
      requires Valid() && start in graph.nodes && start !in visited
      requires Visited(graph, visited, seen) && Closed(view, seen)
      ensures Visited(graph, component, seen + Elements(group)) && Closed(view, seen + Elements(group))
      ensures graph.nodes[start] in group && Distinct(group) && Elements(group) !! seen
      ensures forall n | n in group :: n in view.nodes && Connected(view, graph.nodes[start], n)
    {
      hide Represents, WellFormed, Closed, Searching;
      component, group := visited, [];
      var stack := [start];
      assert Searching(graph, nodeIndex, view, seen, start, component, group, stack) by {
        SearchStart(graph, nodeIndex, slot, view, seen, start, component);
      }
      while stack != []
        invariant Searching(graph, nodeIndex, view, seen, start, component, group, stack)
        decreases graph.nodes.Keys - component.Keys, |stack|
      {
        var current := Last(stack);
        SearchTop(graph, nodeIndex, view, seen, start, component, group, stack);
        if current in component {
          SearchSkip(graph, nodeIndex, view, seen, start, component, group, stack);
          stack := Init(stack);
          continue;
        }
        assert current in graph.nodes.Keys - component.Keys;
        ghost var component0, group0, stack0 := component, group, stack;
        component := component[current := id];
        group := group + [graph.nodes[current]];
        stack := PushNeighbors(current, component, Init(stack));
        SearchVisit(graph, nodeIndex, slot, view, seen, start, component0, group0, stack0, id, stack);
      }
      SearchEnd(graph, nodeIndex, slot, view, seen, start, component, group);
    }

    /** Appends a group of its own for every slot not visited yet. */
    method AppendSingletons(visited: map<nat, nat>, groups: seq<seq<NodeNum>>) returns (r: seq<seq<NodeNum>>)
      requires Consistent()
      ensures groups <= r
      ensures forall c | |groups| <= c < |r| :: exists n :: n in nodeIndex && nodeIndex[n] !in visited && r[c] == [n]
      ensures forall n | n in nodeIndex && nodeIndex[n] !in visited :: [n] in r
      ensures (forall n | n in nodeIndex :: nodeIndex[n] in visited) ==> r == groups
    {
      r := groups;
      var component := visited;
      var todo := nodeIndex.Keys;
      while todo != {}
        invariant todo <= nodeIndex.Keys && groups <= r
        invariant visited.Keys <= component.Keys
        invariant forall n | n in nodeIndex && nodeIndex[n] in component :: nodeIndex[n] in visited || n !in todo
        invariant forall c | |groups| <= c < |r| ::
                    exists n :: n in nodeIndex && nodeIndex[n] !in visited && r[c] == [n]
        invariant forall n | n in nodeIndex && n !in todo && nodeIndex[n] !in visited :: [n] in r
        invariant r == groups || exists n :: n in nodeIndex && nodeIndex[n] !in visited
        decreases todo
      {
        hide Slotted;
        var n :| n in todo;
        var i := nodeIndex[n];
        todo := todo - {n};
        if i !in component {
          r := r + [[graph.nodes[i]]];
          component := component[i := |r| - 1];
        }
      }
    }

    /** The weakly connected components of the mesh. */
    method ConnectedComponents() returns (groups: seq<seq<NodeNum>>)
      requires Valid()
      ensures Components(view, groups)
    {
      hide Slotted, Joined, Connected, Closed, Grouped;
      groups := [];
      GroupsStart(view);
      if nodeIndex == map[] {
        assert view.nodes == {};
        GroupsCover(view, groups, {});
        return;
      }
      var component: map<nat, nat> := map[];
      ghost var seen: set<NodeNum> := {};
      var todo := nodeIndex.Keys;
      while todo != {}
        invariant todo <= nodeIndex.Keys && nodeIndex.Keys - todo <= seen
        invariant Visited(graph, component, seen) && Closed(view, seen)
        invariant Grouped(view, groups, seen)
        decreases todo
      {
        var n :| n in todo;
        var i := nodeIndex[n];
        todo := todo - {n};
        if i in component {
          continue;
        }
        var group;
        component, group := Explore(i, |groups|, component, seen);
        GroupsExtend(view, groups, seen, group, n);
        seen := seen + Elements(group);
        groups := groups + [group];
      }
      GroupsCover(view, groups, seen);
      assert forall n | n in nodeIndex :: nodeIndex[n] in graph.nodes && nodeIndex[n] in component;
      var found := groups;
      groups := AppendSingletons(component, groups);
      assert groups == found;
    }

    /** Whether no path, in either direction, joins the two nodes. */
    method IsPartitioned(node: NodeNum, server: NodeNum) returns (r: bool)
      requires Valid()
      ensures r <==> !(node in view.nodes && server in view.nodes && Connected(view, node, server))
    {
      if node !in nodeIndex || server !in nodeIndex {
        return true;
      }
      var groups := ConnectedComponents();
      SharedGroupDecides(view, groups, node, server);
      r := !exists c | 0 <= c < |groups| :: node in groups[c] && server in groups[c];
    }

    // -------------------------------------------------------------- snapshots

    /** Writes the nodes and links, each once, in the order the maps happen to give. */
    method Save() returns (doc: Document)
      requires Valid()
      ensures Saves(view, doc)
    {
      hide Slotted, Distinct, Elements, Indexed, Joined;
      var nodes := SaveNodes();
      var links := SaveLinks();
      var snap := Snapshot(nodes, links);
      assert Lists(view, snap);
      doc := Written(snap);
    }

    method SaveNodes() returns (nodes: seq<NodeNum>)
      ensures Distinct(nodes) && Elements(nodes) == nodeIndex.Keys
    {
      nodes := [];
      var todo := nodeIndex.Keys;
      while todo != {}
        invariant todo <= nodeIndex.Keys
        invariant Distinct(nodes) && Elements(nodes) == nodeIndex.Keys - todo
        decreases todo
      {
        var n :| n in todo;
        todo := todo - {n};
        assert Elements(nodes + [n]) == Elements(nodes) + {n};
        nodes := nodes + [n];
      }
    }

    method SaveLinks() returns (links: seq<LinkSnapshot>)
      requires Consistent()
      ensures Distinct(EndsOf(links)) && Elements(EndsOf(links)) == view.links.Keys
      ensures forall l | l in links :: Matches(view, l)
    {
      links := [];
      var todo := graph.edges.Keys;
      while todo != {}
        invariant todo <= graph.edges.Keys
        invariant Distinct(EndsOf(links)) && forall l | l in links :: Matches(view, l)
        invariant forall k | k in EndsOf(links) :: k in slot && slot[k] !in todo
        invariant forall k | k in slot && slot[k] !in todo :: k in EndsOf(links)
        decreases todo
      {
        var e :| e in todo;
        var k := graph.Ends(e);
        var l := LinkSnapshot(k.0, k.1, graph.edges[e].link.snr, graph.edges[e].link.packetCount);
        assert EndsOf(links + [l]) == EndsOf(links) + [k];
        assert k !in EndsOf(links);
        links := links + [l];
        todo := todo - {e};
      }
      assert forall k | k in slot :: slot[k] !in todo;
    }

    /** Restores one link, folding it into the pair's edge if there is one. */
    method RestoreLink(l: LinkSnapshot, now: nat)
      requires Valid() && |view.links| < caps.links
      modifies this
      ensures Valid() && Restores(caps, old(view), l, now, view)
    {
      hide Slotted, Indexed, Admits, Joined;
      ghost var v := view;
      assert Elements([l.to]) == {l.to} && Elements([l.from]) == {l.from};
      var source := AddNodeProtecting(l.from, [l.to]);
      ghost var v1 := view;
      var target := AddNodeProtecting(l.to, [l.from]);
      ghost var v2 := view;
      TwoAdmissionsShape(caps, v, l.from, l.to, v1, v2);
      var existing := EdgeBetween(l.from, l.to);
      if existing.Some? {
        var link := graph.edges[existing.value].link;
        Reweigh(existing.value, Link(l.snr, link.lastObserved, SatAdd(link.packetCount, l.packetCount)));
      } else {
        PutEdge(l.from, l.to, Link(l.snr, now, l.packetCount));
      }
      assert Admits(caps, v, l.from, {l.to}, v1) && Admits(caps, v1, l.to, {l.from}, v2);
      RestoresShape(caps, v, l, now, view);
      RestoresCaps(caps, v, l, now, view);
    }
  }

  method RemoveEdges(g: Graph, gone: set<nat>) returns (r: Graph)
    ensures r == g.(edges := g.edges - gone)
  {
    r := g;
    var todo := gone;
    while todo != {}
      invariant todo <= gone && r == g.(edges := g.edges - (gone - todo))
      decreases todo
    {
      var e :| e in todo;
      assert gone - (todo - {e}) == (gone - todo) + {e};
      r := r.(edges := r.edges - {e});
      todo := todo - {e};
    }
  }

  /** Edges last observed before the cutoff. */
  function StaleEdges(g: Graph, cutoff: nat): set<nat> {
    set e | e in g.edges && g.edges[e].link.lastObserved < cutoff
  }

  /** Nodes whose slot has no edge observed at or after the cutoff. */
  function StaleSlots(g: Graph, index: map<NodeNum, nat>, cutoff: nat): set<NodeNum> {
    set n | n in index && forall e | e in g.edges ::
      g.Incident(e, index[n]) ==> g.edges[e].link.lastObserved < cutoff
  }

  lemma StaleEdgesRep(g: Graph, index: map<NodeNum, nat>, slot: map<Pair, nat>, v: View, now: nat, timeout: nat)
    requires Represents(g, index, slot, v) && timeout <= now
    ensures var v' := WithoutStaleLinks(v, now, timeout);
            Represents(g.(edges := g.edges - StaleEdges(g, now - timeout)), index,
                       map k | k in slot && k in v'.links :: slot[k], v')
  {
    var g' := g.(edges := g.edges - StaleEdges(g, now - timeout));
    forall e | e in g'.edges ensures g'.Ends(e) == g.Ends(e) {}
  }

  /** Parses a document, then builds the topology it describes; none if it does not parse. */
  method Load(caps: Caps, doc: Document, now: nat) returns (t: Topology?)
    requires 2 <= caps.nodes && 1 <= caps.links
    ensures t != null ==> fresh(t) && t.Valid() && t.caps == caps
    ensures LoadsDocument(caps, doc, now, if t == null then None else Some(t.view))
  {
    hide Represents, WellFormed, Loads, ReadLinks;
    var parsed := Parsed(doc);
    if parsed.None? {
      t := null;
    } else {
      t := Build(caps, parsed.value, now);
    }
  }

  /** Builds a topology from a snapshot of any shape, never past the caps. */
  method Build(caps: Caps, snap: Snapshot, now: nat) returns (t: Topology)
    requires 2 <= caps.nodes && 1 <= caps.links
    ensures fresh(t) && t.Valid() && t.caps == caps && LoadsSnapshot(caps, snap, now, t.view)
  {
    hide Represents, WellFormed, Loads, Admits, Restores;
    t := new Topology(caps);
    var nodes, links := Take(snap.nodes, caps.nodes), Take(snap.links, caps.links);
    LoadsNothing(caps, now);
    for i := 0 to |nodes|
      invariant fresh(t) && t.Valid() && t.caps == caps
      invariant Loads(caps, nodes[..i], [], now, t.view)
    {
      ghost var before := t.view;
      var _ := t.AddNode(nodes[i]);
      LoadsNode(caps, nodes, i, now, before, t.view);
    }
    assert nodes[..|nodes|] == nodes;
    assert links[..0] == [];
    for i := 0 to |links|
      invariant fresh(t) && t.Valid() && t.caps == caps
      invariant Loads(caps, nodes, links[..i], now, t.view)
    {
      ghost var before := t.view;
      LoadsKeeps(caps, nodes, links[..i], now, t.view);
      t.RestoreLink(links[i], now);
      LoadsLink(caps, nodes, links, i, now, before, t.view);
    }
    assert links[..|links|] == links;
  }

  /**
   Saving, then restoring: the same topology with every link stamped by the
   restore, or no topology if some link's SNR is not finite.
   */
  method Restart(t: Topology, now: nat) returns (r: Topology?)
    requires t.Valid()
    ensures r != null <==> AllFinite(t.view)
    ensures r != null ==> fresh(r) && r.Valid() && r.view == Restamped(t.view, now)
  {
    hide Saves, Loads, Restamped;
    var doc := t.Save();
    r := Load(t.caps, doc, now);
    SnapshotRoundTrip(t.caps, t.view, doc, now, if r == null then None else Some(r.view));
  }

  // -------------------------------------------------- proofs about the search

  lemma EdgesJoin(g: Graph, index: map<NodeNum, nat>, slot: map<Pair, nat>, v: View)
    requires Represents(g, index, slot, v)
    ensures forall e | e in g.edges :: g.edges[e].source in g.nodes && g.edges[e].target in g.nodes
    ensures forall e | e in g.edges ::
              && Adjacent(v, g.nodes[g.edges[e].source], g.nodes[g.edges[e].target])
              && Adjacent(v, g.nodes[g.edges[e].target], g.nodes[g.edges[e].source])
  {
    forall e | e in g.edges ensures g.Ends(e) in v.links {}
  }

  lemma NeighborsByEdges(
    g: Graph, index: map<NodeNum, nat>, slot: map<Pair, nat>, v: View, i: nat, reached: set<nat>)
    requires Represents(g, index, slot, v) && i in g.nodes
    requires forall e | e in g.edges && g.edges[e].source == i :: g.edges[e].target in reached
    requires forall e | e in g.edges && g.edges[e].target == i :: g.edges[e].source in reached
    ensures forall b | Adjacent(v, g.nodes[i], b) :: b in index && index[b] in reached
  {
    var a := g.nodes[i];
    forall b | Adjacent(v, a, b) ensures b in index && index[b] in reached {
      var e := if (a, b) in v.links then slot[(a, b)] else slot[(b, a)];
      assert e in g.edges && g.Ends(e) == (if (a, b) in v.links then (a, b) else (b, a));
    }
  }

  /** Visited slots are those of the nodes in `seen`. */
  ghost predicate Visited(g: Graph, component: map<nat, nat>, seen: set<NodeNum>) {
    forall i | i in g.nodes :: i in component <==> g.nodes[i] in seen
  }

  /**
   Invariant of the depth-first search: the group is reached from the start,
   the stack too, and every neighbour of the group is visited or on the stack.
   */
  ghost predicate Searching(
    g: Graph, index: map<NodeNum, nat>, v: View, seen: set<NodeNum>, start: nat,
    component: map<nat, nat>, group: seq<NodeNum>, stack: seq<nat>)
    requires start in g.nodes
  {
    && Visited(g, component, seen + Elements(group))
    && (if group == [] then stack == [start] && start !in component else g.nodes[start] in group)
    && Distinct(group) && Elements(group) !! seen
    && (forall n | n in group :: n in v.nodes && Connected(v, g.nodes[start], n))
    && (forall j | j in stack :: j in g.nodes && Connected(v, g.nodes[start], g.nodes[j]))
    && (forall a, b | a in group && Adjacent(v, a, b) ::
          b in index && (index[b] in component || index[b] in stack))
  }

  lemma SearchStart(
    g: Graph, index: map<NodeNum, nat>, slot: map<Pair, nat>, v: View, seen: set<NodeNum>, start: nat,
    component: map<nat, nat>)
    requires Represents(g, index, slot, v) && start in g.nodes && start !in component && Visited(g, component, seen)
    ensures Searching(g, index, v, seen, start, component, [], [start])
  {
    ConnectedToItself(v, g.nodes[start]);
    assert seen + Elements<NodeNum>([]) == seen;
  }

  lemma SearchTop(
    g: Graph, index: map<NodeNum, nat>, v: View, seen: set<NodeNum>, start: nat,
    component: map<nat, nat>, group: seq<NodeNum>, stack: seq<nat>)
    requires start in g.nodes && stack != [] && Searching(g, index, v, seen, start, component, group, stack)
    ensures Last(stack) in g.nodes
  {
    assert Last(stack) in stack;
  }

  lemma SearchSkip(
    g: Graph, index: map<NodeNum, nat>, v: View, seen: set<NodeNum>, start: nat,
    component: map<nat, nat>, group: seq<NodeNum>, stack: seq<nat>)
    requires start in g.nodes && stack != [] && Searching(g, index, v, seen, start, component, group, stack)
    requires Last(stack) in component
    ensures Searching(g, index, v, seen, start, component, group, Init(stack))
  {
    assert stack == Init(stack) + [Last(stack)];
  }

  lemma SearchVisit(
    g: Graph, index: map<NodeNum, nat>, slot: map<Pair, nat>, v: View, seen: set<NodeNum>, start: nat,
    component: map<nat, nat>, group: seq<NodeNum>, stack: seq<nat>, id: nat, stack': seq<nat>)
    requires Represents(g, index, slot, v) && start in g.nodes && stack != []
    requires Searching(g, index, v, seen, start, component, group, stack)
    requires Last(stack) !in component && Last(stack) in g.nodes
    requires forall j | j in Init(stack) :: j in stack'
    requires forall j | j in stack' ::
               j in Init(stack) || (j in g.nodes && Adjacent(v, g.nodes[Last(stack)], g.nodes[j]))
    requires forall b | Adjacent(v, g.nodes[Last(stack)], b) ::
               b in index && (index[b] in component[Last(stack) := id] || index[b] in stack')
    ensures Searching(g, index, v, seen, start, component[Last(stack) := id],
                      group + [g.nodes[Last(stack)]], stack')
  {
    hide Slotted, Connected, Visited;
    var current, num := Last(stack), g.nodes[Last(stack)];
    assert stack == Init(stack) + [current] && current in stack;
    assert Elements(group + [num]) == Elements(group) + {num};
    SearchVisitReach(g, v, start, stack, stack');
    VisitedMore(g, index, component, seen + Elements(group), current, id);
    assert seen + Elements(group) + {num} == seen + Elements(group + [num]);
    assert num !in seen + Elements(group) by { NotVisited(g, component, seen + Elements(group), current); }
  }

  lemma SearchVisitReach(g: Graph, v: View, start: nat, stack: seq<nat>, stack': seq<nat>)
    requires start in g.nodes && stack != []
    requires forall j | j in stack :: j in g.nodes && Connected(v, g.nodes[start], g.nodes[j])
    requires forall j | j in stack' ::
               j in stack || (j in g.nodes && Last(stack) in g.nodes && Adjacent(v, g.nodes[Last(stack)], g.nodes[j]))
    ensures forall j | j in stack' :: j in g.nodes && Connected(v, g.nodes[start], g.nodes[j])
  {
    hide Connected;
    assert Last(stack) in stack;
    forall j | j in stack' && j !in stack ensures Connected(v, g.nodes[start], g.nodes[j]) {
      ConnectedStep(v, g.nodes[start], g.nodes[Last(stack)], g.nodes[j]);
    }
  }

  lemma NotVisited(g: Graph, component: map<nat, nat>, seen: set<NodeNum>, i: nat)
    requires Visited(g, component, seen) && i in g.nodes && i !in component
    ensures g.nodes[i] !in seen
  {
  }

  lemma VisitedMore(g: Graph, index: map<NodeNum, nat>, component: map<nat, nat>, seen: set<NodeNum>, i: nat, id: nat)
    requires Indexed(g, index) && i in g.nodes && Visited(g, component, seen)
    ensures Visited(g, component[i := id], seen + {g.nodes[i]})
  {
  }

  lemma SearchEnd(
    g: Graph, index: map<NodeNum, nat>, slot: map<Pair, nat>, v: View, seen: set<NodeNum>, start: nat,
    component: map<nat, nat>, group: seq<NodeNum>)
    requires Represents(g, index, slot, v) && start in g.nodes && Closed(v, seen)
    requires Searching(g, index, v, seen, start, component, group, [])
    ensures Visited(g, component, seen + Elements(group)) && Closed(v, seen + Elements(group))
    ensures g.nodes[start] in group && Distinct(group) && Elements(group) !! seen
    ensures forall n | n in group :: n in v.nodes && Connected(v, g.nodes[start], n)
  {
    forall a, b | a in group && Adjacent(v, a, b) ensures b in seen + Elements(group) {
      assert index[b] in g.nodes && g.nodes[index[b]] == b;
    }
  }

  /** The groups found so far: disjoint components that make up `seen`. */
  ghost predicate Grouped(v: View, groups: seq<seq<NodeNum>>, seen: set<NodeNum>) {
    && (forall c | 0 <= c < |groups| :: groups[c] != [] && Distinct(groups[c]))
    && (forall c, d | 0 <= c < d < |groups| :: Elements(groups[c]) !! Elements(groups[d]))
    && (forall c, n | 0 <= c < |groups| && n in groups[c] :: n in v.nodes && n in seen)
    && (forall n | n in seen :: exists c :: 0 <= c < |groups| && n in groups[c])
    && (forall c, a, b | 0 <= c < |groups| && a in groups[c] :: b in groups[c] <==> Connected(v, a, b))
  }

  lemma GroupsExtend(v: View, groups: seq<seq<NodeNum>>, seen: set<NodeNum>, group: seq<NodeNum>, start: NodeNum)
    requires Grouped(v, groups, seen) && Closed(v, seen) && Closed(v, seen + Elements(group))
    requires group != [] && Distinct(group) && Elements(group) !! seen && start in v.nodes
    requires forall n | n in group :: n in v.nodes && Connected(v, start, n)
    ensures Grouped(v, groups + [group], seen + Elements(group))
  {
    ClosedDifference(v, seen, seen + Elements(group));
    assert seen + Elements(group) - seen == Elements(group);
    GroupIsComponent(v, group, start);
    hide Closed, Connected;
    var all := groups + [group];
    forall n | n in seen + Elements(group) ensures exists c :: 0 <= c < |all| && n in all[c] {
      if n in seen {
        var c :| 0 <= c < |groups| && n in groups[c];
        assert n in all[c];
      } else {
        assert n in all[|groups|];
      }
    }
  }

  lemma GroupsStart(v: View)
    ensures Grouped(v, [], {}) && Closed(v, {})
  {
  }

  lemma GroupsCover(v: View, groups: seq<seq<NodeNum>>, seen: set<NodeNum>)
    requires Grouped(v, groups, seen) && v.nodes <= seen
    ensures Components(v, groups)
  {
  }
}
