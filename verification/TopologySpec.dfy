/**
 What the mesh topology graph means, independently of how it is stored: a set
 of tracked nodes and at most one link per ordered pair of them. The operations
 that may evict are relations, because the code breaks ties between equally
 cold victims in hash-map order.
 */
module TopologySpec {
  import opened Common

  type NodeNum = nat
  type Pair = (NodeNum, NodeNum)

  /** A signal-to-noise ratio; NaN and the infinities are `NonFinite`. */
  datatype Snr = Finite(db: real) | NonFinite

  datatype Link = Link(snr: Snr, lastObserved: nat, packetCount: nat)

  datatype View = View(nodes: set<NodeNum>, links: map<Pair, Link>)

  datatype Caps = Caps(nodes: nat, links: nat)

  const EMPTY := View({}, map[])

  predicate Touches(k: Pair, n: NodeNum) {
    k.0 == n || k.1 == n
  }

  function SatAdd(a: nat, b: nat): nat {
    if a + b > U32_MAX then U32_MAX else a + b
  }

  /** Every link joins two tracked nodes. */
  ghost predicate Joined(v: View) {
    forall k | k in v.links :: k.0 in v.nodes && k.1 in v.nodes
  }

  ghost predicate Capped(caps: Caps, v: View) {
    |v.nodes| <= caps.nodes && |v.links| <= caps.links
  }

  ghost predicate WellFormed(caps: Caps, v: View) {
    2 <= caps.nodes && 1 <= caps.links && Joined(v) && Capped(caps, v)
  }

  // ----------------------------------------------------------------- eviction

  ghost function TimesOf(v: View, n: NodeNum): set<nat> {
    set k | k in v.links && Touches(k, n) :: v.links[k].lastObserved
  }

  ghost function Latest(times: set<nat>): (m: nat)
    requires times != {}
    ensures m in times && forall t | t in times :: t <= m
  {
    var t :| t in times;
    if times == {t} then t
    else
      assert times == {t} + (times - {t});
      var m := Latest(times - {t});
      if m < t then t else m
  }

  /** Latest observation of any link of `n`; none if it has no links. */
  ghost function Freshness(v: View, n: NodeNum): Option<nat> {
    var times := TimesOf(v, n);
    if times == {} then None else Some(Latest(times))
  }

  predicate AtMost(a: Option<nat>, b: Option<nat>) {
    a.None? || (b.Some? && a.value <= b.value)
  }

  ghost predicate Coldest(v: View, protect: set<NodeNum>, n: NodeNum) {
    && n in v.nodes - protect
    && forall m | m in v.nodes - protect :: AtMost(Freshness(v, n), Freshness(v, m))
  }

  ghost predicate ColdestLink(v: View, k: Pair) {
    k in v.links && forall j | j in v.links :: v.links[k].lastObserved <= v.links[j].lastObserved
  }

  function Without(v: View, gone: set<NodeNum>): View {
    View(v.nodes - gone, map k | k in v.links && k.0 !in gone && k.1 !in gone :: v.links[k])
  }

  function WithNode(v: View, n: NodeNum): View {
    v.(nodes := v.nodes + {n})
  }

  // ------------------------------------------------------------------- steps

  ghost predicate Admits(caps: Caps, v: View, n: NodeNum, protect: set<NodeNum>, v': View) {
    if n in v.nodes then v' == v
    else if |v.nodes| < caps.nodes then v' == WithNode(v, n)
    else exists victim :: Coldest(v, protect, victim) && v' == WithNode(Without(v, {victim}), n)
  }

  ghost predicate Observes(caps: Caps, v: View, k: Pair, snr: Snr, now: nat, v': View) {
    if k in v.links then
      v' == v.(links := v.links[k := Link(snr, now, SatAdd(v.links[k].packetCount, 1))])
    else if |v.links| < caps.links then
      v' == v.(links := v.links[k := Link(snr, now, 1)])
    else
      exists victim ::
        ColdestLink(v, victim) && v' == v.(links := (v.links - {victim})[k := Link(snr, now, 1)])
  }

  ghost predicate UpdatesLink(caps: Caps, v: View, from: NodeNum, to: NodeNum, snr: Snr, now: nat, v': View) {
    if snr.NonFinite? then v' == v
    else exists v1, v2 ::
           && Admits(caps, v, from, {to}, v1)
           && Admits(caps, v1, to, {from}, v2)
           && Observes(caps, v2, (from, to), snr, now, v')
  }

  /** Nodes with no link observed at or after the cutoff. */
  ghost function StaleNodes(v: View, cutoff: nat): set<NodeNum> {
    set n | n in v.nodes && forall k | k in v.links && Touches(k, n) :: v.links[k].lastObserved < cutoff
  }

  ghost function WithoutStaleNodes(v: View, now: nat, timeout: nat): View {
    if now < timeout then v else Without(v, StaleNodes(v, now - timeout))
  }

  ghost function WithoutStaleLinks(v: View, now: nat, timeout: nat): View {
    if now < timeout then v
    else v.(links := map k | k in v.links && v.links[k].lastObserved >= now - timeout :: v.links[k])
  }

  // ------------------------------------------------------------ what steps keep

  lemma WithoutKeeps(caps: Caps, v: View, gone: set<NodeNum>)
    requires WellFormed(caps, v)
    ensures WellFormed(caps, Without(v, gone))
  {
    SubsetSize(v.nodes - gone, v.nodes);
    SubmapSize(Without(v, gone).links, v.links);
  }

  /** Admission tracks the node, drops at most one unprotected node, and alters no surviving link. */
  lemma AdmitsShape(caps: Caps, v: View, n: NodeNum, protect: set<NodeNum>, v': View)
    requires Joined(v) && Admits(caps, v, n, protect, v')
    ensures Joined(v') && n in v'.nodes && v'.nodes <= v.nodes + {n} && v.nodes * protect <= v'.nodes
    ensures forall k | k in v'.links :: k in v.links && v'.links[k] == v.links[k]
    ensures n in v.nodes ==> v' == v
  {
  }

  lemma AdmitsCaps(caps: Caps, v: View, n: NodeNum, protect: set<NodeNum>, v': View)
    requires Capped(caps, v) && Admits(caps, v, n, protect, v')
    ensures Capped(caps, v')
    ensures |v.nodes + {n}| <= caps.nodes ==> v' == WithNode(v, n)
  {
    hide Coldest, Freshness;
    if n in v.nodes {
      assert v.nodes + {n} == v.nodes;
    } else {
      assert |v.nodes + {n}| == |v.nodes| + 1;
      if |v.nodes| >= caps.nodes {
        var victim :| Coldest(v, protect, victim) && v' == WithNode(Without(v, {victim}), n);
        ColdestIsTracked(v, protect, victim);
        WithoutSize(v, victim);
        assert |v'.nodes| <= |Without(v, {victim}).nodes| + 1;
      }
    }
  }

  lemma ColdestIsTracked(v: View, protect: set<NodeNum>, n: NodeNum)
    requires Coldest(v, protect, n)
    ensures n in v.nodes - protect
  {
  }

  lemma WithoutSize(v: View, n: NodeNum)
    requires n in v.nodes
    ensures |Without(v, {n}).nodes| == |v.nodes| - 1 && |Without(v, {n}).links| <= |v.links|
  {
    SubmapSize(Without(v, {n}).links, v.links);
  }

  lemma ObservesShape(caps: Caps, v: View, k: Pair, snr: Snr, now: nat, v': View)
    requires Joined(v) && k.0 in v.nodes && k.1 in v.nodes && Observes(caps, v, k, snr, now, v')
    ensures Joined(v') && v'.nodes == v.nodes && k in v'.links
    ensures v'.links[k] == Link(snr, now, if k in v.links then SatAdd(v.links[k].packetCount, 1) else 1)
    ensures forall j | j in v'.links && j != k :: j in v.links && v'.links[j] == v.links[j]
  {
  }

  lemma ObservesCaps(caps: Caps, v: View, k: Pair, snr: Snr, now: nat, v': View)
    requires Capped(caps, v) && Observes(caps, v, k, snr, now, v')
    ensures Capped(caps, v')
  {
    if k in v.links {
      assert v'.links.Keys == v.links.Keys;
    } else if |v.links| < caps.links {
      assert v'.links.Keys == v.links.Keys + {k};
    } else {
      var victim :| ColdestLink(v, victim) && v' == v.(links := (v.links - {victim})[k := Link(snr, now, 1)]);
      assert v'.links.Keys == (v.links.Keys - {victim}) + {k};
    }
    assert |v'.links| == |v'.links.Keys| && |v.links| == |v.links.Keys|;
  }

  /** Admitting the second endpoint never evicts the first. */
  lemma TwoAdmissionsShape(caps: Caps, v: View, from: NodeNum, to: NodeNum, v1: View, v2: View)
    requires Joined(v) && Admits(caps, v, from, {to}, v1) && Admits(caps, v1, to, {from}, v2)
    ensures Joined(v2) && {from, to} <= v2.nodes <= v.nodes + {from, to}
    ensures forall k | k in v2.links :: k in v.links && v2.links[k] == v.links[k]
    ensures (from, to) in v.links ==> v2 == v
  {
    hide Admits;
    AdmitsShape(caps, v, from, {to}, v1);
    AdmitsShape(caps, v1, to, {from}, v2);
  }

  lemma TwoAdmissionsCaps(caps: Caps, v: View, from: NodeNum, to: NodeNum, v1: View, v2: View)
    requires Capped(caps, v) && Admits(caps, v, from, {to}, v1) && Admits(caps, v1, to, {from}, v2)
    ensures Capped(caps, v2)
    ensures |v.nodes + {from, to}| <= caps.nodes ==> v2 == v.(nodes := v.nodes + {from, to})
  {
    hide Admits;
    AdmitsCaps(caps, v, from, {to}, v1);
    AdmitsCaps(caps, v1, to, {from}, v2);
    BothAdded(v.nodes, from, to);
  }

  lemma BothAdded(s: set<NodeNum>, a: NodeNum, b: NodeNum)
    ensures s + {a} + {b} == s + {a, b} && |s + {a}| <= |s + {a, b}|
  {
    SubsetSize(s + {a}, s + {a, b});
    assert s + {a} + {b} == s + {a, b};
  }

  /**
   An observation with a finite SNR always ends with both endpoints and their
   link in place, even when it evicts, and it alters no other surviving link.
   */
  lemma UpdatesLinkKeeps(caps: Caps, v: View, from: NodeNum, to: NodeNum, snr: Snr, now: nat, v': View)
    requires WellFormed(caps, v) && UpdatesLink(caps, v, from, to, snr, now, v')
    ensures WellFormed(caps, v')
    ensures snr.NonFinite? ==> v' == v
    ensures snr.Finite? ==>
              && {from, to} <= v'.nodes <= v.nodes + {from, to}
              && (from, to) in v'.links
              && v'.links[(from, to)]
                 == Link(snr, now, if (from, to) in v.links then SatAdd(v.links[(from, to)].packetCount, 1) else 1)
              && (forall j | j in v'.links && j != (from, to) :: j in v.links && v'.links[j] == v.links[j])
  {
    if snr.Finite? {
      hide Observes, Admits, Joined, Capped;
      var v1, v2 :| Admits(caps, v, from, {to}, v1) && Admits(caps, v1, to, {from}, v2)
                    && Observes(caps, v2, (from, to), snr, now, v');
      TwoAdmissionsShape(caps, v, from, to, v1, v2);
      TwoAdmissionsCaps(caps, v, from, to, v1, v2);
      ObservesShape(caps, v2, (from, to), snr, now, v');
      ObservesCaps(caps, v2, (from, to), snr, now, v');
    }
  }

  // ----------------------------------------------------------- who is evicted

  /** No link of `cold` was observed later than some link of `warm`. */
  ghost predicate NoFresher(v: View, cold: NodeNum, warm: NodeNum) {
    forall k | k in v.links && (k.0 == cold || k.1 == cold) ::
      exists j :: j in v.links && (j.0 == warm || j.1 == warm) && v.links[k].lastObserved <= v.links[j].lastObserved
  }

  lemma ColdestIsNoFresher(v: View, protect: set<NodeNum>, cold: NodeNum, warm: NodeNum)
    requires Coldest(v, protect, cold) && warm in v.nodes - protect
    ensures NoFresher(v, cold, warm)
  {
    assert AtMost(Freshness(v, cold), Freshness(v, warm));
    forall k | k in v.links && (k.0 == cold || k.1 == cold)
      ensures exists j :: && j in v.links && (j.0 == warm || j.1 == warm)
                          && v.links[k].lastObserved <= v.links[j].lastObserved
    {
      assert Touches(k, cold) && v.links[k].lastObserved in TimesOf(v, cold);
      assert v.links[k].lastObserved <= Latest(TimesOf(v, cold)) <= Latest(TimesOf(v, warm));
      var j :| j in v.links && Touches(j, warm) && v.links[j].lastObserved == Latest(TimesOf(v, warm));
    }
  }

  /**
   One unprotected node goes, with its links and no others, to make room for
   `n`; no unprotected node was staler.
   */
  ghost predicate EvictsColdest(v: View, n: NodeNum, protect: set<NodeNum>, cold: NodeNum, v': View) {
    && cold in v.nodes - protect && v'.nodes == (v.nodes - {cold}) + {n}
    && (forall warm | warm in v.nodes - protect :: NoFresher(v, cold, warm))
    && (forall k :: k in v'.links <==> k in v.links && k.0 != cold && k.1 != cold)
    && (forall k | k in v'.links :: v'.links[k] == v.links[k])
  }

  lemma ColdestIsEvicted(v: View, n: NodeNum, protect: set<NodeNum>, cold: NodeNum)
    requires Coldest(v, protect, cold)
    ensures EvictsColdest(v, n, protect, cold, WithNode(Without(v, {cold}), n))
  {
    hide NoFresher, Coldest;
    ColdestBeatsAll(v, protect, cold);
  }

  lemma ColdestBeatsAll(v: View, protect: set<NodeNum>, cold: NodeNum)
    requires Coldest(v, protect, cold)
    ensures cold in v.nodes - protect && forall warm | warm in v.nodes - protect :: NoFresher(v, cold, warm)
  {
    assert cold in v.nodes - protect;
    hide NoFresher, Coldest;
    forall warm | warm in v.nodes - protect ensures NoFresher(v, cold, warm) {
      ColdestIsNoFresher(v, protect, cold, warm);
    }
  }

  /** A node is evicted exactly when a new one finds the table full. */
  lemma AdmissionEvictsTheColdest(caps: Caps, v: View, n: NodeNum, protect: set<NodeNum>, v': View)
    requires Admits(caps, v, n, protect, v')
    ensures if n in v.nodes || |v.nodes| < caps.nodes then v' == View(v.nodes + {n}, v.links)
            else exists cold :: EvictsColdest(v, n, protect, cold, v')
  {
    hide EvictsColdest, Coldest;
    if n in v.nodes {
      assert v.nodes + {n} == v.nodes;
    } else if |v.nodes| >= caps.nodes {
      var cold :| Coldest(v, protect, cold) && v' == WithNode(Without(v, {cold}), n);
      ColdestIsEvicted(v, n, protect, cold);
    }
  }

  /** A link is evicted exactly when a new pair finds the table full: just one, observed no later than any other. */
  lemma ObservationEvictsTheColdest(caps: Caps, v: View, k: Pair, snr: Snr, now: nat, v': View)
    requires Observes(caps, v, k, snr, now, v')
    ensures v'.nodes == v.nodes && k in v'.links && v'.links[k].snr == snr && v'.links[k].lastObserved == now
    ensures v'.links[k].packetCount
            == if k !in v.links then 1
               else if v.links[k].packetCount < U32_MAX then v.links[k].packetCount + 1 else U32_MAX
    ensures if k in v.links || |v.links| < caps.links then v'.links - {k} == v.links - {k}
            else exists cold ::
                   && cold in v.links && v'.links - {k} == v.links - {cold}
                   && forall j | j in v.links :: v.links[cold].lastObserved <= v.links[j].lastObserved
  {
    if k !in v.links && |v.links| >= caps.links {
      var cold :| ColdestLink(v, cold) && v' == v.(links := (v.links - {cold})[k := Link(snr, now, 1)]);
      assert v'.links - {k} == v.links - {cold};
    }
  }

  /** When everything fits, an observation changes that one link and nothing else. */
  lemma UpdatesLinkWithRoom(caps: Caps, v: View, from: NodeNum, to: NodeNum, snr: Snr, now: nat, v': View)
    requires WellFormed(caps, v) && UpdatesLink(caps, v, from, to, snr, now, v') && snr.Finite?
    requires |v.nodes + {from, to}| <= caps.nodes
    requires (from, to) in v.links || |v.links| < caps.links
    ensures (from, to) in v'.links
    ensures v' == View(v.nodes + {from, to}, v.links[(from, to) := v'.links[(from, to)]])
  {
    var v1, v2 :| Admits(caps, v, from, {to}, v1) && Admits(caps, v1, to, {from}, v2)
                  && Observes(caps, v2, (from, to), snr, now, v');
    TwoAdmissionsCaps(caps, v, from, to, v1, v2);
  }

  /** Pruning removes no link observed at or after the cutoff. */
  lemma PruningKeepsRecentLink(v: View, cutoff: nat, k: Pair)
    requires k in v.links && k.0 in v.nodes && k.1 in v.nodes && v.links[k].lastObserved >= cutoff
    ensures k in Without(v, StaleNodes(v, cutoff)).links
  {
    assert Touches(k, k.0) && Touches(k, k.1);
  }

  /** A node that survives pruning keeps a link observed at or after the cutoff. */
  lemma SurvivorIsNotStale(v: View, cutoff: nat, n: NodeNum)
    requires Joined(v)
    requires n in Without(v, StaleNodes(v, cutoff)).nodes
    ensures n !in StaleNodes(Without(v, StaleNodes(v, cutoff)), cutoff)
  {
    var k :| k in v.links && Touches(k, n) && v.links[k].lastObserved >= cutoff;
    PruningKeepsRecentLink(v, cutoff, k);
  }

  /** Some link of `n` was observed no longer than `timeout` ago. */
  ghost predicate HeardSince(v: View, n: NodeNum, now: nat, timeout: nat) {
    exists k :: k in v.links && (k.0 == n || k.1 == n) && v.links[k].lastObserved + timeout >= now
  }

  /**
   Pruning nodes keeps exactly those with a link observed within the timeout (all
   of them while the clock is below it), keeps exactly the links between nodes
   it keeps, and alters none. So no link observed within the timeout is lost.
   */
  lemma StalePruningIsExact(v: View, now: nat, timeout: nat)
    requires Joined(v)
    ensures var v' := WithoutStaleNodes(v, now, timeout);
            && (forall n :: n in v'.nodes <==> n in v.nodes && (now < timeout || HeardSince(v, n, now, timeout)))
            && (forall k :: k in v'.links <==> k in v.links && k.0 in v'.nodes && k.1 in v'.nodes)
            && (forall k | k in v'.links :: v'.links[k] == v.links[k])
            && (forall k | k in v.links && v.links[k].lastObserved + timeout >= now :: k in v'.links)
  {
    if timeout <= now {
      forall n | n in v.nodes
        ensures n in StaleNodes(v, now - timeout) <==> !HeardSince(v, n, now, timeout)
      {
        StaleIffUnheard(v, n, now, timeout);
      }
      forall k | k in v.links && v.links[k].lastObserved + timeout >= now
        ensures k in WithoutStaleNodes(v, now, timeout).links
      {
        PruningKeepsRecentLink(v, now - timeout, k);
      }
    }
  }

  lemma StaleIffUnheard(v: View, n: NodeNum, now: nat, timeout: nat)
    requires timeout <= now && n in v.nodes
    ensures n in StaleNodes(v, now - timeout) <==> !HeardSince(v, n, now, timeout)
  {
  }

  /** Pruning links keeps exactly those observed within the timeout, unaltered, and every node. */
  lemma StaleLinksAreExact(v: View, now: nat, timeout: nat)
    ensures var v' := WithoutStaleLinks(v, now, timeout);
            && v'.nodes == v.nodes
            && (forall k :: k in v'.links <==> k in v.links && v.links[k].lastObserved + timeout >= now)
            && (forall k | k in v'.links :: v'.links[k] == v.links[k])
  {
  }

  lemma NoStaleNodeRemains(v: View, now: nat, timeout: nat)
    requires Joined(v) && timeout <= now
    ensures StaleNodes(WithoutStaleNodes(v, now, timeout), now - timeout) == {}
  {
    hide Joined;
    var cutoff := now - timeout;
    forall n | n in Without(v, StaleNodes(v, cutoff)).nodes
      ensures n !in StaleNodes(Without(v, StaleNodes(v, cutoff)), cutoff)
    {
      SurvivorIsNotStale(v, cutoff, n);
    }
  }

  lemma WithoutTwice(v: View, a: set<NodeNum>, b: set<NodeNum>)
    ensures Without(Without(v, a), b) == Without(v, a + b)
  {
    assert Without(Without(v, a), b).links == Without(v, a + b).links;
  }

  lemma WithoutNothing(v: View)
    ensures Without(v, {}) == v
  {
    assert Without(v, {}).links == v.links;
  }

  /** A second pass with the same cutoff has nothing left to do. */
  lemma StalePruningIsIdempotent(v: View, now: nat, timeout: nat)
    requires Joined(v)
    ensures WithoutStaleNodes(WithoutStaleNodes(v, now, timeout), now, timeout) == WithoutStaleNodes(v, now, timeout)
  {
    if timeout <= now {
      hide StaleNodes, Without, Joined;
      NoStaleNodeRemains(v, now, timeout);
      WithoutNothing(WithoutStaleNodes(v, now, timeout));
    }
  }

  lemma StaleLinksKeep(caps: Caps, v: View, now: nat, timeout: nat)
    requires WellFormed(caps, v)
    ensures WellFormed(caps, WithoutStaleLinks(v, now, timeout))
  {
    SubmapSize(WithoutStaleLinks(v, now, timeout).links, v.links);
  }
}
