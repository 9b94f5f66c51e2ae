/**
 Snapshots of the topology: what saving writes, what restoring builds, and
 exactly when a restart loses nothing. A document stands for the JSON text; of
 JSON it keeps how numbers are written and read back.
 */
module TopologySnapshot {
  import opened Common
  import opened TopologySpec

  datatype LinkSnapshot = LinkSnapshot(from: NodeNum, to: NodeNum, snr: Snr, packetCount: nat) {
    function Ends(): Pair { (from, to) }

    predicate Touches(n: NodeNum) { from == n || to == n }
  }

  datatype Snapshot = Snapshot(nodes: seq<NodeNum>, links: seq<LinkSnapshot>)

  function EndsOf(links: seq<LinkSnapshot>): (ks: seq<Pair>)
    ensures |ks| == |links| && forall i | 0 <= i < |links| :: ks[i] == links[i].Ends()
  {
    seq(|links|, i requires 0 <= i < |links| => links[i].Ends())
  }

  // ---------------------------------------------------------------- documents

  /**
   A JSON value where a 32-bit float is expected: a number in the float's range,
   a number beyond it, or the null that is written for NaN and the infinities.
   */
  datatype JsonNumber = InRange(db: real) | BeyondRange | Null

  datatype JsonLink = JsonLink(from: NodeNum, to: NodeNum, snr: JsonNumber, packetCount: nat)

  datatype Document = Document(nodes: seq<NodeNum>, links: seq<JsonLink>)

  function WriteSnr(snr: Snr): JsonNumber {
    match snr
    case Finite(db) => InRange(db)
    case NonFinite => Null
  }

  /** A null is refused where a number is expected; a number beyond the range becomes an infinity. */
  function ReadSnr(n: JsonNumber): Option<Snr> {
    match n
    case InRange(db) => Some(Finite(db))
    case BeyondRange => Some(NonFinite)
    case Null => None
  }

  function WriteLink(l: LinkSnapshot): JsonLink {
    JsonLink(l.from, l.to, WriteSnr(l.snr), l.packetCount)
  }

  function WriteLinks(links: seq<LinkSnapshot>): seq<JsonLink> {
    seq(|links|, i requires 0 <= i < |links| => WriteLink(links[i]))
  }

  function ReadLinks(links: seq<JsonLink>): Option<seq<LinkSnapshot>> {
    if links == [] then Some([])
    else
      var init, l := ReadLinks(Init(links)), Last(links);
      var snr := ReadSnr(l.snr);
      if init.None? || snr.None? then None
      else Some(init.value + [LinkSnapshot(l.from, l.to, snr.value, l.packetCount)])
  }

  function Written(snap: Snapshot): Document {
    Document(snap.nodes, WriteLinks(snap.links))
  }

  function Parsed(doc: Document): Option<Snapshot> {
    var links := ReadLinks(doc.links);
    if links.None? then None else Some(Snapshot(doc.nodes, links.value))
  }

  ghost predicate FiniteLinks(links: seq<LinkSnapshot>) {
    forall l | l in links :: l.snr.Finite?
  }

  lemma {:induction false} LinksRoundTrip(links: seq<LinkSnapshot>)
    ensures ReadLinks(WriteLinks(links)) == if FiniteLinks(links) then Some(links) else None
  {
    if links == [] {
    } else {
      var init, l := Init(links), Last(links);
      LinksRoundTrip(init);
      assert Init(WriteLinks(links)) == WriteLinks(init);
      assert links == init + [l];
      assert FiniteLinks(links) <==> FiniteLinks(init) && l.snr.Finite?;
    }
  }

  /** A written snapshot reads back as itself if every SNR is finite, and is refused otherwise. */
  lemma DocumentRoundTrip(snap: Snapshot)
    ensures Parsed(Written(snap)) == if FiniteLinks(snap.links) then Some(snap) else None
  {
    LinksRoundTrip(snap.links);
  }

  // ------------------------------------------------------------------ saving

  ghost predicate AllFinite(v: View) {
    forall k | k in v.links :: v.links[k].snr.Finite?
  }

  ghost predicate Matches(v: View, l: LinkSnapshot) {
    && l.Ends() in v.links
    && v.links[l.Ends()].snr == l.snr && v.links[l.Ends()].packetCount == l.packetCount
  }

  /** `snap` lists the nodes and links of `v` once each, in some order. */
  ghost predicate Lists(v: View, snap: Snapshot) {
    && Distinct(snap.nodes) && Elements(snap.nodes) == v.nodes
    && Distinct(EndsOf(snap.links)) && Elements(EndsOf(snap.links)) == v.links.Keys
    && forall l | l in snap.links :: Matches(v, l)
  }

  /** `doc` is what `save_to_bytes` may write for `v`. */
  ghost predicate Saves(v: View, doc: Document) {
    exists snap :: Lists(v, snap) && doc == Written(snap)
  }

  lemma ListingIsFinite(v: View, snap: Snapshot)
    requires Lists(v, snap)
    ensures FiniteLinks(snap.links) <==> AllFinite(v)
  {
    if FiniteLinks(snap.links) {
      forall k | k in v.links ensures v.links[k].snr.Finite? {
        var i :| 0 <= i < |snap.links| && EndsOf(snap.links)[i] == k;
        assert Matches(v, snap.links[i]);
      }
    }
    if AllFinite(v) {
      forall l | l in snap.links ensures l.snr.Finite? {
        assert Matches(v, l);
      }
    }
  }

  // --------------------------------------------------------------- restoring

  /** A restored link: a repeated pair folds, the last SNR winning and the counts adding. */
  function Fold(links: map<Pair, Link>, l: LinkSnapshot, now: nat): map<Pair, Link> {
    var k := l.Ends();
    links[k := if k in links
               then Link(l.snr, links[k].lastObserved, SatAdd(links[k].packetCount, l.packetCount))
               else Link(l.snr, now, l.packetCount)]
  }

  ghost predicate Restores(caps: Caps, v: View, l: LinkSnapshot, now: nat, v': View) {
    exists v1, v2 ::
      && Admits(caps, v, l.from, {l.to}, v1)
      && Admits(caps, v1, l.to, {l.from}, v2)
      && v' == v2.(links := Fold(v2.links, l, now))
  }

  ghost predicate Loads(caps: Caps, nodes: seq<NodeNum>, links: seq<LinkSnapshot>, now: nat, v: View)
    decreases |nodes| + |links|
  {
    if links != [] then
      exists u :: Loads(caps, nodes, Init(links), now, u) && Restores(caps, u, Last(links), now, v)
    else if nodes != [] then
      exists u :: Loads(caps, Init(nodes), [], now, u) && Admits(caps, u, Last(nodes), {}, v)
    else
      v == EMPTY
  }

  ghost predicate LoadsSnapshot(caps: Caps, snap: Snapshot, now: nat, v: View) {
    Loads(caps, Take(snap.nodes, caps.nodes), Take(snap.links, caps.links), now, v)
  }

  /** What `load_from_bytes` may build from a document of any shape; none if it does not parse. */
  ghost predicate LoadsDocument(caps: Caps, doc: Document, now: nat, r: Option<View>) {
    match Parsed(doc)
    case None => r == None
    case Some(snap) => r.Some? && LoadsSnapshot(caps, snap, now, r.value)
  }

  lemma LoadsNothing(caps: Caps, now: nat)
    ensures Loads(caps, [], [], now, EMPTY)
  {
  }

  lemma LoadsNode(caps: Caps, nodes: seq<NodeNum>, i: nat, now: nat, u: View, v: View)
    requires i < |nodes| && Loads(caps, nodes[..i], [], now, u) && Admits(caps, u, nodes[i], {}, v)
    ensures Loads(caps, nodes[..i + 1], [], now, v)
  {
    assert Init(nodes[..i + 1]) == nodes[..i] && Last(nodes[..i + 1]) == nodes[i];
  }

  lemma LoadsLink(caps: Caps, nodes: seq<NodeNum>, links: seq<LinkSnapshot>, i: nat, now: nat, u: View, v: View)
    requires i < |links| && Loads(caps, nodes, links[..i], now, u) && Restores(caps, u, links[i], now, v)
    ensures Loads(caps, nodes, links[..i + 1], now, v)
  {
    assert Init(links[..i + 1]) == links[..i] && Last(links[..i + 1]) == links[i];
  }

  lemma RestoresShape(caps: Caps, v: View, l: LinkSnapshot, now: nat, v': View)
    requires Joined(v) && Restores(caps, v, l, now, v')
    ensures Joined(v')
  {
    hide Admits;
    var v1, v2 :| Admits(caps, v, l.from, {l.to}, v1) && Admits(caps, v1, l.to, {l.from}, v2)
                  && v' == v2.(links := Fold(v2.links, l, now));
    TwoAdmissionsShape(caps, v, l.from, l.to, v1, v2);
  }

  lemma RestoresCaps(caps: Caps, v: View, l: LinkSnapshot, now: nat, v': View)
    requires |v.nodes| <= caps.nodes && Restores(caps, v, l, now, v')
    ensures |v'.nodes| <= caps.nodes && |v'.links| <= |v.links| + 1
  {
    hide Admits;
    var v1, v2 :| Admits(caps, v, l.from, {l.to}, v1) && Admits(caps, v1, l.to, {l.from}, v2)
                  && v' == v2.(links := Fold(v2.links, l, now));
    LinksOnlyShrink(caps, v, l.from, l.to, v1, v2);
    FoldSize(v2.links, l, now);
  }

  lemma FoldSize(links: map<Pair, Link>, l: LinkSnapshot, now: nat)
    ensures |Fold(links, l, now)| <= |links| + 1
  {
    assert Fold(links, l, now).Keys == links.Keys + {l.Ends()};
    assert |Fold(links, l, now)| == |Fold(links, l, now).Keys| && |links| == |links.Keys|;
  }

  lemma LinksOnlyShrink(caps: Caps, v: View, from: NodeNum, to: NodeNum, v1: View, v2: View)
    requires |v.nodes| <= caps.nodes && Admits(caps, v, from, {to}, v1) && Admits(caps, v1, to, {from}, v2)
    ensures |v2.nodes| <= caps.nodes && |v2.links| <= |v.links|
    ensures |v.nodes + {from, to}| <= caps.nodes ==> v2 == v.(nodes := v.nodes + {from, to})
  {
    hide Admits;
    var wide := caps.(links := |v.links|);
    AdmitsAnyLinkCap(caps, wide, v, from, {to}, v1);
    AdmitsAnyLinkCap(caps, wide, v1, to, {from}, v2);
    TwoAdmissionsCaps(wide, v, from, to, v1, v2);
  }

  lemma AdmitsAnyLinkCap(caps: Caps, caps': Caps, v: View, n: NodeNum, protect: set<NodeNum>, v': View)
    requires caps.nodes == caps'.nodes && Admits(caps, v, n, protect, v')
    ensures Admits(caps', v, n, protect, v')
  {
  }

  /** Whatever the snapshot holds, the restored topology is well formed and within both caps. */
  lemma {:induction false} LoadsKeeps(caps: Caps, nodes: seq<NodeNum>, links: seq<LinkSnapshot>, now: nat, v: View)
    requires 2 <= caps.nodes && Loads(caps, nodes, links, now, v)
    ensures Joined(v) && |v.nodes| <= caps.nodes && |v.links| <= |links|
    decreases |nodes| + |links|
  {
    if links != [] {
      var u :| Loads(caps, nodes, Init(links), now, u) && Restores(caps, u, Last(links), now, v);
      LoadsKeeps(caps, nodes, Init(links), now, u);
      RestoresShape(caps, u, Last(links), now, v);
      RestoresCaps(caps, u, Last(links), now, v);
    } else if nodes != [] {
      var u :| Loads(caps, Init(nodes), [], now, u) && Admits(caps, u, Last(nodes), {}, v);
      LoadsKeeps(caps, Init(nodes), [], now, u);
      AdmitsAnyLinkCap(caps, caps.(links := 0), u, Last(nodes), {}, v);
      AdmitsShape(caps, u, Last(nodes), {}, v);
      AdmitsCaps(caps.(links := 0), u, Last(nodes), {}, v);
    } else {
      assert v == EMPTY;
    }
  }

  lemma LoadedIsWellFormed(caps: Caps, snap: Snapshot, now: nat, v: View)
    requires 2 <= caps.nodes && 1 <= caps.links && LoadsSnapshot(caps, snap, now, v)
    ensures WellFormed(caps, v)
  {
    LoadsKeeps(caps, Take(snap.nodes, caps.nodes), Take(snap.links, caps.links), now, v);
  }

  // ------------------------------------------- restoring when everything fits

  function Mentioned(nodes: seq<NodeNum>, links: seq<LinkSnapshot>): set<NodeNum> {
    Elements(nodes) + (set l | l in links :: l.from) + (set l | l in links :: l.to)
  }

  function Folded(links: seq<LinkSnapshot>, now: nat): map<Pair, Link> {
    if links == [] then map[]
    else Fold(Folded(Init(links), now), Last(links), now)
  }

  lemma MentionedLast(nodes: seq<NodeNum>, links: seq<LinkSnapshot>)
    requires links != []
    ensures var l := Last(links);
            Mentioned(nodes, links) == Mentioned(nodes, Init(links)) + {l.from, l.to}
  {
    var l := Last(links);
    assert links == Init(links) + [l];
    assert (set x | x in links :: x.from) == (set x | x in Init(links) :: x.from) + {l.from};
    assert (set x | x in links :: x.to) == (set x | x in Init(links) :: x.to) + {l.to};
  }

  lemma MentionedLastNode(nodes: seq<NodeNum>)
    requires nodes != []
    ensures Mentioned(nodes, []) == Mentioned(Init(nodes), []) + {Last(nodes)}
  {
    assert nodes == Init(nodes) + [Last(nodes)];
  }

  /** If all mentioned nodes fit, nothing is evicted: the result is the mentioned nodes and the folded links. */
  lemma {:induction false} LoadsWhenItFits(
    caps: Caps, nodes: seq<NodeNum>, links: seq<LinkSnapshot>, now: nat, v: View)
    requires 2 <= caps.nodes && Loads(caps, nodes, links, now, v) && |Mentioned(nodes, links)| <= caps.nodes
    ensures v == View(Mentioned(nodes, links), Folded(links, now))
    decreases |nodes| + |links|
  {
    if links != [] {
      var init, l := Init(links), Last(links);
      var u :| Loads(caps, nodes, init, now, u) && Restores(caps, u, l, now, v);
      MentionedLast(nodes, links);
      SubsetSize(Mentioned(nodes, init), Mentioned(nodes, links));
      LoadsWhenItFits(caps, nodes, init, now, u);
      RestoresWithRoom(caps, u, l, now, v);
    } else if nodes != [] {
      var init, n := Init(nodes), Last(nodes);
      var u :| Loads(caps, init, [], now, u) && Admits(caps, u, n, {}, v);
      MentionedLastNode(nodes);
      SubsetSize(Mentioned(init, []), Mentioned(nodes, []));
      LoadsWhenItFits(caps, init, [], now, u);
      AdmitsAnyLinkCap(caps, caps.(links := 0), u, n, {}, v);
      AdmitsCaps(caps.(links := 0), u, n, {}, v);
    } else {
      assert v == EMPTY;
    }
  }

  /** Whatever the snapshot, only listed nodes and ends of listed links within the caps are restored. */
  lemma {:induction false} LoadsOnlyListed(caps: Caps, nodes: seq<NodeNum>, links: seq<LinkSnapshot>, now: nat, v: View)
    requires 2 <= caps.nodes && Loads(caps, nodes, links, now, v)
    ensures v.nodes <= Mentioned(nodes, links) && v.links.Keys <= Elements(EndsOf(links))
    decreases |nodes| + |links|
  {
    hide Mentioned, Restores, Admits;
    if links != [] {
      var u :| Loads(caps, nodes, Init(links), now, u) && Restores(caps, u, Last(links), now, v);
      LoadsOnlyListed(caps, nodes, Init(links), now, u);
      LoadsKeeps(caps, nodes, Init(links), now, u);
      RestoresOnly(caps, u, Last(links), now, v);
      MentionedLast(nodes, links);
      assert EndsOf(links) == EndsOf(Init(links)) + [Last(links).Ends()];
    } else if nodes != [] {
      var u :| Loads(caps, Init(nodes), [], now, u) && Admits(caps, u, Last(nodes), {}, v);
      LoadsOnlyListed(caps, Init(nodes), [], now, u);
      LoadsKeeps(caps, Init(nodes), [], now, u);
      AdmitsShape(caps, u, Last(nodes), {}, v);
      MentionedLastNode(nodes);
    } else {
      assert v == EMPTY;
    }
  }

  /** A snapshot larger than the caps is cut: only its first nodes and first links count. */
  lemma LoadedFromPrefix(caps: Caps, snap: Snapshot, now: nat, v: View)
    requires 2 <= caps.nodes && LoadsSnapshot(caps, snap, now, v)
    ensures forall k | k in v.links :: exists i :: 0 <= i < |snap.links| && i < caps.links && snap.links[i].Ends() == k
    ensures forall n | n in v.nodes ::
              || (exists i :: 0 <= i < |snap.nodes| && i < caps.nodes && snap.nodes[i] == n)
              || (exists i :: 0 <= i < |snap.links| && i < caps.links && snap.links[i].Touches(n))
  {
    hide Loads;
    var nodes, links := Take(snap.nodes, caps.nodes), Take(snap.links, caps.links);
    LoadsOnlyListed(caps, nodes, links, now, v);
    forall k | k in v.links ensures exists i :: 0 <= i < |snap.links| && i < caps.links && snap.links[i].Ends() == k {
      assert k in Elements(EndsOf(links));
      var i :| 0 <= i < |links| && EndsOf(links)[i] == k;
      assert snap.links[i] == links[i];
    }
    forall n | n in v.nodes
      ensures || (exists i :: 0 <= i < |snap.nodes| && i < caps.nodes && snap.nodes[i] == n)
              || (exists i :: 0 <= i < |snap.links| && i < caps.links && snap.links[i].Touches(n))
    {
      MentionedAt(nodes, links, n);
      if i :| 0 <= i < |nodes| && nodes[i] == n {
        assert snap.nodes[i] == n;
      } else {
        var i :| 0 <= i < |links| && links[i].Touches(n);
        assert snap.links[i] == links[i];
      }
    }
  }

  lemma MentionedAt(nodes: seq<NodeNum>, links: seq<LinkSnapshot>, n: NodeNum)
    requires n in Mentioned(nodes, links)
    ensures || (exists i :: 0 <= i < |nodes| && nodes[i] == n)
            || (exists i :: 0 <= i < |links| && links[i].Touches(n))
  {
    if n in Elements(nodes) {
      assert n in nodes;
    } else {
      var l :| l in links && (l.from == n || l.to == n);
      var i :| 0 <= i < |links| && links[i] == l;
    }
  }

  lemma RestoresOnly(caps: Caps, v: View, l: LinkSnapshot, now: nat, v': View)
    requires Joined(v) && Restores(caps, v, l, now, v')
    ensures v'.nodes <= v.nodes + {l.from, l.to} && v'.links.Keys <= v.links.Keys + {l.Ends()}
  {
    hide Admits;
    var v1, v2 :| Admits(caps, v, l.from, {l.to}, v1) && Admits(caps, v1, l.to, {l.from}, v2)
                  && v' == v2.(links := Fold(v2.links, l, now));
    TwoAdmissionsShape(caps, v, l.from, l.to, v1, v2);
  }

  lemma RestoresWithRoom(caps: Caps, v: View, l: LinkSnapshot, now: nat, v': View)
    requires Restores(caps, v, l, now, v') && |v.nodes + {l.from, l.to}| <= caps.nodes
    ensures v' == View(v.nodes + {l.from, l.to}, Fold(v.links, l, now))
  {
    var v1, v2 :| Admits(caps, v, l.from, {l.to}, v1) && Admits(caps, v1, l.to, {l.from}, v2)
                  && v' == v2.(links := Fold(v2.links, l, now));
    hide Admits;
    SubsetSize(v.nodes, v.nodes + {l.from, l.to});
    LinksOnlyShrink(caps, v, l.from, l.to, v1, v2);
  }

  // -------------------------------------------------------------- round trip

  /** The same topology with every link observed at `now`. */
  function Restamped(v: View, now: nat): View {
    View(v.nodes, map k | k in v.links :: v.links[k].(lastObserved := now))
  }

  /** Sum of the counts listed for one pair. */
  function CountOf(links: seq<LinkSnapshot>, k: Pair): nat {
    if links == [] then 0
    else CountOf(Init(links), k) + (if Last(links).Ends() == k then Last(links).packetCount else 0)
  }

  /** A repeated pair folds to one link: the SNR listed last, and the sum of the counts, up to the counter's limit. */
  lemma {:induction false} FoldedIsLastAndSum(links: seq<LinkSnapshot>, now: nat, i: nat)
    requires i < |links| && forall j | i < j < |links| :: links[j].Ends() != links[i].Ends()
    requires forall j | 0 <= j < |links| :: links[j].packetCount <= U32_MAX
    ensures links[i].Ends() in Folded(links, now)
    ensures var k := links[i].Ends();
            && Folded(links, now)[k].snr == links[i].snr && Folded(links, now)[k].lastObserved == now
            && Folded(links, now)[k].packetCount == if CountOf(links, k) <= U32_MAX then CountOf(links, k) else U32_MAX
    decreases |links|
  {
    var k, init := links[i].Ends(), Init(links);
    if i < |links| - 1 {
      FoldedIsLastAndSum(init, now, i);
    } else if k in Folded(init, now) {
      var j := LastListed(init, now, k);
      FoldedIsLastAndSum(init, now, j);
    } else {
      NotListed(init, now, k);
    }
  }

  lemma {:induction false} LastListed(links: seq<LinkSnapshot>, now: nat, k: Pair) returns (i: nat)
    requires k in Folded(links, now)
    ensures i < |links| && links[i].Ends() == k && forall j | i < j < |links| :: links[j].Ends() != k
    decreases |links|
  {
    if Last(links).Ends() == k {
      i := |links| - 1;
    } else {
      i := LastListed(Init(links), now, k);
    }
  }

  lemma {:induction false} NotListed(links: seq<LinkSnapshot>, now: nat, k: Pair)
    requires k !in Folded(links, now)
    ensures CountOf(links, k) == 0
    decreases |links|
  {
    if links == [] {
    } else {
      NotListed(Init(links), now, k);
    }
  }

  lemma {:induction false} FoldedKeys(links: seq<LinkSnapshot>, now: nat)
    ensures Folded(links, now).Keys == Elements(EndsOf(links))
  {
    if links == [] {
    } else {
      FoldedKeys(Init(links), now);
      assert EndsOf(links) == EndsOf(Init(links)) + [Last(links).Ends()];
    }
  }

  /** Folding pairwise distinct links keeps each as it was listed. */
  lemma {:induction false} FoldedAt(links: seq<LinkSnapshot>, now: nat, i: nat)
    requires Distinct(EndsOf(links)) && i < |links|
    ensures links[i].Ends() in Folded(links, now)
    ensures Folded(links, now)[links[i].Ends()] == Link(links[i].snr, now, links[i].packetCount)
  {
    var init, ends := Init(links), EndsOf(links);
    assert EndsOf(init) == Init(ends);
    FoldedKeys(init, now);
    if i < |init| {
      assert ends[i] != Last(ends);
      FoldedAt(init, now, i);
    } else {
      assert Last(ends) !in Init(ends);
    }
  }

  lemma FoldedListing(v: View, snap: Snapshot, now: nat)
    requires Lists(v, snap)
    ensures Folded(snap.links, now) == Restamped(v, now).links
  {
    hide Folded;
    FoldedKeys(snap.links, now);
    forall k | k in v.links
      ensures Folded(snap.links, now)[k] == v.links[k].(lastObserved := now)
    {
      var i :| 0 <= i < |snap.links| && EndsOf(snap.links)[i] == k;
      FoldedAt(snap.links, now, i);
      assert Matches(v, snap.links[i]);
    }
  }

  lemma ListingMentions(v: View, snap: Snapshot)
    requires Joined(v) && Lists(v, snap)
    ensures Mentioned(snap.nodes, snap.links) == v.nodes
  {
    forall l | l in snap.links ensures l.from in v.nodes && l.to in v.nodes {
      assert Matches(v, l);
    }
  }

  lemma ListingFits(caps: Caps, v: View, snap: Snapshot)
    requires Capped(caps, v) && Lists(v, snap)
    ensures |snap.nodes| <= caps.nodes && |snap.links| <= caps.links
  {
    DistinctCount(snap.nodes);
    DistinctCount(EndsOf(snap.links));
    assert |v.links| == |v.links.Keys|;
  }

  lemma ListingRoundTrip(caps: Caps, v: View, snap: Snapshot, now: nat, v': View)
    requires WellFormed(caps, v) && Lists(v, snap) && LoadsSnapshot(caps, snap, now, v')
    ensures v' == Restamped(v, now)
  {
    hide Lists, Joined, Loads, Restamped, Folded;
    ListingFits(caps, v, snap);
    ListingMentions(v, snap);
    assert v.nodes == Mentioned(snap.nodes, snap.links);
    LoadsWhenItFits(caps, snap.nodes, snap.links, now, v');
    FoldedListing(v, snap, now);
    RestampedNodes(v, now);
  }

  /**
   Restart: if every SNR is finite, restoring what was saved, in whatever order,
   gives the same nodes and the same links with the same SNR and packet count,
   all stamped with the time of the restore. If one is not, the saved document
   cannot be restored at all.
   */
  lemma SnapshotRoundTrip(caps: Caps, v: View, doc: Document, now: nat, r: Option<View>)
    requires WellFormed(caps, v) && Saves(v, doc) && LoadsDocument(caps, doc, now, r)
    ensures r == if AllFinite(v) then Some(Restamped(v, now)) else None
  {
    hide Lists, Loads, Restamped, Written, Parsed, FiniteLinks, AllFinite;
    var snap :| Lists(v, snap) && doc == Written(snap);
    DocumentRoundTrip(snap);
    ListingIsFinite(v, snap);
    if AllFinite(v) {
      ListingRoundTrip(caps, v, snap, now, r.value);
    }
  }

  lemma RestampedNodes(v: View, now: nat)
    ensures Restamped(v, now).nodes == v.nodes
  {
  }

  /** A restart that succeeds can be repeated: it is a fixed point up to the restore time. */
  lemma RestartIsAFixedPoint(
    caps: Caps, v: View, d1: Document, t1: nat, r1: Option<View>, d2: Document, t2: nat, r2: Option<View>)
    requires WellFormed(caps, v)
    requires Saves(v, d1) && LoadsDocument(caps, d1, t1, r1)
    requires r1.Some? ==> Saves(r1.value, d2) && LoadsDocument(caps, d2, t2, r2)
    ensures r1.Some? <==> AllFinite(v)
    ensures r1.Some? ==> r2 == Some(Restamped(v, t2)) && r2 == Some(Restamped(r1.value, t2))
  {
    hide Saves, Loads, Parsed;
    SnapshotRoundTrip(caps, v, d1, t1, r1);
    if r1.Some? {
      RestampedIsWellFormed(caps, v, t1);
      SnapshotRoundTrip(caps, r1.value, d2, t2, r2);
      assert Restamped(Restamped(v, t1), t2).links == Restamped(v, t2).links;
    }
  }

  lemma RestampedIsWellFormed(caps: Caps, v: View, now: nat)
    requires WellFormed(caps, v)
    ensures WellFormed(caps, Restamped(v, now))
  {
    assert Restamped(v, now).links.Keys == v.links.Keys;
    assert |Restamped(v, now).links| == |Restamped(v, now).links.Keys| && |v.links| == |v.links.Keys|;
  }

  // -------------------------------------------------------------- whole runs

  datatype Op =
    | AddNode(node: NodeNum)
    | UpdateLink(from: NodeNum, to: NodeNum, snr: Snr, at: nat)
    | RemoveStaleNodes(at: nat, timeout: nat)
    | RemoveStaleLinks(at: nat, timeout: nat)
    | Load(doc: Document, at: nat)

  ghost predicate Step(caps: Caps, v: View, op: Op, v': View) {
    match op
    case AddNode(n) => Admits(caps, v, n, {}, v')
    case UpdateLink(from, to, snr, at) => UpdatesLink(caps, v, from, to, snr, at, v')
    case RemoveStaleNodes(at, timeout) => v' == WithoutStaleNodes(v, at, timeout)
    case RemoveStaleLinks(at, timeout) => v' == WithoutStaleLinks(v, at, timeout)
    case Load(doc, at) => LoadsDocument(caps, doc, at, Some(v')) || (Parsed(doc).None? && v' == v)
  }

  ghost predicate Run(caps: Caps, views: seq<View>, ops: seq<Op>) {
    && |views| == |ops| + 1 && views[0] == EMPTY
    && forall i | 0 <= i < |ops| :: Step(caps, views[i], ops[i], views[i + 1])
  }

  lemma StepKeeps(caps: Caps, v: View, op: Op, v': View)
    requires WellFormed(caps, v) && Step(caps, v, op, v')
    ensures WellFormed(caps, v')
  {
    hide Admits, UpdatesLink, Joined, Capped, Loads, StaleNodes, WithoutStaleLinks, Without, ReadLinks;
    match op {
      case AddNode(n) => AdmitsShape(caps, v, n, {}, v'); AdmitsCaps(caps, v, n, {}, v');
      case UpdateLink(from, to, snr, at) => UpdatesLinkKeeps(caps, v, from, to, snr, at, v');
      case RemoveStaleNodes(at, timeout) =>
        if timeout <= at { WithoutKeeps(caps, v, StaleNodes(v, at - timeout)); }
      case RemoveStaleLinks(at, timeout) => StaleLinksKeep(caps, v, at, timeout);
      case Load(doc, at) =>
        if Parsed(doc).Some? { LoadedIsWellFormed(caps, Parsed(doc).value, at, v'); }
    }
  }

  /** In every state of every run, links join tracked nodes and both caps hold. */
  lemma {:induction false} RunsStayWellFormed(caps: Caps, views: seq<View>, ops: seq<Op>, i: nat)
    requires 2 <= caps.nodes && 1 <= caps.links && Run(caps, views, ops) && i <= |ops|
    ensures WellFormed(caps, views[i])
  {
    if i == 0 {
    } else {
      RunsStayWellFormed(caps, views, ops, i - 1);
      StepKeeps(caps, views[i - 1], ops[i - 1], views[i]);
    }
  }

  // ---------------------------------------------- which runs can be restarted

  /** No SNR in the document lies beyond the range of a 32-bit float. */
  ghost predicate ReadsFinite(doc: Document) {
    forall l | l in doc.links :: l.snr != BeyondRange
  }

  lemma {:induction false} ReadLinksFinite(links: seq<JsonLink>)
    requires (forall l | l in links :: l.snr != BeyondRange) && ReadLinks(links).Some?
    ensures FiniteLinks(ReadLinks(links).value)
  {
    if links == [] {
    } else {
      ReadLinksFinite(Init(links));
      assert Last(links) in links;
    }
  }

  lemma RestoresFinite(caps: Caps, v: View, l: LinkSnapshot, now: nat, v': View)
    requires Joined(v) && AllFinite(v) && l.snr.Finite? && Restores(caps, v, l, now, v')
    ensures AllFinite(v')
  {
    hide Admits;
    var v1, v2 :| Admits(caps, v, l.from, {l.to}, v1) && Admits(caps, v1, l.to, {l.from}, v2)
                  && v' == v2.(links := Fold(v2.links, l, now));
    TwoAdmissionsShape(caps, v, l.from, l.to, v1, v2);
  }

  lemma {:induction false} LoadsFinite(caps: Caps, nodes: seq<NodeNum>, links: seq<LinkSnapshot>, now: nat, v: View)
    requires 2 <= caps.nodes && Loads(caps, nodes, links, now, v) && FiniteLinks(links)
    ensures AllFinite(v)
    decreases |nodes| + |links|
  {
    hide Admits, Restores, AllFinite;
    if links != [] {
      var u :| Loads(caps, nodes, Init(links), now, u) && Restores(caps, u, Last(links), now, v);
      assert Last(links) in links;
      LoadsFinite(caps, nodes, Init(links), now, u);
      LoadsKeeps(caps, nodes, Init(links), now, u);
      RestoresFinite(caps, u, Last(links), now, v);
    } else if nodes != [] {
      var u :| Loads(caps, Init(nodes), [], now, u) && Admits(caps, u, Last(nodes), {}, v);
      LoadsFinite(caps, Init(nodes), [], now, u);
      LoadsKeeps(caps, Init(nodes), [], now, u);
      AdmitsFinite(caps, u, Last(nodes), v);
    } else {
      assert AllFinite(EMPTY) by { EmptyIsFinite(); }
    }
  }

  lemma EmptyIsFinite()
    ensures AllFinite(EMPTY)
  {
  }

  lemma AdmitsFinite(caps: Caps, v: View, n: NodeNum, v': View)
    requires Joined(v) && AllFinite(v) && Admits(caps, v, n, {}, v')
    ensures AllFinite(v')
  {
    AdmitsShape(caps, v, n, {}, v');
  }

  lemma StepFinite(caps: Caps, v: View, op: Op, v': View)
    requires WellFormed(caps, v) && AllFinite(v) && Step(caps, v, op, v')
    requires op.Load? ==> ReadsFinite(op.doc)
    ensures AllFinite(v')
  {
    hide Admits, UpdatesLink, Joined, Capped, Loads, StaleNodes;
    match op {
      case AddNode(n) => AdmitsFinite(caps, v, n, v');
      case UpdateLink(from, to, snr, at) => UpdatesLinkKeeps(caps, v, from, to, snr, at, v');
      case RemoveStaleNodes(at, timeout) =>
      case RemoveStaleLinks(at, timeout) =>
      case Load(doc, at) =>
        if Parsed(doc).Some? {
          var snap := Parsed(doc).value;
          ReadLinksFinite(doc.links);
          LoadsFinite(caps, Take(snap.nodes, caps.nodes), Take(snap.links, caps.links), at, v');
        }
    }
  }

  /** Live updates never store a non-finite SNR, so only a document that holds one can bring it in. */
  lemma {:induction false} RunsStayFinite(caps: Caps, views: seq<View>, ops: seq<Op>, i: nat)
    requires 2 <= caps.nodes && 1 <= caps.links && Run(caps, views, ops) && i <= |ops|
    requires forall j | 0 <= j < i :: ops[j].Load? ==> ReadsFinite(ops[j].doc)
    ensures AllFinite(views[i])
  {
    if i == 0 {
    } else {
      RunsStayFinite(caps, views, ops, i - 1);
      RunsStayWellFormed(caps, views, ops, i - 1);
      StepFinite(caps, views[i - 1], ops[i - 1], views[i]);
    }
  }

  /** Every state of such a run survives a restart. */
  lemma RunsSurviveRestart(caps: Caps, views: seq<View>, ops: seq<Op>, i: nat, doc: Document, now: nat, r: Option<View>)
    requires 2 <= caps.nodes && 1 <= caps.links && Run(caps, views, ops) && i <= |ops|
    requires forall j | 0 <= j < i :: ops[j].Load? ==> ReadsFinite(ops[j].doc)
    requires Saves(views[i], doc) && LoadsDocument(caps, doc, now, r)
    ensures r == Some(Restamped(views[i], now))
  {
    RunsStayWellFormed(caps, views, ops, i);
    RunsStayFinite(caps, views, ops, i);
    SnapshotRoundTrip(caps, views[i], doc, now, r);
  }

  /** Two nodes and one link whose SNR is not finite. */
  function InfiniteLink(at: nat): View {
    View({1, 2}, map[(1, 2) := Link(NonFinite, at, 1)])
  }

  lemma RestoresInfiniteLink(caps: Caps, at: nat)
    requires 2 <= caps.nodes
    ensures Restores(caps, EMPTY, LinkSnapshot(1, 2, NonFinite, 1), at, InfiniteLink(at))
  {
    var l := LinkSnapshot(1, 2, NonFinite, 1);
    var v1, v2 := WithNode(EMPTY, 1), WithNode(WithNode(EMPTY, 1), 2);
    assert Admits(caps, EMPTY, l.from, {l.to}, v1) && Admits(caps, v1, l.to, {l.from}, v2);
    assert InfiniteLink(at) == v2.(links := Fold(v2.links, l, at));
  }

  lemma ReadsInfiniteLink()
    ensures Parsed(Document([], [JsonLink(1, 2, BeyondRange, 1)]))
            == Some(Snapshot([], [LinkSnapshot(1, 2, NonFinite, 1)]))
  {
    var links := [JsonLink(1, 2, BeyondRange, 1)];
    assert Init(links) == [] && ReadLinks([]) == Some([]);
    assert [] + [LinkSnapshot(1, 2, NonFinite, 1)] == [LinkSnapshot(1, 2, NonFinite, 1)];
  }

  /**
   The condition is needed: a document with one SNR beyond the range loads, and
   what it loads can be saved but never restored.
   */
  lemma LoadedInfinityBlocksRestart(caps: Caps, at: nat, doc: Document, now: nat, r: Option<View>)
    requires 2 <= caps.nodes && 1 <= caps.links
    requires Saves(InfiniteLink(at), doc) && LoadsDocument(caps, doc, now, r)
    ensures Run(caps, [EMPTY, InfiniteLink(at)], [Load(Document([], [JsonLink(1, 2, BeyondRange, 1)]), at)])
    ensures r == None
  {
    hide Saves, Loads, Restores, ReadLinks;
    var v, l, op := InfiniteLink(at), LinkSnapshot(1, 2, NonFinite, 1),
                    Load(Document([], [JsonLink(1, 2, BeyondRange, 1)]), at);
    ReadsInfiniteLink();
    RestoresInfiniteLink(caps, at);
    LoadsNothing(caps, at);
    assert [l][..0] == [] && [l][..1] == [l];
    LoadsLink(caps, [], [l], 0, at, EMPTY, v);
    RunsStayWellFormed(caps, [EMPTY, v], [op], 1);
    SnapshotRoundTrip(caps, v, doc, now, r);
    assert (1, 2) in v.links && !AllFinite(v);
  }
}
