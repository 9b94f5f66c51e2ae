/**
 The config handshake with a radio and the bounded node database it fills. The
 radio is the list of messages, or failures to receive one, before the timeout; node records keep
 their number, the time last heard and an opaque profile.
 */
module Handshake {
  import opened Common

  type NodeNum = nat

  const MAX_CHANNELS: nat := 8
  const I64_MIN: int := -0x8000_0000_0000_0000

  datatype MeshNode = MeshNode(num: NodeNum, lastHeard: Option<int>, profile: seq<byte>)

  type Nodes = map<NodeNum, MeshNode>

  // ------------------------------------------------------------ node database

  function HeardAt(n: MeshNode): int {
    match n.lastHeard case None => I64_MIN case Some(t) => t
  }

  /** The least recently heard node other than our own. */
  ghost predicate Stalest(nodes: Nodes, own: Option<NodeNum>, v: NodeNum) {
    && v in nodes && own != Some(v)
    && forall m | m in nodes && own != Some(m) :: HeardAt(nodes[v]) <= HeardAt(nodes[m])
  }

  /** Inserting replaces, or adds, or adds after evicting the stalest other node. */
  ghost predicate Inserts(cap: nat, nodes: Nodes, own: Option<NodeNum>, n: MeshNode, nodes': Nodes) {
    if n.num in nodes || |nodes| < cap then nodes' == nodes[n.num := n]
    else exists v: NodeNum :: Stalest(nodes, own, v) && nodes' == (nodes - {v})[n.num := n]
  }

  /** An insertion stays within the cap, never evicts our own node, and alters no other record. */
  lemma InsertKeeps(cap: nat, nodes: Nodes, own: Option<NodeNum>, n: MeshNode, nodes': Nodes)
    requires Inserts(cap, nodes, own, n, nodes')
    ensures n.num in nodes' && nodes'[n.num] == n
    ensures own.Some? && own.value in nodes ==> own.value in nodes'
    ensures forall m | m in nodes' && m != n.num :: m in nodes && nodes'[m] == nodes[m]
  {
  }

  /** Never heard, or heard no later than the other was. */
  predicate HeardNoLater(a: MeshNode, b: MeshNode) {
    a.lastHeard.None? || (b.lastHeard.Some? && a.lastHeard.value <= b.lastHeard.value)
  }

  /** Times of hearing are timestamps, which never reach the least 64-bit integer. */
  ghost predicate Timed(nodes: Nodes) {
    forall m | m in nodes :: nodes[m].lastHeard.Some? ==> nodes[m].lastHeard.value > I64_MIN
  }

  /** `v` goes to make room: not our own node, and heard no later than any other but our own. */
  ghost predicate EvictsStalest(nodes: Nodes, own: Option<NodeNum>, num: NodeNum, v: NodeNum, nodes': Nodes) {
    && v in nodes && own != Some(v) && nodes'.Keys == (nodes.Keys - {v}) + {num}
    && forall m | m in nodes && own != Some(m) :: HeardNoLater(nodes[v], nodes[m])
  }

  /** A node is evicted exactly when a new one finds the table full, and then just one. */
  lemma InsertEvictsTheStalest(cap: nat, nodes: Nodes, own: Option<NodeNum>, n: MeshNode, nodes': Nodes)
    requires Timed(nodes) && Inserts(cap, nodes, own, n, nodes')
    ensures if n.num in nodes || |nodes| < cap then nodes'.Keys == nodes.Keys + {n.num}
            else exists v: NodeNum :: EvictsStalest(nodes, own, n.num, v, nodes')
  {
    if !(n.num in nodes || |nodes| < cap) {
      hide Stalest, EvictsStalest;
      var v: NodeNum :| Stalest(nodes, own, v) && nodes' == (nodes - {v})[n.num := n];
      StalestIsEvicted(nodes, own, n, v);
    }
  }

  lemma StalestIsEvicted(nodes: Nodes, own: Option<NodeNum>, n: MeshNode, v: NodeNum)
    requires Timed(nodes) && Stalest(nodes, own, v)
    ensures EvictsStalest(nodes, own, n.num, v, (nodes - {v})[n.num := n])
  {
    forall m | m in nodes && own != Some(m) ensures HeardNoLater(nodes[v], nodes[m]) {
      assert HeardAt(nodes[v]) <= HeardAt(nodes[m]);
    }
    assert (nodes - {v})[n.num := n].Keys == (nodes.Keys - {v}) + {n.num};
  }

  lemma InsertFits(cap: nat, nodes: Nodes, own: Option<NodeNum>, n: MeshNode, nodes': Nodes)
    requires |nodes| <= cap && Inserts(cap, nodes, own, n, nodes')
    ensures |nodes'| <= cap
  {
    if n.num in nodes || |nodes| < cap {
      assert nodes'.Keys == nodes.Keys + {n.num};
      assert n.num in nodes ==> nodes.Keys + {n.num} == nodes.Keys;
    } else {
      var v: NodeNum :| Stalest(nodes, own, v) && nodes' == (nodes - {v})[n.num := n];
      assert v in nodes;
      hide Stalest;
      assert nodes'.Keys == (nodes.Keys - {v}) + {n.num};
      Swapped(nodes.Keys, v, n.num);
    }
    assert |nodes| == |nodes.Keys| && |nodes'| == |nodes'.Keys|;
  }

  lemma Swapped(s: set<NodeNum>, out: NodeNum, into: NodeNum)
    requires out in s
    ensures |(s - {out}) + {into}| <= |s|
  {
    assert |s - {out}| == |s| - 1;
  }

  class NodeDb {
    const cap: nat
    var nodes: Nodes
    var myNode: Option<NodeNum>

    ghost predicate Valid()
      reads this
    {
      2 <= cap && |nodes| <= cap
    }

    constructor (cap: nat)
      requires 2 <= cap
      ensures Valid() && this.cap == cap && nodes == map[] && myNode == None
    {
      this.cap := cap;
      nodes, myNode := map[], None;
    }

    /** The stalest node other than our own, if there is one; ties fall either way. */
    method FindStalest() returns (best: Option<NodeNum>)
      ensures best.None? ==> forall m | m in nodes :: myNode == Some(m)
      ensures best.Some? ==> Stalest(nodes, myNode, best.value)
    {
      best := None;
      var todo := nodes.Keys;
      while todo != {}
        invariant todo <= nodes.Keys
        invariant best.Some? ==> best.value in nodes && myNode != Some(best.value)
        invariant forall m | m in nodes && m !in todo && myNode != Some(m) ::
                    best.Some? && HeardAt(nodes[best.value]) <= HeardAt(nodes[m])
        decreases todo
      {
        var m :| m in todo;
        todo := todo - {m};
        if myNode != Some(m) && (best.None? || HeardAt(nodes[m]) < HeardAt(nodes[best.value])) {
          best := Some(m);
        }
      }
    }

    method Insert(n: MeshNode)
      requires Valid()
      modifies this`nodes
      ensures Valid() && Inserts(cap, old(nodes), myNode, n, nodes)
    {
      ghost var before := nodes;
      if n.num !in nodes && |nodes| >= cap {
        SomeoneElse(nodes, myNode);
        var v := FindStalest();
        if v.Some? {
          nodes := nodes - {v.value};
        }
      }
      nodes := nodes[n.num := n];
      InsertFits(cap, before, myNode, n, nodes);
    }

    method SetMyNode(n: NodeNum)
      modifies this`myNode
      ensures myNode == Some(n)
    {
      myNode := Some(n);
    }
  }

  lemma SomeoneElse(nodes: Nodes, own: Option<NodeNum>)
    requires |nodes| >= 2
    ensures exists m :: m in nodes && own != Some(m)
  {
    assert |nodes| == |nodes.Keys|;
    var m :| m in nodes.Keys;
    if own == Some(m) {
      assert |nodes.Keys - {m}| >= 1;
      var other :| other in nodes.Keys - {m};
    }
  }

  // ---------------------------------------------------------------- handshake

  datatype Message =
    | MyInfo(num: NodeNum)
    | NodeInfo(node: MeshNode)
    | Channel(index: nat)
    | ConfigComplete(id: nat)
    | MeshPacket
    | Rebooted
    | Nothing
    | ReceiveFailed(error: int)

  predicate Ends(m: Message, want: nat) {
    m == ConfigComplete(want) || m.Rebooted? || m.ReceiveFailed?
  }

  /** The messages the handshake reads: up to the first that ends it, or all of them. */
  function Read(msgs: seq<Message>, want: nat): (n: nat)
    ensures n <= |msgs|
    ensures forall i | 0 <= i < n - 1 :: !Ends(msgs[i], want)
    ensures n == |msgs| || (n > 0 && Ends(msgs[n - 1], want))
  {
    if msgs == [] then 0
    else if Ends(msgs[0], want) then 1
    else 1 + Read(msgs[1..], want)
  }

  function Infos(msgs: seq<Message>): seq<MeshNode> {
    if msgs == [] then []
    else if Last(msgs).NodeInfo? then Infos(Init(msgs)) + [Last(msgs).node]
    else Infos(Init(msgs))
  }

  function Channels(msgs: seq<Message>): seq<nat> {
    if msgs == [] then []
    else if Last(msgs).Channel? then Channels(Init(msgs)) + [Last(msgs).index]
    else Channels(Init(msgs))
  }

  function Own(msgs: seq<Message>): Option<NodeNum> {
    if msgs == [] then None
    else if Last(msgs).MyInfo? then Some(Last(msgs).num)
    else Own(Init(msgs))
  }

  /** The latest record of each node. */
  function Latest(infos: seq<MeshNode>): Nodes {
    if infos == [] then map[] else Latest(Init(infos))[Last(infos).num := Last(infos)]
  }

  /** The last record of its node. */
  ghost predicate IsFinal(infos: seq<MeshNode>, i: nat) {
    i < |infos| && forall j | i < j < |infos| :: infos[j].num != infos[i].num
  }

  /** The map holds the final record of each node named, and nothing else. */
  lemma {:induction false} FinalIsLatest(infos: seq<MeshNode>, i: nat)
    requires IsFinal(infos, i)
    ensures infos[i].num in Latest(infos) && Latest(infos)[infos[i].num] == infos[i]
    decreases |infos|
  {
    if i == |infos| - 1 {
    } else {
      FinalIsLatest(Init(infos), i);
    }
  }

  lemma {:induction false} LatestHasFinal(infos: seq<MeshNode>, num: NodeNum) returns (i: nat)
    requires num in Latest(infos)
    ensures IsFinal(infos, i) && infos[i].num == num
    decreases |infos|
  {
    if infos != [] && Last(infos).num == num {
      i := |infos| - 1;
    } else {
      i := LatestHasFinal(Init(infos), num);
    }
  }

  lemma {:induction false} LatestIsSmall(infos: seq<MeshNode>)
    ensures |Latest(infos)| <= |infos|
    decreases |infos|
  {
    if infos == [] {
    } else {
      LatestIsSmall(Init(infos));
      LatestStep(infos);
    }
  }

  /** Each record names a new node or one already there. */
  lemma LatestStep(infos: seq<MeshNode>)
    requires infos != []
    ensures var before := Latest(Init(infos));
            |Latest(infos)| == if Last(infos).num in before then |before| else |before| + 1
  {
    var before, after := Latest(Init(infos)), Latest(infos);
    assert after.Keys == before.Keys + {Last(infos).num};
    assert Last(infos).num in before ==> after.Keys == before.Keys;
    assert |before| == |before.Keys| && |after| == |after.Keys|;
  }

  /** As long as no more nodes were named than fit, inserting is the latest-record map and evicts nobody. */
  lemma InsertIsLatest(cap: nat, infos: seq<MeshNode>, own: Option<NodeNum>, nodes': Nodes)
    requires infos != [] && |Latest(infos)| <= cap && Inserts(cap, Latest(Init(infos)), own, Last(infos), nodes')
    ensures nodes' == Latest(infos)
  {
    LatestStep(infos);
  }

  /**
   Every node whose final record came after the first `n` had that same record
   as its final one among the first `n`.
   */
  ghost predicate NothingNewAfter(infos: seq<MeshNode>, n: nat)
    requires n <= |infos|
  {
    forall i: nat | n <= i && IsFinal(infos, i) ::
      exists j: nat :: IsFinal(infos[..n], j) && infos[..n][j] == infos[i]
  }

  /** The first `n` records give the same map as all of them exactly when nothing new came after. */
  lemma PrefixSufficesIff(infos: seq<MeshNode>, n: nat)
    requires n <= |infos|
    ensures Latest(infos[..n]) == Latest(infos) <==> NothingNewAfter(infos, n)
  {
    hide Latest, NothingNewAfter;
    if Latest(infos[..n]) == Latest(infos) {
      SufficesOnlyIf(infos, n);
    }
    if NothingNewAfter(infos, n) {
      SufficesIf(infos, n);
    }
  }

  lemma SufficesOnlyIf(infos: seq<MeshNode>, n: nat)
    requires n <= |infos| && Latest(infos[..n]) == Latest(infos)
    ensures NothingNewAfter(infos, n)
  {
    hide Latest;
    forall i: nat | n <= i && IsFinal(infos, i)
      ensures exists j: nat :: IsFinal(infos[..n], j) && infos[..n][j] == infos[i]
    {
      FinalIsLatest(infos, i);
      var j := LatestHasFinal(infos[..n], infos[i].num);
      FinalIsLatest(infos[..n], j);
    }
  }

  lemma SufficesIf(infos: seq<MeshNode>, n: nat)
    requires n <= |infos| && NothingNewAfter(infos, n)
    ensures Latest(infos[..n]) == Latest(infos)
  {
    hide Latest, NothingNewAfter;
    var front := infos[..n];
    forall num | num in Latest(infos) ensures num in Latest(front) && Latest(front)[num] == Latest(infos)[num] {
      var i := LatestHasFinal(infos, num);
      FinalIsLatest(infos, i);
      var j := FoundBefore(infos, n, i);
      FinalIsLatest(front, j);
    }
    forall num | num in Latest(front) ensures num in Latest(infos) {
      var i := LatestHasFinal(front, num);
      NamedIsLatest(infos, i);
    }
  }

  lemma FoundBefore(infos: seq<MeshNode>, n: nat, i: nat) returns (j: nat)
    requires n <= |infos| && NothingNewAfter(infos, n) && IsFinal(infos, i)
    ensures IsFinal(infos[..n], j) && infos[..n][j] == infos[i]
  {
    if i < n {
      j := i;
    } else {
      j :| IsFinal(infos[..n], j) && infos[..n][j] == infos[i];
    }
  }

  lemma {:induction false} NamedIsLatest(infos: seq<MeshNode>, i: nat)
    requires i < |infos|
    ensures infos[i].num in Latest(infos)
    decreases |infos|
  {
    if i == |infos| - 1 {
    } else {
      NamedIsLatest(Init(infos), i);
    }
  }

  /** One node repeated up to the cap and then a second: the second never reaches the report. */
  lemma RecordsPastTheCapAreDropped(cap: nat, a: MeshNode, b: MeshNode)
    requires 1 <= cap && a.num != b.num
    ensures var infos := seq(cap, _ => a) + [b];
            Latest(infos) == map[a.num := a, b.num := b] && Latest(Take(infos, cap)) == map[a.num := a]
  {
    var front := seq(cap, _ => a);
    RepeatedIsOne(front, a);
    assert Init(front + [b]) == front && Take(front + [b], cap) == front;
  }

  lemma {:induction false} RepeatedIsOne(infos: seq<MeshNode>, a: MeshNode)
    requires infos != [] && forall i | 0 <= i < |infos| :: infos[i] == a
    ensures Latest(infos) == map[a.num := a]
    decreases |infos|
  {
    if |infos| == 1 {
      assert Init(infos) == [];
    } else {
      RepeatedIsOne(Init(infos), a);
    }
  }

  datatype Outcome =
    | Done(own: NodeNum, channels: seq<nat>, known: seq<MeshNode>)
    | RadioRebooted
    | ConnectionFailed(error: int)
    | TimedOut
    | NoMyInfo

  /** What a handshake that has read exactly these messages returns. */
  function Judged(cap: nat, read: seq<Message>, want: nat): Outcome {
    if read == [] || !Ends(Last(read), want) then TimedOut
    else if Last(read).Rebooted? then RadioRebooted
    else if Last(read).ReceiveFailed? then ConnectionFailed(Last(read).error)
    else if Own(read).None? then NoMyInfo
    else Done(Own(read).value, Take(Channels(read), MAX_CHANNELS), Take(Infos(read), cap))
  }

  function Result(cap: nat, msgs: seq<Message>, want: nat): Outcome {
    Judged(cap, msgs[..Read(msgs, want)], want)
  }

  lemma {:induction false} ReadIs(msgs: seq<Message>, want: nat, n: nat)
    requires n < |msgs| && Ends(msgs[n], want) && forall i | 0 <= i < n :: !Ends(msgs[i], want)
    ensures Read(msgs, want) == n + 1
  {
    if n == 0 {
    } else {
      ReadIs(msgs[1..], want, n - 1);
    }
  }

  lemma {:induction false} ReadIsAll(msgs: seq<Message>, want: nat)
    requires forall i | 0 <= i < |msgs| :: !Ends(msgs[i], want)
    ensures Read(msgs, want) == |msgs|
  {
    if msgs == [] {
    } else {
      assert forall i | 0 <= i < |msgs[1..]| :: msgs[1..][i] == msgs[i + 1];
      ReadIsAll(msgs[1..], want);
    }
  }

  /** What the loop has collected so far. */
  datatype Collected = Collected(own: Option<NodeNum>, channels: seq<nat>, known: seq<MeshNode>)

  function CollectedFrom(cap: nat, msgs: seq<Message>): Collected {
    Collected(Own(msgs), Take(Channels(msgs), MAX_CHANNELS), Take(Infos(msgs), cap))
  }

  function Collect(cap: nat, c: Collected, m: Message): Collected {
    match m
    case MyInfo(num) => c.(own := Some(num))
    case NodeInfo(node) => if |c.known| < cap then c.(known := c.known + [node]) else c
    case Channel(index) => if |c.channels| < MAX_CHANNELS then c.(channels := c.channels + [index]) else c
    case _ => c
  }

  lemma CollectStep(cap: nat, msgs: seq<Message>)
    requires msgs != []
    ensures CollectedFrom(cap, msgs) == Collect(cap, CollectedFrom(cap, Init(msgs)), Last(msgs))
  {
  }

  /** What the database holds after reading `msgs`, if it was empty and nothing had to go. */
  ghost predicate Holds(cap: nat, msgs: seq<Message>, nodes: Nodes) {
    |Latest(Infos(msgs))| <= cap ==> nodes == Latest(Infos(msgs))
  }

  lemma HoldsStep(cap: nat, msgs: seq<Message>, own: Option<NodeNum>, nodes: Nodes, nodes': Nodes)
    requires msgs != [] && Holds(cap, Init(msgs), nodes)
    requires if Last(msgs).NodeInfo? then Inserts(cap, nodes, own, Last(msgs).node, nodes') else nodes' == nodes
    ensures Holds(cap, msgs, nodes')
  {
    var infos := Infos(msgs);
    if Last(msgs).NodeInfo? && |Latest(infos)| <= cap {
      assert Init(infos) == Infos(Init(msgs)) && Last(infos) == Last(msgs).node;
      LatestStep(infos);
      InsertIsLatest(cap, infos, own, nodes');
    }
  }

  // ---------------------------------------------- what the messages do to the database

  /** Our own node after these messages: the last one named, or the one known before. */
  function OwnAfter(own: Option<NodeNum>, msgs: seq<Message>): Option<NodeNum> {
    if Own(msgs).Some? then Own(msgs) else own
  }

  ghost predicate Absorbs(cap: nat, own: Option<NodeNum>, m: Message, nodes: Nodes, nodes': Nodes) {
    if m.NodeInfo? then Inserts(cap, nodes, own, m.node, nodes') else nodes' == nodes
  }

  /** The database may end as `nodes'`: every node record was inserted, in order, evicting where it had to. */
  ghost predicate Fills(cap: nat, own: Option<NodeNum>, nodes: Nodes, msgs: seq<Message>, nodes': Nodes)
    decreases |msgs|
  {
    if msgs == [] then nodes' == nodes
    else exists u :: Fills(cap, own, nodes, Init(msgs), u) && Absorbs(cap, OwnAfter(own, msgs), Last(msgs), u, nodes')
  }

  lemma FillsStep(cap: nat, own: Option<NodeNum>, nodes: Nodes, msgs: seq<Message>, m: Message, u: Nodes, v: Nodes)
    requires Fills(cap, own, nodes, msgs, u) && Absorbs(cap, OwnAfter(own, msgs + [m]), m, u, v)
    ensures Fills(cap, own, nodes, msgs + [m], v)
  {
    assert Init(msgs + [m]) == msgs && Last(msgs + [m]) == m;
  }

  /** An empty database ends as the latest record of each node, if the distinct nodes fit. */
  lemma {:induction false} FillsIsLatest(cap: nat, own: Option<NodeNum>, msgs: seq<Message>, nodes: Nodes)
    requires Fills(cap, own, map[], msgs, nodes)
    ensures Holds(cap, msgs, nodes)
    decreases |msgs|
  {
    if msgs == [] {
    } else {
      hide Holds, Absorbs, OwnAfter;
      var u :| Fills(cap, own, map[], Init(msgs), u) && Absorbs(cap, OwnAfter(own, msgs), Last(msgs), u, nodes);
      FillsIsLatest(cap, own, Init(msgs), u);
      AbsorbsHolds(cap, msgs, OwnAfter(own, msgs), u, nodes);
    }
  }

  lemma AbsorbsHolds(cap: nat, msgs: seq<Message>, own: Option<NodeNum>, u: Nodes, v: Nodes)
    requires msgs != [] && Holds(cap, Init(msgs), u) && Absorbs(cap, own, Last(msgs), u, v)
    ensures Holds(cap, msgs, v)
  {
    hide Holds;
    HoldsStep(cap, msgs, own, u, v);
  }

  /** Whatever is evicted, no outdated record is ever held: the latest of the messages, or what was there before. */
  lemma {:induction false} NeverOutdated(
    cap: nat, own: Option<NodeNum>, nodes: Nodes, msgs: seq<Message>, nodes': Nodes, num: NodeNum)
    requires Fills(cap, own, nodes, msgs, nodes') && num in nodes'
    ensures var latest := Latest(Infos(msgs));
            if num in latest then nodes'[num] == latest[num] else num in nodes && nodes'[num] == nodes[num]
    decreases |msgs|
  {
    if msgs == [] {
    } else {
      hide OwnAfter;
      var m := Last(msgs);
      var u :| Fills(cap, own, nodes, Init(msgs), u) && Absorbs(cap, OwnAfter(own, msgs), m, u, nodes');
      if m.NodeInfo? {
        InsertKeeps(cap, u, OwnAfter(own, msgs), m.node, nodes');
        hide Inserts;
        assert Init(Infos(msgs)) == Infos(Init(msgs)) && Last(Infos(msgs)) == m.node;
        if num != m.node.num {
          NeverOutdated(cap, own, nodes, Init(msgs), u, num);
        }
      } else {
        NeverOutdated(cap, own, nodes, Init(msgs), u, num);
      }
    }
  }

  /** The radio's own record is never evicted while the radio keeps its number. */
  lemma {:induction false} OwnStays(
    cap: nat, own: NodeNum, nodes: Nodes, msgs: seq<Message>, nodes': Nodes)
    requires Fills(cap, Some(own), nodes, msgs, nodes') && own in nodes
    requires forall i | 0 <= i < |msgs| && msgs[i].MyInfo? :: msgs[i].num == own
    ensures own in nodes' && OwnAfter(Some(own), msgs) == Some(own)
    decreases |msgs|
  {
    if msgs == [] {
    } else {
      var m := Last(msgs);
      var u :| Fills(cap, Some(own), nodes, Init(msgs), u)
               && Absorbs(cap, OwnAfter(Some(own), msgs), m, u, nodes');
      OwnStays(cap, own, nodes, Init(msgs), u);
      assert m == msgs[|msgs| - 1];
      if m.NodeInfo? {
        InsertKeeps(cap, u, Some(own), m.node, nodes');
      }
    }
  }

  /** Node records as the messages that carry them. */
  function AsMessages(infos: seq<MeshNode>): seq<Message> {
    if infos == [] then [] else AsMessages(Init(infos)) + [NodeInfo(Last(infos))]
  }

  lemma {:induction false} AsMessagesInfos(own: NodeNum, infos: seq<MeshNode>)
    ensures Infos([MyInfo(own)] + AsMessages(infos)) == infos && Own([MyInfo(own)] + AsMessages(infos)) == Some(own)
    decreases |infos|
  {
    if infos == [] {
      assert [MyInfo(own)] + AsMessages(infos) == [MyInfo(own)] && Init([MyInfo(own)]) == [];
    } else {
      AsMessagesInfos(own, Init(infos));
      var msgs := [MyInfo(own)] + AsMessages(infos);
      assert Init(msgs) == [MyInfo(own)] + AsMessages(Init(infos)) && Last(msgs) == NodeInfo(Last(infos));
      assert Init(infos) + [Last(infos)] == infos;
    }
  }

  /** The receive loop: fills the database as it goes and collects what it will report. */
  method Run(msgs: seq<Message>, want: nat, db: NodeDb) returns (r: Outcome)
    requires db.Valid()
    modifies db
    ensures db.Valid() && r == Result(db.cap, msgs, want)
    ensures var read := msgs[..Read(msgs, want)];
            && db.myNode == OwnAfter(old(db.myNode), read)
            && Fills(db.cap, old(db.myNode), old(db.nodes), read, db.nodes)
            && (old(db.nodes) == map[] ==> Holds(db.cap, read, db.nodes))
  {
    hide Holds, Own, CollectedFrom, Fills, Absorbs, Inserts;
    var c := Collected(None, [], []);
    CollectStart(db.cap);
    FillsNothing(db.cap, db.myNode, db.nodes);
    for i := 0 to |msgs|
      invariant db.Valid() && c == CollectedFrom(db.cap, msgs[..i])
      invariant forall j | 0 <= j < i :: !Ends(msgs[j], want)
      invariant db.myNode == OwnAfter(old(db.myNode), msgs[..i])
      invariant Fills(db.cap, old(db.myNode), old(db.nodes), msgs[..i], db.nodes)
    {
      assert Init(msgs[..i + 1]) == msgs[..i] && Last(msgs[..i + 1]) == msgs[i];
      assert msgs[..i] + [msgs[i]] == msgs[..i + 1];
      ghost var nodes := db.nodes;
      c := Absorb(msgs[i], c, db);
      CollectStep(db.cap, msgs[..i + 1]);
      OwnStep(msgs[..i + 1]);
      FillsStep(db.cap, old(db.myNode), old(db.nodes), msgs[..i], msgs[i], nodes, db.nodes);
      if old(db.nodes) == map[] && Ends(msgs[i], want) {
        FillsIsLatest(db.cap, old(db.myNode), msgs[..i + 1], db.nodes);
      }
      if Ends(msgs[i], want) {
        ReadIs(msgs, want, i);
        CollectedParts(db.cap, msgs[..i + 1]);
        return if msgs[i].Rebooted? then RadioRebooted
               else if msgs[i].ReceiveFailed? then ConnectionFailed(msgs[i].error)
               else if c.own.None? then NoMyInfo
               else Done(c.own.value, c.channels, c.known);
      }
    }
    ReadIsAll(msgs, want);
    assert msgs[..|msgs|] == msgs;
    if old(db.nodes) == map[] {
      FillsIsLatest(db.cap, old(db.myNode), msgs, db.nodes);
    }
    return TimedOut;
  }

  /** One message: the database and the collection each take what concerns them. */
  method Absorb(m: Message, c: Collected, db: NodeDb) returns (c': Collected)
    requires db.Valid()
    modifies db
    ensures db.Valid() && c' == Collect(db.cap, c, m)
    ensures db.myNode == if m.MyInfo? then Some(m.num) else old(db.myNode)
    ensures Absorbs(db.cap, db.myNode, m, old(db.nodes), db.nodes)
  {
    c' := c;
    match m {
      case MyInfo(num) =>
        db.SetMyNode(num);
        c' := c.(own := Some(num));
      case NodeInfo(node) =>
        if |c.known| < db.cap {
          c' := c.(known := c.known + [node]);
        }
        db.Insert(node);
      case Channel(index) =>
        if |c.channels| < MAX_CHANNELS {
          c' := c.(channels := c.channels + [index]);
        }
      case _ =>
    }
  }

  lemma CollectStart(cap: nat)
    ensures CollectedFrom(cap, []) == Collected(None, [], []) && Own([]) == None && Holds(cap, [], map[])
  {
  }

  lemma FillsNothing(cap: nat, own: Option<NodeNum>, nodes: Nodes)
    ensures Fills(cap, own, nodes, [], nodes)
  {
  }

  lemma OwnStep(msgs: seq<Message>)
    requires msgs != []
    ensures Own(msgs) == if Last(msgs).MyInfo? then Some(Last(msgs).num) else Own(Init(msgs))
  {
  }

  lemma CollectedParts(cap: nat, msgs: seq<Message>)
    ensures CollectedFrom(cap, msgs) == Collected(Own(msgs), Take(Channels(msgs), MAX_CHANNELS), Take(Infos(msgs), cap))
  {
  }

  /** The merge the collector makes of a successful result into the shared database. */
  method Merge(r: Outcome, db: NodeDb)
    requires db.Valid() && r.Done?
    modifies db
    ensures db.Valid() && db.myNode == Some(r.own)
    ensures Fills(db.cap, old(db.myNode), old(db.nodes), [MyInfo(r.own)] + AsMessages(r.known), db.nodes)
    ensures old(db.nodes) == map[] && |Latest(r.known)| <= db.cap ==> db.nodes == Latest(r.known)
  {
    hide Fills, Inserts, Own;
    ghost var first := [MyInfo(r.own)];
    FillsNothing(db.cap, db.myNode, db.nodes);
    FillsStep(db.cap, db.myNode, db.nodes, [], MyInfo(r.own), db.nodes, db.nodes);
    assert [] + first == first && first + AsMessages([]) == first;
    db.SetMyNode(r.own);
    for i := 0 to |r.known|
      invariant db.Valid() && db.myNode == Some(r.own)
      invariant Fills(db.cap, old(db.myNode), old(db.nodes), first + AsMessages(r.known[..i]), db.nodes)
    {
      ghost var u, infos := db.nodes, r.known[..i + 1];
      assert Init(infos) == r.known[..i] && Last(infos) == r.known[i];
      db.Insert(r.known[i]);
      AsMessagesInfos(r.own, infos);
      assert first + AsMessages(r.known[..i]) + [NodeInfo(r.known[i])] == first + AsMessages(infos);
      FillsStep(db.cap, old(db.myNode), old(db.nodes), first + AsMessages(r.known[..i]), NodeInfo(r.known[i]),
                u, db.nodes);
    }
    assert r.known[..|r.known|] == r.known;
    AsMessagesInfos(r.own, r.known);
    if old(db.nodes) == map[] {
      FillsIsLatest(db.cap, old(db.myNode), first + AsMessages(r.known), db.nodes);
    }
  }

  /**
   Handshake into a scratch database, then merge the result into the shared one,
   which takes the reported records as the scratch one took them. If it was
   empty, it ends with the latest of the first records, as many as the cap; if
   the radio named no more nodes than that, the scratch one ends with the latest
   of all, and the two agree exactly when nothing new came after.
   */
  method ConnectAndMerge(msgs: seq<Message>, want: nat, shared: NodeDb) returns (r: Outcome, scratch: NodeDb)
    requires shared.Valid()
    modifies shared
    ensures fresh(scratch) && scratch.Valid() && shared.Valid() && r == Result(shared.cap, msgs, want)
    ensures !r.Done? ==> shared.nodes == old(shared.nodes) && shared.myNode == old(shared.myNode)
    ensures r.Done? ==>
              && shared.myNode == scratch.myNode == Some(r.own)
              && Fills(shared.cap, old(shared.myNode), old(shared.nodes), [MyInfo(r.own)] + AsMessages(r.known),
                       shared.nodes)
    ensures var infos := Infos(msgs[..Read(msgs, want)]);
            && (|Latest(infos)| <= shared.cap ==> scratch.nodes == Latest(infos))
            && (r.Done? && old(shared.nodes) == map[] ==> shared.nodes == Latest(Take(infos, shared.cap)))
            && (r.Done? && old(shared.nodes) == map[] && |Latest(infos)| <= shared.cap ==>
                  (shared.nodes == scratch.nodes
                   <==> |infos| <= shared.cap || NothingNewAfter(infos, shared.cap)))
  {
    hide Infos, NothingNewAfter, Read, Fills;
    scratch := new NodeDb(shared.cap);
    r := Run(msgs, want, scratch);
    if r.Done? {
      LatestIsSmall(r.known);
      Merge(r, shared);
      ghost var infos := Infos(msgs[..Read(msgs, want)]);
      if |infos| > shared.cap {
        PrefixSufficesIff(infos, shared.cap);
      }
    }
  }

  // ------------------------------------------------ when a handshake ends, and how

  /** The message at `n` is the first that completes the dump, reports a reboot or a failure to receive. */
  ghost predicate EndsAt(msgs: seq<Message>, want: nat, n: nat) {
    && n < |msgs| && (msgs[n] == ConfigComplete(want) || msgs[n].Rebooted? || msgs[n].ReceiveFailed?)
    && forall i | 0 <= i < n :: msgs[i] != ConfigComplete(want) && !msgs[i].Rebooted? && !msgs[i].ReceiveFailed?
  }

  /** The last own-node message is at `i` and names `num`. */
  ghost predicate LastOwn(msgs: seq<Message>, i: nat, num: NodeNum) {
    i < |msgs| && msgs[i] == MyInfo(num) && forall j | i < j < |msgs| :: !msgs[j].MyInfo?
  }

  lemma {:induction false} OwnIsLast(msgs: seq<Message>) returns (i: nat)
    ensures match Own(msgs)
            case None => forall m | m in msgs :: !m.MyInfo?
            case Some(num) => LastOwn(msgs, i, num)
    decreases |msgs|
  {
    i := 0;
    if msgs == [] {
    } else if Last(msgs).MyInfo? {
      i := |msgs| - 1;
    } else {
      i := OwnIsLast(Init(msgs));
      assert msgs == Init(msgs) + [Last(msgs)];
    }
  }

  /** Channels and node records are picked out of the dump in order, each message on its own. */
  lemma {:induction false} PickedInOrder(a: seq<Message>, b: seq<Message>)
    ensures Channels(a + b) == Channels(a) + Channels(b) && Infos(a + b) == Infos(a) + Infos(b)
    decreases |b|
  {
    if b == [] {
      assert a + b == a;
    } else {
      PickedInOrder(a, Init(b));
      assert Init(a + b) == a + Init(b) && Last(a + b) == Last(b);
    }
  }

  lemma PickedFromOne(m: Message)
    ensures Channels([m]) == (if m.Channel? then [m.index] else [])
    ensures Infos([m]) == (if m.NodeInfo? then [m.node] else [])
  {
    assert Init([m]) == [];
  }

  /** The first `n`, or all of them. */
  ghost predicate IsPrefix<T>(s: seq<T>, all: seq<T>, n: nat) {
    s <= all && |s| == if |all| <= n then |all| else n
  }

  /**
   The outcome is decided by the first message that ends the handshake: none
   means a timeout; a reboot and a failure to receive are errors; a completed
   dump is a success exactly if it named the radio's own node, and then reports
   the last such name, the first channels and the first node records.
   */
  lemma ResultIff(cap: nat, msgs: seq<Message>, want: nat, n: nat)
    ensures (forall i | 0 <= i < |msgs| :: !EndsAt(msgs, want, i)) ==> Result(cap, msgs, want) == TimedOut
    ensures EndsAt(msgs, want, n) ==>
              var r, read := Result(cap, msgs, want), msgs[..n + 1];
              match msgs[n]
              case Rebooted => r == RadioRebooted
              case ReceiveFailed(error) => r == ConnectionFailed(error)
              case _ =>
                if forall m | m in read :: !m.MyInfo? then r == NoMyInfo
                else
                  && r.Done? && (exists i: nat :: LastOwn(read, i, r.own))
                  && IsPrefix(r.channels, Channels(read), 8) && IsPrefix(r.known, Infos(read), cap)
  {
    hide Channels, Infos, Own;
    if EndsAt(msgs, want, n) {
      ReadIs(msgs, want, n);
      var i := OwnIsLast(msgs[..n + 1]);
      assert Last(msgs[..n + 1]) == msgs[n];
    }
    if forall i | 0 <= i < |msgs| :: !EndsAt(msgs, want, i) {
      NeverEnds(msgs, want);
    }
  }

  lemma NeverEnds(msgs: seq<Message>, want: nat)
    requires forall i | 0 <= i < |msgs| :: !EndsAt(msgs, want, i)
    ensures forall cap: nat :: Result(cap, msgs, want) == TimedOut
  {
    var n := Read(msgs, want);
    if n > 0 && Ends(msgs[n - 1], want) {
      assert EndsAt(msgs, want, n - 1);
    }
  }

  /** What is reported stays within both ceilings, whatever the radio says. */
  lemma ReportIsBounded(cap: nat, msgs: seq<Message>, want: nat)
    ensures Result(cap, msgs, want).Done? ==>
              |Result(cap, msgs, want).channels| <= MAX_CHANNELS && |Result(cap, msgs, want).known| <= cap
  {
  }

  /** Mismatched completion ids, mesh packets and empty messages change neither the result nor the records. */
  lemma {:induction false} NoiseIsIgnored(cap: nat, front: seq<Message>, noise: Message, back: seq<Message>, want: nat)
    requires noise.MeshPacket? || noise.Nothing? || (noise.ConfigComplete? && noise.id != want)
    ensures Result(cap, front + [noise] + back, want) == Result(cap, front + back, want)
  {
    hide Judged, Read;
    var a, b := front + [noise] + back, front + back;
    var n := Read(b, want);
    if n <= |front| && n > 0 && Ends(b[n - 1], want) {
      assert forall i | 0 <= i < |front| :: a[i] == b[i];
      ReadIs(a, want, n - 1);
      assert a[..n] == b[..n];
    } else {
      NoiseShifts(front, noise, back, want);
      var x := back[..n - |front|];
      assert b[..n] == front + x && a[..n + 1] == front + [noise] + x;
      assert x == [] && front != [] ==> n == |front| && !Ends(Last(front), want);
      NoiseJudged(cap, front, noise, x, want);
    }
  }

  lemma NoiseJudged(cap: nat, front: seq<Message>, noise: Message, back: seq<Message>, want: nat)
    requires noise.MeshPacket? || noise.Nothing? || (noise.ConfigComplete? && noise.id != want)
    requires back == [] && front != [] ==> !Ends(Last(front), want)
    ensures Judged(cap, front + [noise] + back, want) == Judged(cap, front + back, want)
  {
    hide Own, Channels, Infos;
    NoiseInvisible(front, noise, back);
    if back == [] {
      assert front + back == front && Last(front + [noise] + back) == noise;
    } else {
      assert Last(front + [noise] + back) == Last(back) && Last(front + back) == Last(back);
    }
  }

  lemma NoiseShifts(front: seq<Message>, noise: Message, back: seq<Message>, want: nat)
    requires !Ends(noise, want)
    requires var n := Read(front + back, want); !(n <= |front| && n > 0 && Ends((front + back)[n - 1], want))
    ensures Read(front + back, want) >= |front|
    ensures Read(front + [noise] + back, want) == Read(front + back, want) + 1
  {
    var a, b := front + [noise] + back, front + back;
    var n := Read(b, want);
    assert forall i | 0 <= i < |a| :: a[i] == if i < |front| then b[i] else if i == |front| then noise else b[i - 1];
    if n > 0 && Ends(b[n - 1], want) {
      forall i | 0 <= i < n ensures !Ends(a[i], want) {
        assert i > |front| ==> !Ends(b[i - 1], want);
        assert i < |front| ==> !Ends(b[i], want);
      }
      ReadIs(a, want, n);
    } else {
      forall i | 0 <= i < |a| ensures !Ends(a[i], want) {
        assert i > |front| ==> !Ends(b[i - 1], want);
        assert i < |front| ==> !Ends(b[i], want);
      }
      ReadIsAll(a, want);
    }
  }

  lemma {:induction false} NoiseInvisible(front: seq<Message>, noise: Message, back: seq<Message>)
    requires noise.MeshPacket? || noise.Nothing? || noise.ConfigComplete?
    ensures Infos(front + [noise] + back) == Infos(front + back)
    ensures Channels(front + [noise] + back) == Channels(front + back)
    ensures Own(front + [noise] + back) == Own(front + back)
    decreases |back|
  {
    if back == [] {
      assert Init(front + [noise] + back) == front && front + back == front;
    } else {
      NoiseInvisible(front, noise, Init(back));
      assert Init(front + [noise] + back) == front + [noise] + Init(back);
      assert Init(front + back) == front + Init(back);
    }
  }
}
