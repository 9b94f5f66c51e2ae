/**
 Whole runs of the router: sends to reachable and unreachable nodes, pops,
 tracking, acknowledgements, NAKs, timeouts, maintenance and nodes coming online,
 in any order. The state moves by the router's own functions; beside it the run
 keeps what the outbound runs keep, and each message that was stored, as it was sent.
 */
module RouterRuns {
  import opened Common
  import O = Outbound
  import Q = OutboundRuns
  import S = StoreForward
  import D = Delivery
  import R = Router

  type PacketId = nat

  datatype Setup = Setup(cfg: R.Config, encode: R.Encoder, decode: R.Decoder)

  ghost predicate RoundTrips(e: Setup) {
    forall p :: e.decode(e.encode(p)) == Some(p)
  }

  /** A message as it was sent to a node that could not be reached. */
  datatype Letter = Letter(packet: O.Packet, opt: R.SendOptions)

  datatype World = World(out: Q.World, stores: S.Queues, tracker: D.Tracker, homes: map<PacketId, Letter>) {
    function State(): R.State {
      R.State(out.queue, stores, tracker)
    }

    function With(s: R.State): World {
      this.(out := out.(queue := s.queue), stores := s.stores, tracker := s.tracker)
    }
  }

  datatype Op =
    | Send(packet: O.Packet, reachable: bool, opt: R.SendOptions, nowMs: nat)
    | Pop
    | Track(id: PacketId)
    | Ack(id: PacketId, hops: Option<nat>)
    | Nak(id: PacketId, reason: D.Failure)
    | TimeOut(order: seq<PacketId>)
    | Maintain(expired: seq<PacketId>, nowMs: nat)
    | Online(dest: nat)
    | Wait(until: nat)

  const START := World(Q.START, map[], D.EMPTY, map[])

  /** Ids are not reused, only a message in hand is tracked, and passes visit what they should, each once. */
  ghost predicate Allowed(e: Setup, w: World, op: Op) {
    match op
    case Send(p, _, _, _) => p.id !in w.out.births && p.id !in w.homes
    case Track(id) => id in w.out.hand
    case TimeOut(order) => Distinct(order) && Elements(order) == O.TimedOutIds(w.out.queue, w.out.now)
    case Maintain(expired, _) =>
      Distinct(expired) && Elements(expired) == D.StaleIds(w.tracker, e.cfg.recordMaxAge, w.out.now)
    case Wait(until) => w.out.now <= until
    case _ => true
  }

  function Born(births: map<PacketId, Q.Birth>, ms: seq<O.Pending>): map<PacketId, Q.Birth> {
    if ms == [] then births
    else
      var m := Last(ms);
      Born(births, Init(ms))[m.packet.id := Q.Birth(m.packet, m.priority, m.created, m.ttl)]
  }

  /** The world after these messages have joined the outbound queue. */
  function Arrived(w: World, ms: seq<O.Pending>): World {
    w.(out := w.out.(births := Born(w.out.births, ms), arrivals := w.out.arrivals + ms))
  }

  function NakedOnce(e: Setup, w: World, id: PacketId, reason: D.Failure): World {
    var (ok, s) := R.Naked(e.cfg, w.State(), id, reason);
    var w' := w.With(s);
    if ok && id in w.out.queue.inflight
    then w'.(out := w'.out.(arrivals := w.out.arrivals + [O.RetryOf(w.out.queue.inflight[id])]))
    else w'
  }

  function NakedAll(e: Setup, w: World, ids: seq<PacketId>): World {
    if ids == [] then w else NakedOnce(e, NakedAll(e, w, Init(ids)), Last(ids), D.MaxRetries)
  }

  /** The stored messages that a node coming online puts in the queue. */
  function Reviving(e: Setup, w: World, dest: nat): seq<O.Pending> {
    R.Revived(e.decode, S.QueueOf(w.stores, dest)[..R.Moved(e.cfg, w.State(), dest)], w.out.now)
  }

  ghost function Next(e: Setup, w: World, op: Op): World
    requires Allowed(e, w, op)
  {
    var s, now := w.State(), w.out.now;
    match op
    case Send(p, reachable, opt, nowMs) =>
      var (ok, s') := R.Sent(e.cfg, s, e.encode, p, reachable, opt, now, nowMs);
      if !ok then w.With(s')
      else if reachable then Arrived(w.With(s'), [R.NewPending(p, opt, now)])
      else w.With(s').(homes := w.homes[p.id := Letter(p, opt)])
    case Pop =>
      var (m, s') := R.Popped(e.cfg, s, now);
      (match m
       case None => w.With(s')
       case Some(m) =>
         w.With(s').(out := w.out.(queue := s'.queue, hand := w.out.hand[m.packet.id := m],
                                   log := w.out.log + [Q.HandOut(m.packet, now)])))
    case Track(id) =>
      w.(out := w.out.(queue := O.Tracked(e.cfg.limits, s.queue, w.out.hand[id], now, e.cfg.ackTimeout),
                       hand := w.out.hand - {id}))
    case Ack(id, hops) => w.With(R.Acked(s, id, hops, now))
    case Nak(id, reason) => NakedOnce(e, w, id, reason)
    case TimeOut(order) => NakedAll(e, w, order)
    case Maintain(expired, nowMs) => w.With(R.Maintained(e.cfg, s, expired, now, nowMs))
    case Online(dest) => Arrived(w.With(R.CameOnline(e.cfg, s, e.decode, dest, now)), Reviving(e, w, dest))
    case Wait(until) => w.(out := w.out.(now := until))
  }

  ghost predicate Run(e: Setup, worlds: seq<World>, ops: seq<Op>) {
    && |worlds| == |ops| + 1 && worlds[0] == START
    && forall i | 0 <= i < |ops| :: Allowed(e, worlds[i], ops[i]) && worlds[i + 1] == Next(e, worlds[i], ops[i])
  }

  /** A timeout pass in the run is the router's timeout pass. */
  lemma {:induction false} TimeoutPassIsTheRouters(e: Setup, w: World, ids: seq<PacketId>)
    ensures NakedAll(e, w, ids).State() == R.TimedOut(e.cfg, w.State(), ids)
    ensures NakedAll(e, w, ids).homes == w.homes
    decreases |ids|
  {
    if ids == [] {
    } else {
      TimeoutPassIsTheRouters(e, w, Init(ids));
    }
  }

  // ------------------------------------------------------------- invariant

  ghost predicate DistinctStored(q: seq<S.Stored>) {
    forall i, j | 0 <= i < j < |q| :: q[i].packetId != q[j].packetId
  }

  /** A stored message is as it was sent, waits at its own node, and has not been queued. */
  ghost predicate Waits(e: Setup, w: World, d: nat, m: S.Stored) {
    && m.packetId in w.homes && m.packetId !in w.out.births
    && var letter := w.homes[m.packetId];
    && e.decode(m.packetBytes) == Some(letter.packet) && letter.packet.id == m.packetId && letter.packet.to == d
    && m.priority == letter.opt.priority && m.ttlSecs == letter.opt.ttlSecs
  }

  ghost predicate QueueWaits(e: Setup, w: World, d: nat, q: seq<S.Stored>) {
    DistinctStored(q) && forall m | m in q :: Waits(e, w, d, m)
  }

  ghost predicate StoresWait(e: Setup, w: World) {
    forall d | d in w.stores :: QueueWaits(e, w, d, w.stores[d])
  }

  ghost predicate WithinBounds(e: Setup, w: World) {
    S.Bounded(e.cfg.maxQueuePerDest, w.stores)
  }

  ghost predicate Inv(e: Setup, w: World) {
    Q.Reachable(e.cfg.limits, w.out) && StoresWait(e, w) && WithinBounds(e, w)
  }

  // ------------------------------------------------------------- stored messages

  lemma {:induction false} SubsequenceWaits(e: Setup, w: World, d: nat, a: seq<S.Stored>, b: seq<S.Stored>)
    requires Subsequence(a, b) && QueueWaits(e, w, d, b)
    ensures QueueWaits(e, w, d, a) && forall m | m in a :: m in b
    decreases |b|
  {
    hide Waits;
    if a == [] {
    } else {
      assert QueueWaits(e, w, d, Init(b));
      if Last(a) == Last(b) && Subsequence(Init(a), Init(b)) {
        SubsequenceWaits(e, w, d, Init(a), Init(b));
        assert a == Init(a) + [Last(a)] && b == Init(b) + [Last(b)];
        forall i | 0 <= i < |a| - 1 ensures a[i].packetId != Last(a).packetId {
          assert Init(a)[i] in Init(b);
        }
      } else {
        SubsequenceWaits(e, w, d, a, Init(b));
      }
    }
  }

  lemma OfferWaits(e: Setup, w: World, d: nat, q: seq<S.Stored>, m: S.Stored)
    requires QueueWaits(e, w, d, q) && Waits(e, w, d, m) && forall x | x in q :: x.packetId != m.packetId
    ensures QueueWaits(e, w, d, S.Offered(e.cfg.maxQueuePerDest, q, m).queue)
  {
    hide Waits, Subsequence, S.Offered;
    SuffixIsSubsequence([], q);
    assert [] + q == q;
    S.OfferInOrder(e.cfg.maxQueuePerDest, q, q, m);
    assert QueueWaits(e, w, d, q + [m]);
    SubsequenceWaits(e, w, d, S.Offered(e.cfg.maxQueuePerDest, q, m).queue, q + [m]);
  }

  /** New births and new homes elsewhere do not concern a queue whose ids are not among them. */
  lemma WaitsStill(e: Setup, w: World, w': World, d: nat, q: seq<S.Stored>)
    requires QueueWaits(e, w, d, q)
    requires forall m | m in q :: m.packetId !in w'.out.births
    requires forall id | id in w.homes :: id in w'.homes && w'.homes[id] == w.homes[id]
    ensures QueueWaits(e, w', d, q)
  {
    forall m | m in q ensures Waits(e, w', d, m) {
      assert Waits(e, w, d, m);
    }
  }

  // ---------------------------------- every router step is a run of queue steps

  lemma {:induction false} BornKeys(births: map<PacketId, Q.Birth>, ms: seq<O.Pending>)
    ensures forall id :: id in Born(births, ms) <==> id in births || exists m :: m in ms && m.packet.id == id
    decreases |ms|
  {
    if ms == [] {
    } else {
      BornKeys(births, Init(ms));
      assert ms == Init(ms) + [Last(ms)];
    }
  }

  /** The outbound world once all of `ms` have been enqueued in turn. */
  function Enqueued(out: Q.World, ms: seq<O.Pending>): Q.World {
    out.(queue := out.queue.(pending := R.InsertedAll(out.queue.pending, ms)),
         births := Born(out.births, ms), arrivals := out.arrivals + ms)
  }

  /** Messages never queued before, with distinct ids, as they are enqueued at time `now`. */
  ghost predicate Newcomers(out: Q.World, ms: seq<O.Pending>) {
    && O.DistinctIds(ms)
    && forall m | m in ms :: m.created == out.now && m.retries == 0 && m.packet.id !in out.births
  }

  lemma {:induction false} EnqueuedIsReachable(lim: O.Limits, out: Q.World, ms: seq<O.Pending>)
    requires Q.Reachable(lim, out) && Newcomers(out, ms)
    requires ms == [] || |out.queue.pending| + |ms| <= lim.maxPending
    ensures Q.Reachable(lim, Enqueued(out, ms))
    decreases |ms|
  {
    if ms == [] {
      assert Enqueued(out, ms) == out;
    } else {
      hide Q.Reachable, Q.Next, Enqueued, Newcomers;
      var m := Last(ms);
      NotYetBorn(out, ms);
      EnqueuedIsReachable(lim, out, Init(ms));
      EnqueuedStep(lim, out, ms);
      Q.NextIsReachable(lim, Enqueued(out, Init(ms)), Q.Send(m.packet, m.ttl, m.priority));
    }
  }

  lemma EnqueuedStep(lim: O.Limits, out: Q.World, ms: seq<O.Pending>)
    requires ms != [] && Newcomers(out, ms) && |out.queue.pending| + |ms| <= lim.maxPending
    ensures var m, before := Last(ms), Enqueued(out, Init(ms));
            && Q.Allowed(before, Q.Send(m.packet, m.ttl, m.priority))
            && Q.Next(lim, before, Q.Send(m.packet, m.ttl, m.priority)) == Enqueued(out, ms)
  {
    hide O.Insert;
    var init, m := Init(ms), Last(ms);
    NotYetBorn(out, ms);
    R.InsertedAllAdds(out.queue.pending, init);
    assert m in ms && m == O.Pending(m.packet, out.now, m.ttl, m.priority, 0);
    assert out.arrivals + init + [m] == out.arrivals + ms;
  }

  lemma NotYetBorn(out: Q.World, ms: seq<O.Pending>)
    requires ms != [] && Newcomers(out, ms)
    ensures Newcomers(out, Init(ms)) && Last(ms).packet.id !in Born(out.births, Init(ms))
  {
    BornKeys(out.births, Init(ms));
    assert forall i | 0 <= i < |ms| - 1 :: ms[i].packet.id != Last(ms).packet.id;
  }

  lemma NakIsARetry(e: Setup, w: World, id: PacketId, reason: D.Failure)
    requires Q.Reachable(e.cfg.limits, w.out)
    ensures NakedOnce(e, w, id, reason).out == Q.Next(e.cfg.limits, w.out, Q.Retry(id))
    ensures Q.Reachable(e.cfg.limits, NakedOnce(e, w, id, reason).out)
    ensures NakedOnce(e, w, id, reason).out.births == w.out.births
    ensures NakedOnce(e, w, id, reason).stores == w.stores
  {
    hide Q.Reachable, O.Insert;
    Q.NextIsReachable(e.cfg.limits, w.out, Q.Retry(id));
  }

  lemma {:induction false} TimeoutsAreRetries(e: Setup, w: World, ids: seq<PacketId>)
    requires Q.Reachable(e.cfg.limits, w.out)
    ensures Q.Reachable(e.cfg.limits, NakedAll(e, w, ids).out)
    ensures NakedAll(e, w, ids).out.births == w.out.births
    ensures NakedAll(e, w, ids).stores == w.stores
    decreases |ids|
  {
    if ids == [] {
    } else {
      hide Q.Reachable, NakedOnce;
      TimeoutsAreRetries(e, w, Init(ids));
      NakIsARetry(e, NakedAll(e, w, Init(ids)), Last(ids), D.MaxRetries);
    }
  }

  lemma RevivingIsNew(e: Setup, w: World, dest: nat)
    requires StoresWait(e, w)
    ensures var n := R.Moved(e.cfg, w.State(), dest);
            && Newcomers(w.out, Reviving(e, w, dest)) && |Reviving(e, w, dest)| == n
            && forall i | 0 <= i < n :: Reviving(e, w, dest)[i].packet.id == S.QueueOf(w.stores, dest)[i].packetId
  {
    hide R.Revived;
    var stored, n := S.QueueOf(w.stores, dest), R.Moved(e.cfg, w.State(), dest);
    var taken := stored[..n];
    forall m | m in taken ensures Waits(e, w, dest, m) {
      assert m in stored;
    }
    R.RevivedCount(e.decode, taken, w.out.now);
    forall i | 0 <= i < n
      ensures var r := Reviving(e, w, dest)[i];
              r.packet.id == stored[i].packetId && r.created == w.out.now && r.retries == 0
    {
      R.RevivedAt(e.decode, taken, w.out.now, i);
      assert taken[i] in taken;
    }
    forall i | 0 <= i < n ensures stored[i].packetId !in w.out.births {
      assert Waits(e, w, dest, taken[i]);
    }
  }

  lemma OnlineIsSends(e: Setup, w: World, dest: nat)
    requires Inv(e, w)
    ensures Q.Reachable(e.cfg.limits, Next(e, w, Online(dest)).out)
  {
    hide Q.Reachable, WithinBounds, Newcomers, Born, R.InsertedAll, R.Revived, R.StoredAll;
    RevivingIsNew(e, w, dest);
    EnqueuedIsReachable(e.cfg.limits, w.out, Reviving(e, w, dest));
  }

  lemma SendIsASend(e: Setup, w: World, op: Op)
    requires Q.Reachable(e.cfg.limits, w.out) && Allowed(e, w, op) && op.Send?
    ensures Q.Reachable(e.cfg.limits, Next(e, w, op).out)
    ensures forall id :: id in Next(e, w, op).out.births ==> id in w.out.births || id == op.packet.id
    ensures !op.reachable ==> Next(e, w, op).out == w.out
    ensures op.reachable ==> Next(e, w, op).stores == w.stores && Next(e, w, op).homes == w.homes
  {
    hide Q.Reachable, O.Insert, S.StoredIn;
    var p, opt := op.packet, op.opt;
    if op.reachable && |w.out.queue.pending| < e.cfg.limits.maxPending {
      var m := R.NewPending(p, opt, w.out.now);
      assert Init([m]) == [] && Last([m]) == m && Born(w.out.births, []) == w.out.births;
      Q.NextIsReachable(e.cfg.limits, w.out, Q.Send(p, opt.ttlSecs * 1000, opt.priority));
    }
  }

  /** The outbound queue inside the router only ever does what the queue alone can do. */
  lemma StepIsReachable(e: Setup, w: World, op: Op)
    requires Inv(e, w) && Allowed(e, w, op)
    ensures Q.Reachable(e.cfg.limits, Next(e, w, op).out)
  {
    hide Q.Reachable, StoresWait, WithinBounds, O.TimedOutIds, D.StaleIds;
    var lim := e.cfg.limits;
    match op {
      case Send(_, _, _, _) => SendIsASend(e, w, op);
      case Pop => Q.NextIsReachable(lim, w.out, Q.Pop);
      case Track(id) => Q.NextIsReachable(lim, w.out, Q.Track(id, e.cfg.ackTimeout));
      case Ack(id, _) => Q.NextIsReachable(lim, w.out, Q.Ack(id));
      case Nak(id, reason) => NakIsARetry(e, w, id, reason);
      case TimeOut(order) => TimeoutsAreRetries(e, w, order);
      case Maintain(_, _) => Q.NextIsReachable(lim, w.out, Q.DrainExpired);
      case Online(dest) => OnlineIsSends(e, w, dest);
      case Wait(until) => Q.NextIsReachable(lim, w.out, Q.Wait(until));
    }
  }

  // ------------------------------------------------- what steps do to the stores

  lemma SendWaits(e: Setup, w: World, op: Op)
    requires RoundTrips(e) && StoresWait(e, w) && Allowed(e, w, op) && op.Send?
    requires Q.Reachable(e.cfg.limits, w.out)
    ensures StoresWait(e, Next(e, w, op))
  {
    hide Q.Reachable, S.Offered, QueueWaits;
    SendIsASend(e, w, op);
    var w', dest := Next(e, w, op), op.packet.to;
    forall d | d in w.stores ensures QueueWaits(e, w', d, w.stores[d]) {
      StoredIdsHaveHomes(e, w, d);
      WaitsStill(e, w, w', d, w.stores[d]);
    }
    if !op.reachable {
      var q, m := S.QueueOf(w.stores, dest), R.NewStored(e.encode, op.packet, op.opt, op.nowMs);
      if dest !in w.stores && |w.stores| >= S.MAX_DESTINATIONS {
        assert w'.stores == w.stores;
      } else {
        StoredIdsHaveHomes(e, w, dest);
        NothingWaits(e, w', dest);
        assert QueueWaits(e, w', dest, q);
        if S.Offered(e.cfg.maxQueuePerDest, q, m).accepted {
          OfferWaits(e, w', dest, q, m);
        } else {
          RefusedKeeps(e.cfg.maxQueuePerDest, q, m);
        }
      }
    }
  }

  lemma RefusedKeeps(k: nat, q: seq<S.Stored>, m: S.Stored)
    requires !S.Offered(k, q, m).accepted
    ensures S.Offered(k, q, m).queue == q
  {
  }

  lemma NothingWaits(e: Setup, w: World, d: nat)
    ensures QueueWaits(e, w, d, [])
  {
  }

  lemma StoredIdsHaveHomes(e: Setup, w: World, d: nat)
    requires StoresWait(e, w)
    ensures QueueWaits(e, w, d, S.QueueOf(w.stores, d))
    ensures forall m | m in S.QueueOf(w.stores, d) ::
              m.packetId in w.homes && w.homes[m.packetId].packet.to == d && m.packetId !in w.out.births
  {
    var q := S.QueueOf(w.stores, d);
    NothingWaits(e, w, d);
    forall m | m in q ensures Waits(e, w, d, m) {}
  }

  lemma MaintenanceWaits(e: Setup, w: World, w': World, nowMs: nat)
    requires StoresWait(e, w) && w'.stores == S.Pruned(w.stores, nowMs)
    requires w'.homes == w.homes && w'.out.births == w.out.births
    ensures StoresWait(e, w')
  {
    hide QueueWaits, S.Unexpired;
    forall d | d in w'.stores ensures QueueWaits(e, w', d, w'.stores[d]) {
      S.UnexpiredInOrder(w.stores[d], nowMs);
      SubsequenceWaits(e, w, d, w'.stores[d], w.stores[d]);
      StoredIdsHaveHomes(e, w, d);
      WaitsStill(e, w, w', d, w'.stores[d]);
    }
  }

  /** The messages deferred are none of those moved. */
  lemma DeferredAreNotBorn(e: Setup, w: World, dest: nat)
    requires StoresWait(e, w)
    ensures var stored, n := S.QueueOf(w.stores, dest), R.Moved(e.cfg, w.State(), dest);
            forall m | m in stored[n..] :: m.packetId !in Born(w.out.births, Reviving(e, w, dest))
    ensures forall d, m | d != dest && m in S.QueueOf(w.stores, d) ::
              m.packetId !in Born(w.out.births, Reviving(e, w, dest))
  {
    hide Reviving, Newcomers, Born;
    var stored, n := S.QueueOf(w.stores, dest), R.Moved(e.cfg, w.State(), dest);
    var ms := Reviving(e, w, dest);
    RevivingIsNew(e, w, dest);
    BornKeys(w.out.births, ms);
    StoredIdsHaveHomes(e, w, dest);
    forall x | x in ms ensures exists i :: 0 <= i < n && stored[i].packetId == x.packet.id {
      var i :| 0 <= i < |ms| && ms[i] == x;
      assert stored[i].packetId == x.packet.id;
    }
    forall d, m | d != dest && m in S.QueueOf(w.stores, d) ensures m.packetId !in Born(w.out.births, ms) {
      StoredIdsHaveHomes(e, w, d);
    }
  }

  lemma OnlineParts(e: Setup, w: World, dest: nat)
    requires |w.stores| <= S.MAX_DESTINATIONS
    ensures var w', deferred := Next(e, w, Online(dest)), S.QueueOf(w.stores, dest)[R.Moved(e.cfg, w.State(), dest)..];
            && w'.homes == w.homes && w'.out.births == Born(w.out.births, Reviving(e, w, dest))
            && w'.stores - {dest} == w.stores - {dest}
            && S.QueueOf(w'.stores, dest) == S.Kept(e.cfg.maxQueuePerDest, deferred)
            && w'.stores.Keys <= w.stores.Keys
  {
    hide R.CameOnline, R.Moved, Born, Reviving, S.Kept;
    var deferred := S.QueueOf(w.stores, dest)[R.Moved(e.cfg, w.State(), dest)..];
    R.OnlineStores(e.cfg, w.State(), e.decode, dest, w.out.now);
    Requeued(w.stores, dest, deferred, S.Kept(e.cfg.maxQueuePerDest, deferred));
    NothingKept(e.cfg.maxQueuePerDest);
  }

  lemma NothingKept(k: nat)
    ensures S.Kept(k, []) == []
  {
  }

  lemma Requeued(qs: S.Queues, dest: nat, deferred: seq<S.Stored>, kept: seq<S.Stored>)
    requires deferred != [] ==> dest in qs
    ensures var qs' := if deferred == [] then qs - {dest} else (qs - {dest})[dest := kept];
            && qs' - {dest} == qs - {dest} && qs'.Keys <= qs.Keys
            && S.QueueOf(qs', dest) == if deferred == [] then [] else kept
  {
  }

  lemma OnlineWaits(e: Setup, w: World, dest: nat)
    requires StoresWait(e, w) && |w.stores| <= S.MAX_DESTINATIONS
    ensures StoresWait(e, Next(e, w, Online(dest)))
  {
    hide QueueWaits, Born, Reviving, S.Kept, Next, Subsequence;
    var stored, n := S.QueueOf(w.stores, dest), R.Moved(e.cfg, w.State(), dest);
    var w', deferred := Next(e, w, Online(dest)), stored[n..];
    OnlineParts(e, w, dest);
    DeferredAreNotBorn(e, w, dest);
    forall d | d in w'.stores && d != dest ensures QueueWaits(e, w', d, w'.stores[d]) {
      assert d in w'.stores - {dest} && w'.stores[d] == (w'.stores - {dest})[d];
      StoredIdsHaveHomes(e, w, d);
      WaitsStill(e, w, w', d, w.stores[d]);
    }
    if dest in w'.stores {
      StoredIdsHaveHomes(e, w, dest);
      SuffixIsSubsequence(stored[..n], deferred);
      assert stored[..n] + deferred == stored;
      SubsequenceWaits(e, w, dest, deferred, stored);
      WaitsStill(e, w, w', dest, deferred);
      S.KeptInArrivalOrder(e.cfg.maxQueuePerDest, deferred);
      SubsequenceWaits(e, w', dest, S.Kept(e.cfg.maxQueuePerDest, deferred), deferred);
    }
  }

  lemma StepWaits(e: Setup, w: World, op: Op)
    requires RoundTrips(e) && Inv(e, w) && Allowed(e, w, op)
    ensures StoresWait(e, Next(e, w, op))
  {
    hide Q.Reachable, QueueWaits, O.TimedOutIds, D.StaleIds;
    var w' := Next(e, w, op);
    match op {
      case Send(_, _, _, _) => SendWaits(e, w, op);
      case Maintain(_, nowMs) => MaintenanceWaits(e, w, w', nowMs);
      case Online(dest) => OnlineWaits(e, w, dest);
      case Nak(id, reason) =>
        NakIsARetry(e, w, id, reason);
        StillWaiting(e, w, w');
      case TimeOut(order) =>
        TimeoutsAreRetries(e, w, order);
        TimeoutPassIsTheRouters(e, w, order);
        StillWaiting(e, w, w');
      case _ => StillWaiting(e, w, w');
    }
  }

  lemma StillWaiting(e: Setup, w: World, w': World)
    requires StoresWait(e, w) && w'.stores == w.stores && w'.homes == w.homes && w'.out.births == w.out.births
    ensures StoresWait(e, w')
  {
    hide QueueWaits;
    forall d | d in w'.stores ensures QueueWaits(e, w', d, w'.stores[d]) {
      StoredIdsHaveHomes(e, w, d);
      WaitsStill(e, w, w', d, w.stores[d]);
    }
  }

  lemma StoreBounds(e: Setup, w: World, dest: nat, m: S.Stored)
    requires WithinBounds(e, w)
    ensures WithinBounds(e, w.(stores := S.StoredIn(e.cfg.maxQueuePerDest, w.stores, dest, m).1))
  {
    S.StoreKeepsBounds(e.cfg.maxQueuePerDest, w.stores, dest, m);
  }

  lemma OnlineBounds(e: Setup, w: World, dest: nat)
    requires WithinBounds(e, w)
    ensures WithinBounds(e, Next(e, w, Online(dest)))
  {
    hide Next, Reviving, Born, S.Kept, S.AllFit;
    var k, stored, n := e.cfg.maxQueuePerDest, S.QueueOf(w.stores, dest), R.Moved(e.cfg, w.State(), dest);
    var qs := Next(e, w, Online(dest)).stores;
    OnlineParts(e, w, dest);
    SubmapSize(qs, w.stores);
    forall d | d in qs ensures S.AllFit(k, qs[d]) {
      if d == dest {
        SuffixFits(k, stored, n);
        S.KeptWhole(k, stored[n..]);
      } else {
        assert d in qs - {dest} && qs[d] == (qs - {dest})[d];
      }
    }
  }

  lemma SuffixFits(k: nat, q: seq<S.Stored>, n: nat)
    requires S.AllFit(k, q) && n <= |q|
    ensures S.AllFit(k, q[n..])
  {
  }

  lemma MaintenanceBounds(e: Setup, w: World, nowMs: nat)
    requires WithinBounds(e, w)
    ensures WithinBounds(e, w.(stores := S.Pruned(w.stores, nowMs)))
  {
    S.PruneKeepsBounds(e.cfg.maxQueuePerDest, w.stores, nowMs);
  }

  lemma SameBounds(e: Setup, w: World, w': World)
    requires WithinBounds(e, w) && w'.stores == w.stores
    ensures WithinBounds(e, w')
  {
  }

  lemma StepBounds(e: Setup, w: World, op: Op)
    requires Inv(e, w) && Allowed(e, w, op)
    ensures WithinBounds(e, Next(e, w, op))
  {
    hide Q.Reachable, WithinBounds, StoresWait, O.TimedOutIds, D.StaleIds;
    var w' := Next(e, w, op);
    match op {
      case Send(p, _, opt, nowMs) =>
        SendIsASend(e, w, op);
        var m := R.NewStored(e.encode, p, opt, nowMs);
        var stored := w.(stores := S.StoredIn(e.cfg.maxQueuePerDest, w.stores, p.to, m).1);
        StoreBounds(e, w, p.to, m);
        SameBounds(e, if op.reachable then w else stored, w');
      case Maintain(_, nowMs) =>
        MaintenanceBounds(e, w, nowMs);
        SameBounds(e, w.(stores := S.Pruned(w.stores, nowMs)), w');
      case Online(dest) => OnlineBounds(e, w, dest);
      case Nak(id, reason) =>
        NakIsARetry(e, w, id, reason);
        SameBounds(e, w, w');
      case TimeOut(order) =>
        TimeoutsAreRetries(e, w, order);
        SameBounds(e, w, w');
      case _ => SameBounds(e, w, w');
    }
  }

  // -------------------------------------------------------------- whole runs

  /** Every state of every run keeps the invariant; its outbound queue is one the queue alone could reach. */
  lemma {:induction false} RunKeeps(e: Setup, worlds: seq<World>, ops: seq<Op>, i: nat)
    requires RoundTrips(e) && Run(e, worlds, ops) && i <= |ops|
    ensures Inv(e, worlds[i])
  {
    if i == 0 {
      Q.StartIsReachable(e.cfg.limits);
    } else {
      hide Q.Reachable, StoresWait, WithinBounds, Next, Allowed, RoundTrips;
      RunKeeps(e, worlds, ops, i - 1);
      StepIsReachable(e, worlds[i - 1], ops[i - 1]);
      StepWaits(e, worlds[i - 1], ops[i - 1]);
      StepBounds(e, worlds[i - 1], ops[i - 1]);
    }
  }

  ghost predicate StoredAt(w: World, id: PacketId, d: nat, i: nat) {
    d in w.stores && i < |w.stores[d]| && w.stores[d][i].packetId == id
  }

  ghost predicate Stored(w: World, id: PacketId) {
    exists d, i: nat :: StoredAt(w, id, d, i)
  }

  ghost predicate Pending(w: World, id: PacketId) {
    exists m :: m in w.out.queue.pending && m.packet.id == id
  }

  function Bit(b: bool): nat {
    if b then 1 else 0
  }

  /**
   In every state of every run, a message is in at most one place: stored for
   one node, waiting, in hand, or in flight, and there at most once.
   */
  lemma OnePlacePerId(e: Setup, worlds: seq<World>, ops: seq<Op>, i: nat, id: PacketId)
    requires RoundTrips(e) && Run(e, worlds, ops) && i <= |ops|
    ensures var w := worlds[i];
            && Bit(Stored(w, id)) + Bit(Pending(w, id)) + Bit(id in w.out.hand) + Bit(id in w.out.queue.inflight) <= 1
            && (forall d, j: nat, d', j': nat | StoredAt(w, id, d, j) && StoredAt(w, id, d', j') :: d == d' && j == j')
            && O.DistinctIds(w.out.queue.pending)
  {
    hide Q.Reachable, WithinBounds, Next, Allowed, RoundTrips;
    var w := worlds[i];
    RunKeeps(e, worlds, ops, i);
    Q.ReachableKeeps(e.cfg.limits, w.out);
    StoredOnce(e, w, id);
    PlacesApart(e, w, id);
  }

  lemma StoredOnce(e: Setup, w: World, id: PacketId)
    requires StoresWait(e, w)
    ensures forall d, j: nat, d', j': nat | StoredAt(w, id, d, j) && StoredAt(w, id, d', j') :: d == d' && j == j'
    ensures Stored(w, id) ==> id !in w.out.births
  {
    forall d, j: nat, d', j': nat | StoredAt(w, id, d, j) && StoredAt(w, id, d', j') ensures d == d' && j == j' {
      assert Waits(e, w, d, w.stores[d][j]) && Waits(e, w, d', w.stores[d'][j']);
    }
    if Stored(w, id) {
      var d, j: nat :| StoredAt(w, id, d, j);
      assert Waits(e, w, d, w.stores[d][j]);
    }
  }

  lemma PlacesApart(e: Setup, w: World, id: PacketId)
    requires StoresWait(e, w) && Q.Inv(e.cfg.limits, w.out)
    ensures Bit(Stored(w, id)) + Bit(Pending(w, id)) + Bit(id in w.out.hand) + Bit(id in w.out.queue.inflight) <= 1
  {
    hide Stored, StoresWait, Q.LogKept, Q.Ordered, O.DistinctIds;
    StoredOnce(e, w, id);
  }

  /** Hand-outs are bounded, pending stays within its limit, and each priority is served in order of arrival. */
  lemma QueueGuarantees(e: Setup, worlds: seq<World>, ops: seq<Op>, i: nat, id: PacketId)
    requires RoundTrips(e) && Run(e, worlds, ops) && i <= |ops|
    ensures Q.Times(worlds[i].out.log, id) <= e.cfg.limits.maxRetries + 1
    ensures |worlds[i].out.queue.pending| <= e.cfg.limits.maxPending && Q.InArrivalOrder(worlds[i].out)
  {
    RunKeeps(e, worlds, ops, i);
    Q.ReachableKeeps(e.cfg.limits, worlds[i].out);
  }

  /** In every state of every run, a node coming online loses nothing. */
  lemma OnlineConservesInRuns(e: Setup, worlds: seq<World>, ops: seq<Op>, i: nat, dest: nat)
    requires RoundTrips(e) && Run(e, worlds, ops) && i <= |ops|
    ensures var s := worlds[i].State();
            var n, s' := R.Moved(e.cfg, s, dest), R.CameOnline(e.cfg, s, e.decode, dest, worlds[i].out.now);
            var moved := R.Revived(e.decode, S.QueueOf(s.stores, dest)[..n], worlds[i].out.now);
            && |moved| == n && R.Joined(s.queue.pending, s'.queue.pending, moved)
            && R.DeferredKept(s, s', dest, n)
            && |s'.queue.pending| <= e.cfg.limits.maxPending
            && (n < |S.QueueOf(s.stores, dest)| ==> |s'.queue.pending| == e.cfg.limits.maxPending)
  {
    hide Q.Reachable, Next, Allowed, RoundTrips, R.Joined, R.DeferredKept, R.CameOnline, R.Revived, R.Moved;
    var w := worlds[i];
    RunKeeps(e, worlds, ops, i);
    Q.ReachableKeeps(e.cfg.limits, w.out);
    forall m | m in S.QueueOf(w.stores, dest) ensures e.decode(m.packetBytes).Some? {
      assert Waits(e, w, dest, m);
    }
    R.OnlineConserves(e.cfg, w.State(), e.decode, dest, w.out.now);
  }

  // ------------------------------------------------ what is sent, and by when

  lemma AsSentTtl(m: O.Pending, p: O.Packet, opt: R.SendOptions, now: nat)
    requires R.AsSent(m, p, opt, now)
    ensures m.ttl == opt.ttlSecs * 1000
  {
    assert m.Expired(now + m.ttl) && (m.Expired(now + opt.ttlSecs * 1000) <==> opt.ttlSecs * 1000 >= m.ttl);
  }

  lemma {:induction false} BornAs(births: map<PacketId, Q.Birth>, ms: seq<O.Pending>, id: PacketId) returns (i: nat)
    requires id in Born(births, ms)
    ensures (id in births && Born(births, ms)[id] == births[id])
            || (i < |ms| && ms[i].packet.id == id
                && Born(births, ms)[id] == Q.Birth(ms[i].packet, ms[i].priority, ms[i].created, ms[i].ttl))
    decreases |ms|
  {
    if ms == [] {
      i := 0;
    } else if Last(ms).packet.id == id {
      i := |ms| - 1;
    } else {
      i := BornAs(births, Init(ms), id);
    }
  }

  /** The options a stored message is revived with. */
  function RevivedOptions(opt: R.SendOptions): R.SendOptions {
    opt.(priority := if opt.priority in {0, 1, 10, 64, 70, 120, 127} then opt.priority else 64)
  }

  function BirthOf(p: O.Packet, opt: R.SendOptions, now: nat): Q.Birth {
    Q.Birth(p, opt.priority, now, opt.ttlSecs * 1000)
  }

  /** A birth is new only by an accepted send, or by the node of a stored message coming online. */
  lemma NewBirth(e: Setup, w: World, op: Op, id: PacketId)
    requires Inv(e, w) && Allowed(e, w, op) && id in Next(e, w, op).out.births
    ensures var b := Next(e, w, op).out.births[id];
            || (id in w.out.births && b == w.out.births[id])
            || (op.Send? && op.reachable && op.packet.id == id && b == BirthOf(op.packet, op.opt, w.out.now))
            || (op.Online? && id in w.homes && w.homes[id].packet.to == op.dest && w.homes[id].packet.id == id
                && b == BirthOf(w.homes[id].packet, RevivedOptions(w.homes[id].opt), w.out.now))
  {
    hide Q.Reachable, QueueWaits, O.TimedOutIds, D.StaleIds, WithinBounds, S.StoredIn;
    match op {
      case Send(p, reachable, opt, nowMs) =>
        var m := R.NewPending(p, opt, w.out.now);
        assert Init([m]) == [] && Last([m]) == m && Born(w.out.births, []) == w.out.births;
      case Nak(x, reason) => NakIsARetry(e, w, x, reason);
      case TimeOut(order) => TimeoutsAreRetries(e, w, order);
      case Online(dest) => RevivalBirth(e, w, dest, id);
      case _ =>
    }
  }

  lemma RevivalBirth(e: Setup, w: World, dest: nat, id: PacketId)
    requires StoresWait(e, w) && id in Born(w.out.births, Reviving(e, w, dest))
    ensures var b := Born(w.out.births, Reviving(e, w, dest))[id];
            || (id in w.out.births && b == w.out.births[id])
            || (id in w.homes && w.homes[id].packet.to == dest && w.homes[id].packet.id == id
                && b == BirthOf(w.homes[id].packet, RevivedOptions(w.homes[id].opt), w.out.now))
  {
    hide Born, R.Revived, R.AsSent;
    var ms := Reviving(e, w, dest);
    var i := BornAs(w.out.births, ms, id);
    RevivingIsNew(e, w, dest);
    if i < |ms| && ms[i].packet.id == id {
      var stored, n := S.QueueOf(w.stores, dest), R.Moved(e.cfg, w.State(), dest);
      var taken := stored[..n];
      forall m | m in taken ensures Waits(e, w, dest, m) {
        assert m in stored;
      }
      R.RevivedAt(e.decode, taken, w.out.now, i);
      assert Waits(e, w, dest, taken[i]);
      var letter := w.homes[id];
      assert R.StoredOptions(taken[i]) == RevivedOptions(letter.opt);
      AsSentTtl(ms[i], letter.packet, RevivedOptions(letter.opt), w.out.now);
      AsSentParts(ms[i], letter.packet, RevivedOptions(letter.opt), w.out.now);
    }
  }

  lemma AsSentParts(m: O.Pending, p: O.Packet, opt: R.SendOptions, now: nat)
    requires R.AsSent(m, p, opt, now)
    ensures m.packet == p && m.priority == opt.priority && m.created == now
  {
  }

  /** A message stored for a node is that of an earlier send to it. */
  lemma {:induction false} LetterIsASend(e: Setup, worlds: seq<World>, ops: seq<Op>, i: nat, id: PacketId)
    returns (j: nat)
    requires Run(e, worlds, ops) && i <= |ops| && id in worlds[i].homes
    ensures j < i && ops[j].Send? && !ops[j].reachable && worlds[i].homes[id] == Letter(ops[j].packet, ops[j].opt)
    decreases i
  {
    assert i > 0;
    var w, op := worlds[i - 1], ops[i - 1];
    assert Allowed(e, w, op) && worlds[i] == Next(e, w, op);
    NewLetter(e, w, op, id);
    hide Next, Allowed;
    if id in w.homes && worlds[i].homes[id] == w.homes[id] {
      j := LetterIsASend(e, worlds, ops, i - 1, id);
    } else {
      j := i - 1;
    }
  }

  lemma NewLetter(e: Setup, w: World, op: Op, id: PacketId)
    requires Allowed(e, w, op) && id in Next(e, w, op).homes
    ensures || (id in w.homes && Next(e, w, op).homes[id] == w.homes[id])
            || (op.Send? && !op.reachable && Next(e, w, op).homes[id] == Letter(op.packet, op.opt))
  {
    hide O.TimedOutIds, D.StaleIds, S.StoredIn, O.Insert;
    match op {
      case TimeOut(order) => TimeoutPassIsTheRouters(e, w, order);
      case _ =>
    }
  }

  /** How the message with this birth came into the outbound queue: at step `k`, from the send at step `j`. */
  ghost predicate CameBy(worlds: seq<World>, ops: seq<Op>, j: nat, k: nat, b: Q.Birth)
    requires |worlds| == |ops| + 1
  {
    && j <= k < |ops| && ops[j].Send?
    && if ops[j].reachable then j == k && b == BirthOf(ops[j].packet, ops[j].opt, worlds[k].out.now)
       else
         && ops[k] == Online(ops[j].packet.to)
         && b == BirthOf(ops[j].packet, RevivedOptions(ops[j].opt), worlds[k].out.now)
  }

  lemma {:induction false} BirthCameBy(e: Setup, worlds: seq<World>, ops: seq<Op>, i: nat, id: PacketId)
    returns (j: nat, k: nat)
    requires RoundTrips(e) && Run(e, worlds, ops) && i <= |ops| && id in worlds[i].out.births
    ensures k < i && CameBy(worlds, ops, j, k, worlds[i].out.births[id])
    decreases i
  {
    hide Next, Allowed, Inv, RoundTrips, BirthOf, RevivedOptions;
    assert i > 0;
    var w, op := worlds[i - 1], ops[i - 1];
    assert Allowed(e, w, op) && worlds[i] == Next(e, w, op);
    RunKeeps(e, worlds, ops, i - 1);
    NewBirth(e, w, op, id);
    if id in w.out.births && worlds[i].out.births[id] == w.out.births[id] {
      j, k := BirthCameBy(e, worlds, ops, i - 1, id);
    } else if op.Send? {
      j, k := i - 1, i - 1;
    } else {
      k := i - 1;
      j := LetterIsASend(e, worlds, ops, i - 1, id);
    }
  }

  /**
   Whatever the retries, every packet handed out is one that was sent, and it is
   handed out within its time-to-live in seconds, counted from its send if its
   node was reachable, and otherwise from when its node came online.
   */
  lemma HandedOutInTime(e: Setup, worlds: seq<World>, ops: seq<Op>, i: nat, h: Q.HandOut) returns (j: nat, k: nat)
    requires RoundTrips(e) && Run(e, worlds, ops) && i <= |ops| && h in worlds[i].out.log
    ensures j <= k < i && ops[j].Send? && ops[j].packet == h.packet
    ensures if ops[j].reachable then k == j else ops[k] == Online(h.packet.to)
    ensures h.at < worlds[k].out.now + ops[j].opt.ttlSecs * 1000
  {
    hide Next, Allowed, RoundTrips, Q.Reachable, StoresWait, WithinBounds;
    RunKeeps(e, worlds, ops, i);
    Q.ReachableKeeps(e.cfg.limits, worlds[i].out);
    assert Q.HandedOutInTime(worlds[i].out.births, h);
    j, k := BirthCameBy(e, worlds, ops, i, h.packet.id);
  }

  // ------------------------------------------------- why a message leaves the router

  /** Stored for a node, waiting, in hand or in flight. */
  ghost predicate Present(w: World, id: PacketId) {
    Stored(w, id) || Q.Present(w.out, id)
  }

  ghost predicate StoredPast(m: S.Stored, nowMs: nat) {
    nowMs >= U64_MAX || nowMs >= m.storedAtMs + m.ttlSecs * 1000
  }

  /** Why a step may make a message disappear. */
  ghost predicate MayVanish(e: Setup, w: World, op: Op, w': World, id: PacketId) {
    match op
    case Send(p, reachable, opt, _) =>
      && !reachable
      && exists i: nat ::
           StoredAt(w, id, p.to, i) && w.stores[p.to][i].priority < opt.priority
           && |w.stores[p.to]| >= e.cfg.maxQueuePerDest
    case Pop => Q.Waiting(w.out.queue.pending, id) && Q.PastDeadline(w.out, id)
    case Ack(x, _) => x == id && id in w.out.queue.inflight
    case Nak(x, _) =>
      && x == id && id in w.out.queue.inflight
      && (w.out.queue.inflight[id].retries == e.cfg.limits.maxRetries
          || |w.out.queue.pending| == e.cfg.limits.maxPending)
    case TimeOut(order) =>
      && id in order && id in w.out.queue.inflight
      && (w.out.queue.inflight[id].retries == e.cfg.limits.maxRetries
          || |w'.out.queue.pending| == e.cfg.limits.maxPending)
    case Maintain(_, nowMs) =>
      || Q.PastDeadline(w.out, id)
      || exists d, i: nat :: StoredAt(w, id, d, i) && StoredPast(w.stores[d][i], nowMs)
    case _ => false
  }

  lemma QueueStep(e: Setup, w: World, w': World, qop: Q.Op, id: PacketId)
    requires Q.Reachable(e.cfg.limits, w.out) && Q.Allowed(w.out, qop)
    requires w'.out == Q.Next(e.cfg.limits, w.out, qop) && w'.stores == w.stores
    ensures Present(w, id) ==> Present(w', id) || Q.MayLeave(e.cfg.limits, w.out, qop, id)
    ensures Present(w', id) ==> Present(w, id) || (qop.Send? && qop.packet.id == id)
  {
    hide Q.Reachable, Q.Next, Q.Allowed, Q.Inv, Q.Present, Q.MayLeave;
    Q.ReachableKeeps(e.cfg.limits, w.out);
    SameStores(w, w', id);
    if Q.Present(w.out, id) {
      Q.LeavesOnlyFor(e.cfg.limits, w.out, qop, id);
    }
    if Q.Present(w'.out, id) {
      Q.AppearsOnlyBySend(e.cfg.limits, w.out, qop, id);
    }
  }

  lemma SameStores(w: World, w': World, id: PacketId)
    requires w'.stores == w.stores
    ensures Stored(w, id) <==> Stored(w', id)
  {
    if Stored(w, id) {
      var d, i: nat :| StoredAt(w, id, d, i);
      assert StoredAt(w', id, d, i);
    }
    if Stored(w', id) {
      var d, i: nat :| StoredAt(w', id, d, i);
      assert StoredAt(w, id, d, i);
    }
  }

  lemma StoredInQueue(w: World, id: PacketId, d: nat, m: S.Stored)
    requires m in S.QueueOf(w.stores, d) && m.packetId == id
    ensures exists i: nat :: StoredAt(w, id, d, i) && w.stores[d][i] == m
  {
    var i: nat :| i < |w.stores[d]| && w.stores[d][i] == m;
    assert StoredAt(w, id, d, i);
  }

  /** In flight only shrinks over a timeout pass, and pending only grows. */
  lemma {:induction false} TimeoutLeaves(e: Setup, w: World, ids: seq<PacketId>, id: PacketId)
    requires Q.Reachable(e.cfg.limits, w.out)
    ensures var w' := NakedAll(e, w, ids);
            && |w.out.queue.pending| <= |w'.out.queue.pending| <= e.cfg.limits.maxPending
            && (id in w'.out.queue.inflight ==>
                  id in w.out.queue.inflight && w'.out.queue.inflight[id] == w.out.queue.inflight[id])
            && (Q.Present(w'.out, id) ==> Q.Present(w.out, id))
            && (Q.Present(w.out, id) ==>
                  || Q.Present(w'.out, id)
                  || (id in ids && id in w.out.queue.inflight
                      && (w.out.queue.inflight[id].retries == e.cfg.limits.maxRetries
                          || |w'.out.queue.pending| == e.cfg.limits.maxPending)))
    decreases |ids|
  {
    hide Q.Reachable, NakedOnce, Q.Present, Q.Inv, Q.Next;
    if ids == [] {
      Q.ReachableKeeps(e.cfg.limits, w.out);
      PendingFits(e.cfg.limits, w.out);
    } else {
      var w1, last := NakedAll(e, w, Init(ids)), Last(ids);
      TimeoutLeaves(e, w, Init(ids), id);
      TimeoutsAreRetries(e, w, Init(ids));
      NakIsARetry(e, w1, last, D.MaxRetries);
      Q.ReachableKeeps(e.cfg.limits, w1.out);
      Q.ReachableKeeps(e.cfg.limits, NakedAll(e, w, ids).out);
      PendingFits(e.cfg.limits, NakedAll(e, w, ids).out);
      RetryShape(e.cfg.limits, w1.out, last, id);
      if Q.Present(w1.out, id) {
        Q.LeavesOnlyFor(e.cfg.limits, w1.out, Q.Retry(last), id);
      }
      if Q.Present(NakedAll(e, w, ids).out, id) {
        Q.AppearsOnlyBySend(e.cfg.limits, w1.out, Q.Retry(last), id);
      }
      assert forall x | x in Init(ids) :: x in ids;
    }
  }

  lemma PendingFits(lim: O.Limits, out: Q.World)
    requires Q.Inv(lim, out)
    ensures |out.queue.pending| <= lim.maxPending
  {
  }

  lemma RetryShape(lim: O.Limits, out: Q.World, x: PacketId, id: PacketId)
    ensures var out' := Q.Next(lim, out, Q.Retry(x));
            && |out.queue.pending| <= |out'.queue.pending|
            && (id in out'.queue.inflight ==>
                  id in out.queue.inflight && out'.queue.inflight[id] == out.queue.inflight[id])
  {
    hide O.Insert;
    if x in out.queue.inflight {
      O.InsertAdds(out.queue.pending, O.RetryOf(out.queue.inflight[x]));
    }
  }

  /** Storing a message can only push out one of a lower priority, from a full queue of the same node. */
  lemma StoreVanishes(e: Setup, w: World, op: Op, id: PacketId)
    requires Inv(e, w) && Allowed(e, w, op) && op.Send? && !op.reachable
    ensures Present(w, id) ==> Present(Next(e, w, op), id) || MayVanish(e, w, op, Next(e, w, op), id)
    ensures Present(Next(e, w, op), id) ==> Present(w, id) || op.packet.id == id
  {
    hide Q.Reachable, QueueWaits, Q.Present, S.Offered, R.Takes;
    SendIsASend(e, w, op);
    var w', d, k := Next(e, w, op), op.packet.to, e.cfg.maxQueuePerDest;
    var q, m := S.QueueOf(w.stores, d), R.NewStored(e.encode, op.packet, op.opt, op.nowMs);
    if d !in w.stores && |w.stores| >= S.MAX_DESTINATIONS {
      SameStores(w, w', id);
    } else {
      var o := S.Offered(k, q, m);
      assert w'.stores == w.stores[d := o.queue];
      if o.accepted {
        R.AcceptedIsTaken(k, q, m);
        TakenVanishes(w, w', id, d, k, q, m, o.queue);
      } else {
        RefusedKeeps(k, q, m);
        SameQueues(w, w', id);
      }
    }
  }

  lemma SameQueues(w: World, w': World, id: PacketId)
    requires forall d :: S.QueueOf(w'.stores, d) == S.QueueOf(w.stores, d)
    ensures Stored(w, id) <==> Stored(w', id)
  {
    if Stored(w, id) {
      var d, i: nat :| StoredAt(w, id, d, i);
      StoredInQueue(w', id, d, w.stores[d][i]);
    }
    if Stored(w', id) {
      var d, i: nat :| StoredAt(w', id, d, i);
      StoredInQueue(w, id, d, w'.stores[d][i]);
    }
  }

  lemma TakenVanishes(
    w: World, w': World, id: PacketId, d: nat, k: nat, q: seq<S.Stored>, m: S.Stored, q': seq<S.Stored>)
    requires q == S.QueueOf(w.stores, d) && w'.stores == w.stores[d := q'] && R.Takes(k, q, m, q')
    ensures Stored(w, id) ==>
              Stored(w', id)
              || exists i: nat :: StoredAt(w, id, d, i) && w.stores[d][i].priority < m.priority && |w.stores[d]| >= k
    ensures Stored(w', id) ==> Stored(w, id) || m.packetId == id
  {
    if Stored(w, id) {
      var x, i: nat :| StoredAt(w, id, x, i);
      hide R.Takes, Stored;
      if x != d {
        IsStored(w', id, x, i);
      } else {
        var j := TakenAt(k, q, m, q', i);
        if j < |q'| && q'[j] == q[i] {
          IsStored(w', id, d, j);
        }
      }
    }
    if Stored(w', id) {
      var x, i: nat :| StoredAt(w', id, x, i);
      hide R.Takes, Stored;
      if x != d {
        IsStored(w, id, x, i);
      } else if q'[i] != m {
        TakenIsOld(k, q, m, q');
        assert q'[i] in q';
        var j: nat :| j < |q| && q[j] == q'[i];
        IsStored(w, id, d, j);
      }
    }
  }

  lemma IsStored(w: World, id: PacketId, d: nat, i: nat)
    requires StoredAt(w, id, d, i)
    ensures Stored(w, id)
  {
  }

  /** Where a message of the queue is after another was taken in, unless it was the one pushed out. */
  lemma TakenAt(k: nat, q: seq<S.Stored>, m: S.Stored, q': seq<S.Stored>, i: nat) returns (j: nat)
    requires R.Takes(k, q, m, q') && i < |q|
    ensures (j < |q'| && q'[j] == q[i]) || (|q| >= k && q[i].priority < m.priority)
  {
    if |q| < k {
      j := i;
    } else {
      var low: nat :| R.FirstOfLowest(q, low) && q[low].priority < m.priority && q' == S.RemoveAt(q, low) + [m];
      hide R.FirstOfLowest, R.Takes;
      j := if i > low then i - 1 else i;
      if i != low {
        RemovedAt(q, low, i);
      }
    }
  }

  lemma RemovedAt(q: seq<S.Stored>, low: nat, i: nat)
    requires low < |q| && i < |q| && i != low
    ensures var j := if i > low then i - 1 else i;
            j < |S.RemoveAt(q, low)| && S.RemoveAt(q, low)[j] == q[i]
  {
  }

  lemma TakenIsOld(k: nat, q: seq<S.Stored>, m: S.Stored, q': seq<S.Stored>)
    requires R.Takes(k, q, m, q')
    ensures forall x | x in q' :: x in q || x == m
  {
    if |q| >= k && q != [] {
      var low: nat :| R.FirstOfLowest(q, low) && q[low].priority < m.priority && q' == S.RemoveAt(q, low) + [m];
      S.RemoveAtShape(q, low);
    }
  }

  lemma MaintenanceVanishes(e: Setup, w: World, op: Op, id: PacketId)
    requires Inv(e, w) && Allowed(e, w, op) && op.Maintain?
    ensures Present(w, id) ==> Present(Next(e, w, op), id) || MayVanish(e, w, op, Next(e, w, op), id)
    ensures Present(Next(e, w, op), id) ==> Present(w, id)
  {
    hide Q.Reachable, Q.Present, Q.Inv, Q.PastDeadline, D.StaleIds, S.Pruned, StoresWait, WithinBounds;
    var w' := Next(e, w, op);
    QueueStep(e, w, w'.(stores := w.stores), Q.DrainExpired, id);
    SameStores(w, w'.(stores := w.stores), id);
    if Stored(w, id) {
      var d, i: nat :| StoredAt(w, id, d, i);
      S.PrunedIffPast(w.stores, op.nowMs, d);
      if w.stores[d][i] in S.QueueOf(w'.stores, d) {
        StoredInQueue(w', id, d, w.stores[d][i]);
      } else {
        assert StoredPast(w.stores[d][i], op.nowMs);
      }
    }
    if Stored(w', id) {
      var d, i: nat :| StoredAt(w', id, d, i);
      S.PrunedIffPast(w.stores, op.nowMs, d);
      assert w'.stores[d][i] in S.QueueOf(w'.stores, d);
      StoredInQueue(w, id, d, w'.stores[d][i]);
    }
  }

  lemma {:induction false} InsertedAllWaits(q: seq<O.Pending>, ms: seq<O.Pending>, id: PacketId)
    ensures Q.Waiting(R.InsertedAll(q, ms), id) <==> Q.Waiting(q, id) || Q.Waiting(ms, id)
    decreases |ms|
  {
    hide O.Insert;
    if ms == [] {
    } else {
      InsertedAllWaits(q, Init(ms), id);
      O.InsertAdds(R.InsertedAll(q, Init(ms)), Last(ms));
      assert ms == Init(ms) + [Last(ms)];
    }
  }

  /** A node coming online moves its messages to the queue or keeps them; it loses and invents none. */
  lemma OnlineVanishes(e: Setup, w: World, dest: nat, id: PacketId)
    requires Inv(e, w)
    ensures Present(w, id) <==> Present(Next(e, w, Online(dest)), id)
  {
    hide Q.Reachable, Born, R.InsertedAll, R.Revived, R.StoredAll, StoresWait, Reviving, S.Kept, Newcomers;
    hide WithinBounds;
    var w', stored, n := Next(e, w, Online(dest)), S.QueueOf(w.stores, dest), R.Moved(e.cfg, w.State(), dest);
    OnlineQueue(e, w, dest, id);
    OnlineDeferred(e, w, dest);
    if i: nat :| i < n && stored[i].packetId == id {
      assert StoredAt(w, id, dest, i);
    }
    if Stored(w, id) {
      var d, i: nat :| StoredAt(w, id, d, i);
      if d != dest {
        assert d in w'.stores - {dest} && StoredAt(w', id, d, i);
      } else if i >= n {
        assert S.QueueOf(w'.stores, dest)[i - n] == stored[i];
        StoredInQueue(w', id, dest, stored[i]);
      }
    }
    if Stored(w', id) {
      var d, i: nat :| StoredAt(w', id, d, i);
      if d != dest {
        assert d in w.stores - {dest} && StoredAt(w, id, d, i);
      } else {
        assert w'.stores[d][i] == stored[n..][i] && stored[n + i] == stored[n..][i];
        assert StoredAt(w, id, dest, n + i);
      }
    }
  }

  lemma OnlineDeferred(e: Setup, w: World, dest: nat)
    requires WithinBounds(e, w)
    ensures var w', n := Next(e, w, Online(dest)), R.Moved(e.cfg, w.State(), dest);
            && S.QueueOf(w'.stores, dest) == S.QueueOf(w.stores, dest)[n..]
            && w'.stores - {dest} == w.stores - {dest}
  {
    hide Next, Born, Reviving, S.Kept;
    var k, stored, n := e.cfg.maxQueuePerDest, S.QueueOf(w.stores, dest), R.Moved(e.cfg, w.State(), dest);
    OnlineParts(e, w, dest);
    SuffixFits(k, stored, n);
    S.KeptWhole(k, stored[n..]);
  }

  lemma OnlineQueue(e: Setup, w: World, dest: nat, id: PacketId)
    requires StoresWait(e, w)
    ensures var stored, n := S.QueueOf(w.stores, dest), R.Moved(e.cfg, w.State(), dest);
            Q.Present(Next(e, w, Online(dest)).out, id)
            <==> Q.Present(w.out, id) || exists i: nat :: i < n && stored[i].packetId == id
  {
    hide Born, R.InsertedAll, R.Revived, R.StoredAll, Newcomers;
    var ms, n := Reviving(e, w, dest), R.Moved(e.cfg, w.State(), dest);
    RevivingIsNew(e, w, dest);
    InsertedAllWaits(w.out.queue.pending, ms, id);
    if Q.Waiting(ms, id) {
      var m :| m in ms && m.packet.id == id;
      var i: nat :| i < |ms| && ms[i] == m;
      assert S.QueueOf(w.stores, dest)[i].packetId == id;
    }
    if i: nat :| i < n && S.QueueOf(w.stores, dest)[i].packetId == id {
      assert ms[i] in ms && ms[i].packet.id == id;
    }
  }

  /**
   Conservation over one step: a message that was there is still there, or the
   step had a reason to let it go; one that was not there came by its own send.
   */
  lemma StepConserves(e: Setup, w: World, op: Op, id: PacketId)
    requires Inv(e, w) && Allowed(e, w, op)
    ensures Present(w, id) ==> Present(Next(e, w, op), id) || MayVanish(e, w, op, Next(e, w, op), id)
    ensures Present(Next(e, w, op), id) ==> Present(w, id) || (op.Send? && op.packet.id == id)
  {
    hide Q.Reachable, Present, StoresWait, WithinBounds, O.TimedOutIds, D.StaleIds, S.StoredIn;
    var w' := Next(e, w, op);
    match op {
      case Send(p, reachable, opt, _) =>
        if !reachable {
          StoreVanishes(e, w, op, id);
        } else {
          SendVanishes(e, w, op, id);
        }
      case Pop => QueueStep(e, w, w', Q.Pop, id);
      case Track(x) => QueueStep(e, w, w', Q.Track(x, e.cfg.ackTimeout), id);
      case Ack(x, _) => QueueStep(e, w, w', Q.Ack(x), id);
      case Nak(x, reason) =>
        NakIsARetry(e, w, x, reason);
        QueueStep(e, w, w', Q.Retry(x), id);
      case TimeOut(order) => PassVanishes(e, w, order, id);
      case Maintain(_, _) => MaintenanceVanishes(e, w, op, id);
      case Online(dest) => OnlineVanishes(e, w, dest, id);
      case Wait(until) => QueueStep(e, w, w', Q.Wait(until), id);
    }
  }

  lemma SendVanishes(e: Setup, w: World, op: Op, id: PacketId)
    requires Inv(e, w) && Allowed(e, w, op) && op.Send? && op.reachable
    ensures Present(w, id) ==> Present(Next(e, w, op), id)
    ensures Present(Next(e, w, op), id) ==> Present(w, id) || op.packet.id == id
  {
    hide Q.Reachable, Present, StoresWait, WithinBounds, S.StoredIn, O.Insert;
    var p, opt, w' := op.packet, op.opt, Next(e, w, op);
    if |w.out.queue.pending| < e.cfg.limits.maxPending {
      var m := R.NewPending(p, opt, w.out.now);
      assert Init([m]) == [] && Last([m]) == m && Born(w.out.births, []) == w.out.births;
      QueueStep(e, w, w', Q.Send(p, opt.ttlSecs * 1000, opt.priority), id);
    }
  }

  lemma PassVanishes(e: Setup, w: World, order: seq<PacketId>, id: PacketId)
    requires Inv(e, w) && Allowed(e, w, TimeOut(order))
    ensures var w' := Next(e, w, TimeOut(order));
            && (Present(w, id) ==> Present(w', id) || MayVanish(e, w, TimeOut(order), w', id))
            && (Present(w', id) ==> Present(w, id))
  {
    hide Q.Reachable, Stored, StoresWait, WithinBounds, O.TimedOutIds, Distinct, NakedAll;
    TimeoutLeaves(e, w, order, id);
    TimeoutsAreRetries(e, w, order);
    SameStores(w, NakedAll(e, w, order), id);
  }

  /**
   Over every run of the router, nothing is lost but for a reason: acknowledged,
   out of retries or of room for one, past its time-to-live, or pushed out of a
   full store by a message of higher priority. And nothing appears but by a send.
   */
  lemma NothingVanishes(e: Setup, worlds: seq<World>, ops: seq<Op>, i: nat, id: PacketId)
    requires RoundTrips(e) && Run(e, worlds, ops) && i < |ops|
    ensures Present(worlds[i], id) && !Present(worlds[i + 1], id) ==> MayVanish(e, worlds[i], ops[i], worlds[i + 1], id)
    ensures !Present(worlds[i], id) && Present(worlds[i + 1], id) ==> ops[i].Send? && ops[i].packet.id == id
  {
    hide Inv, Present, MayVanish, Next, Allowed, RoundTrips;
    RunKeeps(e, worlds, ops, i);
    assert Allowed(e, worlds[i], ops[i]) && worlds[i + 1] == Next(e, worlds[i], ops[i]);
    StepConserves(e, worlds[i], ops[i], id);
  }
}
