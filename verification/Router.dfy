/**
 The message router: the outbound queue, store-and-forward and delivery tracking
 driven together. Protobuf is abstract: `encode` and `decode` are parameters.
 */
module Router {
  import opened Common
  import O = Outbound
  import S = StoreForward
  import D = Delivery

  type PacketId = nat
  type Decoder = seq<byte> -> Option<O.Packet>
  type Encoder = O.Packet -> seq<byte>

  datatype Config = Config(limits: O.Limits, maxQueuePerDest: nat, ackTimeout: nat, recordMaxAge: nat)

  datatype State = State(queue: O.Queue, stores: S.Queues, tracker: D.Tracker)

  datatype SendOptions = SendOptions(priority: int, ttlSecs: nat)

  const START := State(O.Queue([], map[]), map[], D.EMPTY)

  // ------------------------------------------------------------- operations

  function NewPending(p: O.Packet, opt: SendOptions, now: nat): O.Pending {
    O.Pending(p, now, opt.ttlSecs * 1000, opt.priority, 0)
  }

  function NewStored(encode: Encoder, p: O.Packet, opt: SendOptions, nowMs: nat): S.Stored {
    S.Stored(encode(p), p.id, p.to, p.portnum, opt.priority, nowMs, opt.ttlSecs, 0)
  }

  /** Dispatches first and tracks only what was accepted. */
  function Sent(cfg: Config, s: State, encode: Encoder, p: O.Packet, reachable: bool, opt: SendOptions,
                now: nat, nowMs: nat): (bool, State)
  {
    if reachable then
      match O.Enqueued(cfg.limits, s.queue.pending, NewPending(p, opt, now))
      case None => (false, s)
      case Some(q) => (true, s.(queue := s.queue.(pending := q), tracker := D.Tracked(s.tracker, p.id, p.to, now)))
    else
      var (ok, qs) := S.StoredIn(cfg.maxQueuePerDest, s.stores, p.to, NewStored(encode, p, opt, nowMs));
      (ok, s.(stores := qs, tracker := if ok then D.Tracked(s.tracker, p.id, p.to, now) else s.tracker))
  }

  function Acked(s: State, id: PacketId, hops: Option<nat>, now: nat): State {
    s.(queue := s.queue.(inflight := s.queue.inflight - {id}),
       tracker := D.MarkedAcknowledged(s.tracker, id, hops, now))
  }

  /** A NAK or a timeout: retried if possible, otherwise failed for the given reason. */
  function Naked(cfg: Config, s: State, id: PacketId, reason: D.Failure): (bool, State) {
    var (ok, q) := O.Retried(cfg.limits, s.queue, id);
    (ok, s.(queue := q,
            tracker := if ok then D.RetryRecorded(s.tracker, id)
                       else D.MarkedLost(s.tracker, id, D.Failed(reason))))
  }

  function TimedOut(cfg: Config, s: State, ids: seq<PacketId>): State {
    if ids == [] then s else Naked(cfg, TimedOut(cfg, s, Init(ids)), Last(ids), D.MaxRetries).1
  }

  /** The timed-out messages that were not retried when their turn came. */
  function NotRetried(cfg: Config, s: State, ids: seq<PacketId>): seq<PacketId> {
    if ids == [] then []
    else
      var before, id := NotRetried(cfg, s, Init(ids)), Last(ids);
      if Naked(cfg, TimedOut(cfg, s, Init(ids)), id, D.MaxRetries).0 then before else before + [id]
  }

  /** Expiry of records in the order `expired`, then pruning of records, stores and queue. */
  function Maintained(cfg: Config, s: State, expired: seq<PacketId>, now: nat, nowMs: nat): State {
    State(O.Drained(s.queue, now), S.Pruned(s.stores, nowMs),
          D.Pruned(D.AllExpired(s.tracker, expired), cfg.recordMaxAge, now))
  }

  function Popped(cfg: Config, s: State, now: nat): (Option<O.Pending>, State) {
    var (m, q) := O.Popped(cfg.limits, s.queue, now);
    (m, s.(queue := q, tracker := if m.Some? then D.MarkedSent(s.tracker, m.value.packet.id, now) else s.tracker))
  }

  // ------------------------------------------------------ a node comes online

  function Room(cfg: Config, q: seq<O.Pending>): nat {
    if |q| <= cfg.limits.maxPending then cfg.limits.maxPending - |q| else 0
  }

  /** How many of the stored messages are moved now. */
  function Moved(cfg: Config, s: State, dest: nat): (n: nat)
    ensures n <= |S.QueueOf(s.stores, dest)|
  {
    var stored, room := S.QueueOf(s.stores, dest), Room(cfg, s.queue.pending);
    if |stored| < room then |stored| else room
  }

  function FromStored(p: O.Packet, m: S.Stored, now: nat): O.Pending {
    O.Pending(p, now, m.ttlSecs * 1000, O.ToPriority(m.priority), 0)
  }

  /** The stored messages that decode, as new pending messages, in order. */
  function Revived(decode: Decoder, ms: seq<S.Stored>, now: nat): seq<O.Pending> {
    if ms == [] then []
    else
      var rest := Revived(decode, Init(ms), now);
      match decode(Last(ms).packetBytes)
      case None => rest
      case Some(p) => rest + [FromStored(p, Last(ms), now)]
  }

  function InsertedAll(q: seq<O.Pending>, ms: seq<O.Pending>): seq<O.Pending> {
    if ms == [] then q else O.Insert(InsertedAll(q, Init(ms)), Last(ms))
  }

  function StoredAll(k: nat, qs: S.Queues, dest: nat, ms: seq<S.Stored>): S.Queues {
    if ms == [] then qs else S.StoredIn(k, StoredAll(k, qs, dest, Init(ms)), dest, Last(ms)).1
  }

  function CameOnline(cfg: Config, s: State, decode: Decoder, dest: nat, now: nat): State {
    var stored, n := S.QueueOf(s.stores, dest), Moved(cfg, s, dest);
    s.(queue := s.queue.(pending := InsertedAll(s.queue.pending, Revived(decode, stored[..n], now))),
       stores := StoredAll(cfg.maxQueuePerDest, s.stores - {dest}, dest, stored[n..]))
  }

  ghost predicate Decodable(decode: Decoder, ms: seq<S.Stored>) {
    forall m | m in ms :: decode(m.packetBytes).Some?
  }

  lemma {:induction false} RevivedCount(decode: Decoder, ms: seq<S.Stored>, now: nat)
    ensures |Revived(decode, ms, now)| <= |ms|
    ensures |Revived(decode, ms, now)| == |ms| <==> Decodable(decode, ms)
    decreases |ms|
  {
    if ms == [] {
    } else {
      RevivedCount(decode, Init(ms), now);
      assert ms == Init(ms) + [Last(ms)];
    }
  }

  /** `m` would be a send of `p` at `now` with these options: its packet, its priority, its deadline, no retry yet. */
  ghost predicate AsSent(m: O.Pending, p: O.Packet, opt: SendOptions, now: nat) {
    && m.packet == p && m.priority == opt.priority && m.retries == 0 && m.created == now
    && forall t: nat :: m.Expired(t) <==> opt.ttlSecs == 0 || t >= now + opt.ttlSecs * 1000
  }

  /** A stored message records the packet and the options it was sent with, and when. */
  ghost predicate StoredAsSent(m: S.Stored, encode: Encoder, p: O.Packet, opt: SendOptions, nowMs: nat) {
    && m.packetBytes == encode(p) && m.packetId == p.id && m.dest == p.to && m.portnum == p.portnum
    && m.priority == opt.priority && m.ttlSecs == opt.ttlSecs && m.storedAtMs == nowMs && m.deliveryAttempts == 0
  }

  /** The options a revived message is sent with: its own, an unknown priority reading as the default. */
  function StoredOptions(m: S.Stored): SendOptions {
    SendOptions(if m.priority in {0, 1, 10, 64, 70, 120, 127} then m.priority else 64, m.ttlSecs)
  }

  /** With every packet decodable, each message is revived in its place, as a send of its packet made now. */
  lemma {:induction false} RevivedAt(decode: Decoder, ms: seq<S.Stored>, now: nat, i: nat)
    requires Decodable(decode, ms) && i < |ms|
    ensures |Revived(decode, ms, now)| == |ms|
    ensures AsSent(Revived(decode, ms, now)[i], decode(ms[i].packetBytes).value, StoredOptions(ms[i]), now)
    decreases |ms|
  {
    RevivedCount(decode, ms, now);
    RevivedCount(decode, Init(ms), now);
    assert ms == Init(ms) + [Last(ms)];
    if i == |ms| - 1 {
    } else {
      RevivedAt(decode, Init(ms), now, i);
    }
  }

  /** Inserting in turn adds exactly the given messages and keeps the queue in order. */
  lemma {:induction false} InsertedAllAdds(q: seq<O.Pending>, ms: seq<O.Pending>)
    ensures multiset(InsertedAll(q, ms)) == multiset(q) + multiset(ms)
    ensures |InsertedAll(q, ms)| == |q| + |ms|
    decreases |ms|
  {
    if ms == [] {
    } else {
      hide O.Insert, Init, Last;
      InsertedAllAdds(q, Init(ms));
      O.InsertAdds(InsertedAll(q, Init(ms)), Last(ms));
      InitLast(ms);
    }
  }

  lemma {:induction false} InsertedAllSorted(q: seq<O.Pending>, ms: seq<O.Pending>)
    requires O.Sorted(q)
    ensures O.Sorted(InsertedAll(q, ms))
    decreases |ms|
  {
    if ms == [] {
    } else {
      hide O.Insert, O.Sorted;
      InsertedAllSorted(q, Init(ms));
      O.InsertSorted(InsertedAll(q, Init(ms)), Last(ms));
    }
  }

  lemma {:induction false} InsertedAllIsFifo(q: seq<O.Pending>, ms: seq<O.Pending>, p: int)
    requires O.Sorted(q)
    ensures O.OfPriority(InsertedAll(q, ms), p) == O.OfPriority(q, p) + O.OfPriority(ms, p)
    decreases |ms|
  {
    if ms == [] {
    } else {
      hide O.Insert, O.Sorted, Init, Last;
      var init, m := Init(ms), Last(ms);
      InitLast(ms);
      InsertedAllIsFifo(q, init, p);
      InsertedAllSorted(q, init);
      O.InsertIsFifo(InsertedAll(q, init), m, p);
      O.OfPriorityConcat(init, [m], p);
      assert O.OfPriority([m], p) == if m.priority == p then [m] else [];
    }
  }

  /** Storing one after the other in a fresh queue leaves what a run of offers keeps. */
  lemma {:induction false} StoredAllIsKept(k: nat, qs: S.Queues, dest: nat, ms: seq<S.Stored>)
    requires dest !in qs && |qs| < S.MAX_DESTINATIONS
    ensures StoredAll(k, qs, dest, ms) == if ms == [] then qs else qs[dest := S.Kept(k, ms)]
    decreases |ms|
  {
    if ms == [] {
    } else {
      hide S.Offered;
      var init := Init(ms);
      StoredAllIsKept(k, qs, dest, init);
      var before := StoredAll(k, qs, dest, init);
      assert S.QueueOf(before, dest) == S.Kept(k, init);
      assert before[dest := S.Kept(k, ms)] == qs[dest := S.Kept(k, ms)];
    }
  }

  /** How many messages a destination has, waiting or stored. */
  function Holding(s: State, dest: nat): nat {
    |s.queue.pending| + |S.QueueOf(s.stores, dest)|
  }

  lemma DestinationFreed(qs: S.Queues, dest: nat)
    requires |qs| <= S.MAX_DESTINATIONS && dest in qs
    ensures |qs - {dest}| < S.MAX_DESTINATIONS && dest !in qs - {dest}
  {
    assert (qs - {dest}).Keys == qs.Keys - {dest};
    assert |qs| == |qs.Keys| && |qs - {dest}| == |(qs - {dest}).Keys|;
  }

  /** The stores after a node came online: its own queue holds what was deferred, every other is untouched. */
  lemma OnlineStores(cfg: Config, s: State, decode: Decoder, dest: nat, now: nat)
    requires |s.stores| <= S.MAX_DESTINATIONS
    ensures var deferred := S.QueueOf(s.stores, dest)[Moved(cfg, s, dest)..];
            CameOnline(cfg, s, decode, dest, now).stores
            == if deferred == [] then s.stores - {dest}
               else (s.stores - {dest})[dest := S.Kept(cfg.maxQueuePerDest, deferred)]
  {
    hide S.Kept, Revived, InsertedAll;
    var deferred := S.QueueOf(s.stores, dest)[Moved(cfg, s, dest)..];
    if dest in s.stores {
      hide StoredAll;
      DestinationFreed(s.stores, dest);
      StoredAllIsKept(cfg.maxQueuePerDest, s.stores - {dest}, dest, deferred);
    } else {
      assert deferred == [];
    }
  }

  /** The destination keeps exactly its deferred messages, in order; no other destination changes. */
  ghost predicate DeferredKept(s: State, s': State, dest: nat, n: nat)
    requires n <= |S.QueueOf(s.stores, dest)|
  {
    && S.QueueOf(s'.stores, dest) == S.QueueOf(s.stores, dest)[n..]
    && s'.stores - {dest} == s.stores - {dest}
  }

  /** The queue gains exactly `moved`, each message at the end of its own priority. */
  ghost predicate Joined(q: seq<O.Pending>, q': seq<O.Pending>, moved: seq<O.Pending>) {
    && multiset(q') == multiset(q) + multiset(moved)
    && O.Sorted(q')
    && forall p :: O.OfPriority(q', p) == O.OfPriority(q, p) + O.OfPriority(moved, p)
  }

  lemma OnlineStoresConserve(cfg: Config, s: State, decode: Decoder, dest: nat, now: nat)
    requires S.Bounded(cfg.maxQueuePerDest, s.stores)
    ensures DeferredKept(s, CameOnline(cfg, s, decode, dest, now), dest, Moved(cfg, s, dest))
  {
    hide S.Kept, CameOnline;
    var deferred := S.QueueOf(s.stores, dest)[Moved(cfg, s, dest)..];
    OnlineStores(cfg, s, decode, dest, now);
    S.KeptWhole(cfg.maxQueuePerDest, deferred);
  }

  lemma InsertedAllJoins(q: seq<O.Pending>, moved: seq<O.Pending>)
    requires O.Sorted(q)
    ensures Joined(q, InsertedAll(q, moved), moved)
  {
    hide O.Sorted, O.OfPriority, InsertedAll;
    InsertedAllAdds(q, moved);
    InsertedAllSorted(q, moved);
    forall p ensures O.OfPriority(InsertedAll(q, moved), p) == O.OfPriority(q, p) + O.OfPriority(moved, p) {
      InsertedAllIsFifo(q, moved, p);
    }
  }

  /**
   Conservation when a node comes online: with its queue within the bound and
   its packets decodable, the first messages that fit become pending, each
   joining the end of its own priority, the rest stay stored in order, no other
   destination is touched, and the outbound queue stays within its limit, which
   it reaches if any message had to stay.
   */
  lemma OnlineConserves(cfg: Config, s: State, decode: Decoder, dest: nat, now: nat)
    requires S.Bounded(cfg.maxQueuePerDest, s.stores)
    requires O.Sorted(s.queue.pending) && |s.queue.pending| <= cfg.limits.maxPending
    requires Decodable(decode, S.QueueOf(s.stores, dest))
    ensures var n, s' := Moved(cfg, s, dest), CameOnline(cfg, s, decode, dest, now);
            var moved := Revived(decode, S.QueueOf(s.stores, dest)[..n], now);
            && |moved| == n && Joined(s.queue.pending, s'.queue.pending, moved)
            && DeferredKept(s, s', dest, n)
            && |s'.queue.pending| <= cfg.limits.maxPending
            && (n < |S.QueueOf(s.stores, dest)| ==> |s'.queue.pending| == cfg.limits.maxPending)
  {
    hide Joined, DeferredKept, O.Sorted, Revived, InsertedAll, StoredAll;
    var taken := S.QueueOf(s.stores, dest)[..Moved(cfg, s, dest)];
    OnlineStoresConserve(cfg, s, decode, dest, now);
    RevivedCount(decode, taken, now);
    InsertedAllJoins(s.queue.pending, Revived(decode, taken, now));
    InsertedAllAdds(s.queue.pending, Revived(decode, taken, now));
  }

  /**
   No message is lost if and only if every message moved decodes and those
   deferred fit the destination's queue; a restored snapshot can break the second.
   */
  lemma OnlineConservesIff(cfg: Config, s: State, decode: Decoder, dest: nat, now: nat)
    requires |s.stores| <= S.MAX_DESTINATIONS
    ensures var stored, n := S.QueueOf(s.stores, dest), Moved(cfg, s, dest);
            Holding(CameOnline(cfg, s, decode, dest, now), dest) == Holding(s, dest)
            <==> Decodable(decode, stored[..n]) && S.AllFit(cfg.maxQueuePerDest, stored[n..])
  {
    hide S.Kept, S.AllFit, StoredAll, Revived, InsertedAll;
    var k, stored, n := cfg.maxQueuePerDest, S.QueueOf(s.stores, dest), Moved(cfg, s, dest);
    RevivedCount(decode, stored[..n], now);
    InsertedAllAdds(s.queue.pending, Revived(decode, stored[..n], now));
    OnlineStores(cfg, s, decode, dest, now);
    S.KeptWhole(k, stored[n..]);
  }

  /**
   A queue longer than its bound, as a restored snapshot may bring in, loses
   messages: of two stored, with room for one and nowhere to move them, one goes.
   */
  lemma OverfullQueueLoses(cfg: Config, decode: Decoder, dest: nat, a: S.Stored, b: S.Stored, now: nat)
    requires cfg.maxQueuePerDest == 1 && cfg.limits.maxPending == 0
    ensures var s := START.(stores := S.Restored(map[], Some(map[dest := [a, b]])).1);
            Holding(s, dest) == 2 && Holding(CameOnline(cfg, s, decode, dest, now), dest) == 1
  {
    hide S.Kept;
    var s := START.(stores := S.Restored(map[], Some(map[dest := [a, b]])).1);
    assert S.QueueOf(s.stores, dest) == [a, b] && [a, b][0..] == [a, b] && [a, b][..0] == [];
    OnlineStores(cfg, s, decode, dest, now);
    S.OffersAreConserved(1, [a, b]);
  }

  // ------------------------------------------------------------ timing out

  predicate HasRetries(q: O.Queue, id: PacketId) {
    id in q.inflight && q.inflight[id].retries < q.inflight[id].maxRetries
  }

  function WithRetries(q: O.Queue, ids: seq<PacketId>): seq<PacketId> {
    if ids == [] then []
    else
      var before, id := WithRetries(q, Init(ids)), Last(ids);
      if HasRetries(q, id) then before + [id] else before
  }

  /** What a timeout pass leaves in flight and waiting, and whom it fails. */
  ghost predicate PassLeaves(cfg: Config, s: State, ids: seq<PacketId>, q: O.Queue, failed: seq<PacketId>) {
    var retried := Take(WithRetries(s.queue, ids), Room(cfg, s.queue.pending));
    && q.inflight == s.queue.inflight - Elements(ids)
    && |q.pending| == |s.queue.pending| + |retried|
    && forall id :: id in failed <==> id in ids && id !in retried
  }

  lemma OneMoreTimesOut(cfg: Config, s: State, ids: seq<PacketId>, before: O.Queue, failed: seq<PacketId>)
    requires ids != [] && Distinct(ids) && PassLeaves(cfg, s, Init(ids), before, failed)
    ensures var (ok, q) := O.Retried(cfg.limits, before, Last(ids));
            PassLeaves(cfg, s, ids, q, if ok then failed else failed + [Last(ids)])
  {
    hide O.Insert, Distinct;
    var init, id := Init(ids), Last(ids);
    InitLast(ids);
    LastIsNew(ids);
    WithRetriesAreListed(s.queue, init);
    assert Elements(ids) == Elements(init) + {id};
    assert s.queue.inflight - Elements(ids) == before.inflight - {id};
    assert id in before.inflight <==> id in s.queue.inflight;
    if HasRetries(s.queue, id) {
      O.InsertAdds(before.pending, O.RetryOf(before.inflight[id]));
      TakeOneMore(WithRetries(s.queue, init), id, Room(cfg, s.queue.pending));
    }
  }

  lemma LastIsNew(ids: seq<PacketId>)
    requires ids != [] && Distinct(ids)
    ensures Distinct(Init(ids)) && Last(ids) !in Init(ids)
  {
  }

  lemma {:induction false} WithRetriesAreListed(q: O.Queue, ids: seq<PacketId>)
    ensures forall id | id in WithRetries(q, ids) :: id in ids
    decreases |ids|
  {
    if ids == [] {
    } else {
      WithRetriesAreListed(q, Init(ids));
      assert ids == Init(ids) + [Last(ids)];
    }
  }

  lemma TakeOneMore(a: seq<PacketId>, x: PacketId, n: nat)
    ensures Take(a + [x], n) == if |a| < n then a + [x] else Take(a, n)
  {
  }

  /**
   Of the messages that time out, those with retries left are retried in the
   order of the pass while the queue has room; every other one is reported failed.
   */
  lemma {:induction false} TimeoutsRetryWhileRoom(cfg: Config, s: State, ids: seq<PacketId>)
    requires Distinct(ids)
    ensures PassLeaves(cfg, s, ids, TimedOut(cfg, s, ids).queue, NotRetried(cfg, s, ids))
    decreases |ids|
  {
    if ids == [] {
      assert s.queue.inflight - Elements(ids) == s.queue.inflight;
    } else {
      hide PassLeaves, O.Retried, Distinct;
      LastIsNew(ids);
      TimeoutsRetryWhileRoom(cfg, s, Init(ids));
      OneMoreTimesOut(cfg, s, ids, TimedOut(cfg, s, Init(ids)).queue, NotRetried(cfg, s, Init(ids)));
    }
  }

  lemma NoneTimedOut(cfg: Config, s: State)
    ensures TimedOut(cfg, s, []) == s && NotRetried(cfg, s, []) == []
    ensures Distinct<PacketId>([]) && Elements<PacketId>([]) == {}
  {
  }

  lemma OneMoreTimedOut(cfg: Config, s: State, ids: seq<PacketId>, id: PacketId)
    requires Distinct(ids) && id !in Elements(ids)
    ensures var (ok, s') := Naked(cfg, TimedOut(cfg, s, ids), id, D.MaxRetries);
            && TimedOut(cfg, s, ids + [id]) == s'
            && NotRetried(cfg, s, ids + [id]) == NotRetried(cfg, s, ids) + (if ok then [] else [id])
    ensures Distinct(ids + [id]) && Elements(ids + [id]) == Elements(ids) + {id}
  {
    hide Naked;
    assert Init(ids + [id]) == ids;
    assert forall i | 0 <= i < |ids| :: ids[i] in Elements(ids);
  }

  // ------------------------------------------------------------- sending

  /** What decides whether a send is accepted, before it is made. */
  predicate WillAccept(cfg: Config, s: State, p: O.Packet, reachable: bool, opt: SendOptions) {
    if reachable then |s.queue.pending| < cfg.limits.maxPending
    else
      var q := S.QueueOf(s.stores, p.to);
      && (p.to in s.stores || |s.stores| < S.MAX_DESTINATIONS)
      && (|q| < cfg.maxQueuePerDest || opt.priority > S.MinPriority(q))
  }

  /**
   A refused send adds no record, no pending and no stored message. It leaves the
   whole state as it was exactly when it does not open an empty queue for a new
   destination, which it does if the queues may hold nothing.
   */
  lemma RefusedSendLeavesNoTrace(cfg: Config, s: State, encode: Encoder, p: O.Packet, reachable: bool,
                                 opt: SendOptions, now: nat, nowMs: nat)
    ensures Sent(cfg, s, encode, p, reachable, opt, now, nowMs).0 <==> WillAccept(cfg, s, p, reachable, opt)
    ensures !WillAccept(cfg, s, p, reachable, opt) ==>
              var s' := Sent(cfg, s, encode, p, reachable, opt, now, nowMs).1;
              && s'.queue == s.queue && s'.tracker == s.tracker
              && (forall d :: S.QueueOf(s'.stores, d) == S.QueueOf(s.stores, d))
              && (s' == s <==> reachable || p.to in s.stores || |s.stores| >= S.MAX_DESTINATIONS
                               || cfg.maxQueuePerDest >= 1)
  {
    if !reachable && p.to in s.stores {
      assert s.stores[p.to := s.stores[p.to]] == s.stores;
    }
  }

  /** With queues of size zero, a refused send to a new destination leaves an empty queue behind. */
  lemma RefusedSendCanOpenAQueue(cfg: Config, encode: Encoder, p: O.Packet, opt: SendOptions)
    requires cfg.maxQueuePerDest == 0 && opt.priority <= 0
    ensures Sent(cfg, START, encode, p, false, opt, 0, 0) == (false, START.(stores := map[p.to := []]))
  {
    RefusedSendLeavesNoTrace(cfg, START, encode, p, false, opt, 0, 0);
  }

  /** The first of the messages of lowest priority. */
  ghost predicate FirstOfLowest(q: seq<S.Stored>, i: nat) {
    && i < |q| && (forall m | m in q :: q[i].priority <= m.priority)
    && forall j | 0 <= j < i :: q[i].priority < q[j].priority
  }

  /** The queue gains `m` at its end; if it was full, the first of its lowest messages, which `m` outranks, goes. */
  ghost predicate Takes(k: nat, q: seq<S.Stored>, m: S.Stored, q': seq<S.Stored>) {
    if |q| < k || q == [] then q' == q + [m]
    else exists i: nat :: FirstOfLowest(q, i) && q[i].priority < m.priority && q' == S.RemoveAt(q, i) + [m]
  }

  /** Exactly `m` joined the queue, at the end of its own priority, and it is as it was sent. */
  ghost predicate JoinsAsSent(q: seq<O.Pending>, q': seq<O.Pending>, p: O.Packet, opt: SendOptions, now: nat) {
    exists m :: AsSent(m, p, opt, now) && Joined(q, q', [m])
  }

  ghost predicate StoresAsSent(
    k: nat, q: seq<S.Stored>, q': seq<S.Stored>, encode: Encoder, p: O.Packet, opt: SendOptions, nowMs: nat)
  {
    exists m :: StoredAsSent(m, encode, p, opt, nowMs) && Takes(k, q, m, q')
  }

  /** An accepted send adds the one message to the queue or to its destination's store, and records it as queued. */
  lemma AcceptedSendIsRecorded(cfg: Config, s: State, encode: Encoder, p: O.Packet, reachable: bool,
                               opt: SendOptions, now: nat, nowMs: nat)
    requires O.Sorted(s.queue.pending) && WillAccept(cfg, s, p, reachable, opt)
    ensures var s' := Sent(cfg, s, encode, p, reachable, opt, now, nowMs).1;
            && p.id in s'.tracker.records && s'.tracker.records[p.id] == D.Record(D.Queued, p.to, now, 0)
            && s'.tracker.records - {p.id} == s.tracker.records - {p.id}
            && s'.tracker.For(p.to).attempted == s.tracker.For(p.to).attempted + 1
            && s'.queue.inflight == s.queue.inflight && s'.stores - {p.to} == s.stores - {p.to}
            && (if reachable then s'.stores == s.stores && JoinsAsSent(s.queue.pending, s'.queue.pending, p, opt, now)
                else
                  && s'.queue == s.queue
                  && StoresAsSent(cfg.maxQueuePerDest, S.QueueOf(s.stores, p.to), S.QueueOf(s'.stores, p.to),
                                  encode, p, opt, nowMs))
  {
    hide O.Sorted, Joined, Takes, Sent, AsSent;
    AcceptedIsTracked(cfg, s, encode, p, reachable, opt, now, nowMs);
    if reachable {
      AcceptedJoins(cfg, s, encode, p, opt, now, nowMs);
      NewPendingIsAsSent(p, opt, now);
    } else {
      AcceptedIsStored(cfg, s, encode, p, opt, now, nowMs);
      assert StoredAsSent(NewStored(encode, p, opt, nowMs), encode, p, opt, nowMs);
    }
  }

  lemma NewPendingIsAsSent(p: O.Packet, opt: SendOptions, now: nat)
    ensures AsSent(NewPending(p, opt, now), p, opt, now)
  {
  }

  /** A message stored for a node and revived later is what sending it then would have been. */
  lemma RevivalIsASend(
    encode: Encoder, decode: Decoder, m: S.Stored, p: O.Packet, opt: SendOptions, nowMs: nat, later: nat)
    requires StoredAsSent(m, encode, p, opt, nowMs) && decode(encode(p)) == Some(p)
    requires opt.priority in {0, 1, 10, 64, 70, 120, 127}
    ensures |Revived(decode, [m], later)| == 1 && AsSent(Revived(decode, [m], later)[0], p, opt, later)
  {
    assert forall x | x in [m] :: x == m;
    RevivedAt(decode, [m], later, 0);
  }

  lemma AcceptedIsTracked(cfg: Config, s: State, encode: Encoder, p: O.Packet, reachable: bool,
                          opt: SendOptions, now: nat, nowMs: nat)
    requires WillAccept(cfg, s, p, reachable, opt)
    ensures var s' := Sent(cfg, s, encode, p, reachable, opt, now, nowMs).1;
            && p.id in s'.tracker.records && s'.tracker.records[p.id] == D.Record(D.Queued, p.to, now, 0)
            && s'.tracker.records - {p.id} == s.tracker.records - {p.id}
            && s'.tracker.For(p.to).attempted == s.tracker.For(p.to).attempted + 1
            && s'.queue.inflight == s.queue.inflight
  {
    hide S.Offered, O.Insert;
    RefusedSendLeavesNoTrace(cfg, s, encode, p, reachable, opt, now, nowMs);
  }

  lemma AcceptedJoins(cfg: Config, s: State, encode: Encoder, p: O.Packet, opt: SendOptions, now: nat, nowMs: nat)
    requires O.Sorted(s.queue.pending) && WillAccept(cfg, s, p, true, opt)
    ensures var s' := Sent(cfg, s, encode, p, true, opt, now, nowMs).1;
            s'.stores == s.stores && Joined(s.queue.pending, s'.queue.pending, [NewPending(p, opt, now)])
  {
    hide O.Sorted, O.Insert, Joined, D.Tracked;
    JoinsAlone(s.queue.pending, NewPending(p, opt, now));
  }

  lemma AcceptedIsStored(cfg: Config, s: State, encode: Encoder, p: O.Packet, opt: SendOptions, now: nat, nowMs: nat)
    requires WillAccept(cfg, s, p, false, opt)
    ensures var s' := Sent(cfg, s, encode, p, false, opt, now, nowMs).1;
            && s'.queue == s.queue && s'.stores - {p.to} == s.stores - {p.to}
            && Takes(cfg.maxQueuePerDest, S.QueueOf(s.stores, p.to), NewStored(encode, p, opt, nowMs),
                     S.QueueOf(s'.stores, p.to))
  {
    hide Takes, S.Offered, D.Tracked, O.Enqueued;
    RefusedSendLeavesNoTrace(cfg, s, encode, p, false, opt, now, nowMs);
    AcceptedIsTaken(cfg.maxQueuePerDest, S.QueueOf(s.stores, p.to), NewStored(encode, p, opt, nowMs));
  }

  lemma AcceptedIsTaken(k: nat, q: seq<S.Stored>, m: S.Stored)
    requires S.Offered(k, q, m).accepted
    ensures Takes(k, q, m, S.Offered(k, q, m).queue)
  {
    if |q| >= k && q != [] {
      var i := S.Position(q, S.MinPriority(q)).value;
      assert forall j | 0 <= j < i :: q[j] in q;
      assert FirstOfLowest(q, i);
    }
  }

  lemma JoinsAlone(q: seq<O.Pending>, m: O.Pending)
    requires O.Sorted(q)
    ensures Joined(q, O.Insert(q, m), [m])
  {
    assert Init([m]) == [];
    assert InsertedAll(q, [m]) == O.Insert(q, m);
    hide Joined;
    InsertedAllJoins(q, [m]);
  }

  // ------------------------------------------------- accounting across the router

  /** A record that may be failed or re-sent without miscounting: none, or an active one. */
  predicate Open(t: D.Tracker, id: PacketId) {
    id in t.records ==> t.records[id].status.Active()
  }

  /** A send keeps the balance unless it will be accepted over a record still active. */
  lemma SendBalance(cfg: Config, s: State, encode: Encoder, p: O.Packet, reachable: bool, opt: SendOptions,
                    now: nat, nowMs: nat)
    requires D.Balanced(s.tracker)
    ensures D.Balanced(Sent(cfg, s, encode, p, reachable, opt, now, nowMs).1.tracker)
            <==> (WillAccept(cfg, s, p, reachable, opt) && p.id in s.tracker.records ==>
                    !s.tracker.records[p.id].status.Active())
  {
    RefusedSendLeavesNoTrace(cfg, s, encode, p, reachable, opt, now, nowMs);
    hide D.Balanced, WillAccept;
    D.BalanceIsKeptIffGuarded(s.tracker, D.Track(p.id, p.to), now);
  }

  // ------------------------------------------- what the other calls do

  /** An acknowledgement ends the flight and acknowledges the record; it moves no other message. */
  lemma AckEnds(s: State, id: PacketId, hops: Option<nat>, now: nat)
    ensures var s' := Acked(s, id, hops, now);
            && s'.queue.pending == s.queue.pending && s'.stores == s.stores
            && id !in s'.queue.inflight && s'.queue.inflight == s.queue.inflight - {id}
            && s'.tracker.records - {id} == s.tracker.records - {id}
            && (id in s.tracker.records ==> id in s'.tracker.records && s'.tracker.records[id].status.Acknowledged?)
  {
    D.MarkFollows(s.tracker, D.MarkAcknowledged(id, hops), now);
  }

  /** Handing out marks the record of the message as sent, and touches no other record, counter or store. */
  lemma PopMarksSent(cfg: Config, s: State, now: nat)
    ensures var (m, s') := Popped(cfg, s, now);
            && s'.stores == s.stores && s'.tracker.stats == s.tracker.stats
            && (m.None? ==> s'.tracker == s.tracker)
            && (m.Some? ==>
                  var id := m.value.packet.id;
                  && s'.tracker.records - {id} == s.tracker.records - {id}
                  && (id in s.tracker.records ==>
                        && id in s'.tracker.records
                        && s'.tracker.records[id] == s.tracker.records[id].(status := D.Sent(now))))
  {
    var m := Popped(cfg, s, now).0;
    if m.Some? {
      D.MarkFollows(s.tracker, D.MarkSent(m.value.packet.id), now);
    }
  }

  /** The message that comes back is the one that was in flight, with one more retry and its packet's own priority. */
  ghost predicate Requeued(m: O.Inflight, r: O.Pending) {
    && r.packet == m.packet && r.retries == m.retries + 1
    && r.priority == (if m.packet.rawPriority in {0, 1, 10, 64, 70, 120, 127} then m.packet.rawPriority else 64)
    && forall t: nat :: r.Expired(t) <==> m.Expired(t)
  }

  /** What decides whether a NAK or timeout leads to a retry, before it is handled. */
  predicate WillRetry(cfg: Config, q: O.Queue, id: PacketId) {
    && id in q.inflight && q.inflight[id].retries < q.inflight[id].maxRetries
    && |q.pending| < cfg.limits.maxPending
  }

  /**
   A NAK or timeout takes the message out of flight. With retries and room left
   it joins the end of its priority again and the retry is counted; otherwise
   its record has failed for the reason given. Nothing else changes.
   */
  lemma NakRetriesOrFails(cfg: Config, s: State, id: PacketId, reason: D.Failure)
    requires O.Sorted(s.queue.pending)
    ensures var (ok, s') := Naked(cfg, s, id, reason);
            && (ok <==> WillRetry(cfg, s.queue, id))
            && s'.stores == s.stores && s'.queue.inflight == s.queue.inflight - {id}
            && s'.tracker.records - {id} == s.tracker.records - {id}
            && (!ok ==> s'.queue.pending == s.queue.pending)
            && (ok ==> exists r :: Requeued(s.queue.inflight[id], r) && Joined(s.queue.pending, s'.queue.pending, [r]))
            && (id in s.tracker.records ==>
                  && id in s'.tracker.records
                  && var r, r' := s.tracker.records[id], s'.tracker.records[id];
                  if ok then r'.status == r.status && r'.retries == r.retries + 1
                  else r'.status == D.Failed(reason) && r'.retries == r.retries)
  {
    hide O.Sorted, O.Insert, Joined, Requeued, D.Follows;
    NakRecord(s, id, reason);
    assert s.queue.inflight - {id} == if id in s.queue.inflight then s.queue.inflight - {id} else s.queue.inflight;
    if WillRetry(cfg, s.queue, id) {
      var m := s.queue.inflight[id];
      JoinsAlone(s.queue.pending, O.RetryOf(m));
      RetryIsRequeued(m);
    }
  }

  lemma NakRecord(s: State, id: PacketId, reason: D.Failure)
    ensures var a, b := D.RetryRecorded(s.tracker, id).records, D.MarkedLost(s.tracker, id, D.Failed(reason)).records;
            && a - {id} == s.tracker.records - {id} && b - {id} == s.tracker.records - {id}
            && (id in s.tracker.records ==>
                  var r := s.tracker.records[id];
                  && id in a && a[id].status == r.status && a[id].retries == r.retries + 1
                  && id in b && b[id].status == D.Failed(reason) && b[id].retries == r.retries)
  {
    D.MarkFollows(s.tracker, D.RecordRetry(id), 0);
    D.MarkFollows(s.tracker, D.MarkFailed(id, reason), 0);
  }

  lemma RetryIsRequeued(m: O.Inflight)
    ensures Requeued(m, O.RetryOf(m))
  {
  }

  /** What a timeout pass does to one record: a retry counted, or a failure for want of retries. */
  ghost predicate PassRecords(s: State, s': State, ids: seq<PacketId>, failed: seq<PacketId>, id: PacketId) {
    if id !in s.tracker.records then id !in s'.tracker.records
    else
      && id in s'.tracker.records
      && var r, r' := s.tracker.records[id], s'.tracker.records[id];
      if id !in ids then r' == r
      else if id in failed then r'.status == D.Failed(D.MaxRetries) && r'.retries == r.retries
      else r'.status == r.status && r'.retries == r.retries + 1
  }

  lemma {:induction false} TimeoutRecords(cfg: Config, s: State, ids: seq<PacketId>, id: PacketId)
    requires Distinct(ids)
    ensures PassRecords(s, TimedOut(cfg, s, ids), ids, NotRetried(cfg, s, ids), id)
    ensures forall x | x in NotRetried(cfg, s, ids) :: x in ids
    decreases |ids|
  {
    if ids == [] {
    } else {
      var init, last := Init(ids), Last(ids);
      InitLast(ids);
      LastIsNew(ids);
      TimeoutRecords(cfg, s, init, id);
      NakRecord(TimedOut(cfg, s, init), last, D.MaxRetries);
      hide D.RetryRecorded, D.MarkedLost, O.Retried, Distinct, Init, Last;
      var before := TimedOut(cfg, s, init);
      OtherRecord(before.tracker.records, TimedOut(cfg, s, ids).tracker.records, last, id);
      assert id in ids <==> id in init || id == last;
    }
  }

  lemma OtherRecord(a: map<PacketId, D.Record>, b: map<PacketId, D.Record>, last: PacketId, id: PacketId)
    requires b - {last} == a - {last}
    ensures id != last ==> (id in a <==> id in b) && (id in a ==> a[id] == b[id])
  {
    if id != last {
      assert id in a <==> id in a - {last};
      assert id in b <==> id in b - {last};
      assert id in a ==> (a - {last})[id] == a[id];
    }
  }

  /** A NAK or timeout keeps the balance exactly when it will lead to a retry or the record is still open. */
  lemma NakBalance(cfg: Config, s: State, id: PacketId, reason: D.Failure)
    requires D.Balanced(s.tracker)
    ensures D.Balanced(Naked(cfg, s, id, reason).1.tracker)
            <==> WillRetry(cfg, s.queue, id) || Open(s.tracker, id)
  {
    hide D.Balanced;
    D.BalanceIsKeptIffGuarded(s.tracker, D.RecordRetry(id), 0);
    D.BalanceIsKeptIffGuarded(s.tracker, D.MarkFailed(id, reason), 0);
  }

  /** The first pending message that has not expired. */
  predicate FirstUnexpired(q: seq<O.Pending>, now: nat, i: nat) {
    i < |q| && !q[i].Expired(now) && forall j | 0 <= j < i :: q[j].Expired(now)
  }

  /** Handing out keeps the balance exactly when the first unexpired message, if it may go, has an open record. */
  lemma PopBalance(cfg: Config, s: State, now: nat)
    requires D.Balanced(s.tracker)
    ensures D.Balanced(Popped(cfg, s, now).1.tracker)
            <==> (|s.queue.inflight| < cfg.limits.maxInflight ==>
                    forall i: nat | FirstUnexpired(s.queue.pending, now, i) ::
                      Open(s.tracker, s.queue.pending[i].packet.id))
  {
    hide D.Balanced, O.SkipExpired;
    var q := s.queue.pending;
    var first := O.SkipExpiredShape(q, now);
    var m := Popped(cfg, s, now).0;
    if m.Some? {
      assert FirstUnexpired(q, now, first) && m.value == q[first];
      assert forall i: nat | FirstUnexpired(q, now, i) :: i == first;
      D.BalanceIsKeptIffGuarded(s.tracker, D.MarkSent(m.value.packet.id), now);
    }
  }

  /** Acknowledgements, however late or often, and maintenance always keep it. */
  lemma AckAndMaintenanceBalance(cfg: Config, s: State, id: PacketId, hops: Option<nat>, expired: seq<PacketId>,
                                 now: nat, nowMs: nat)
    requires D.Balanced(s.tracker) && Distinct(expired)
    requires Elements(expired) == D.StaleIds(s.tracker, cfg.recordMaxAge, now)
    ensures D.Balanced(Acked(s, id, hops, now).tracker)
    ensures D.Balanced(Maintained(cfg, s, expired, now, nowMs).tracker)
  {
    assert forall x | x in expired :: x in Elements(expired);
    hide D.Balanced;
    D.BalanceIsKeptIffGuarded(s.tracker, D.MarkAcknowledged(id, hops), now);
    D.ExpiryKeeps(s.tracker, expired);
    D.BalanceIsKeptIffGuarded(D.AllExpired(s.tracker, expired), D.PruneCompleted(cfg.recordMaxAge), now);
  }

  /** A NAK that arrives after the acknowledgement counts the message twice: a run that shows it. */
  lemma LateNakMiscounts(cfg: Config, encode: Encoder, p: O.Packet, opt: SendOptions, error: int)
    requires cfg.limits.maxPending >= 1 && cfg.limits.maxInflight >= 1 && opt.ttlSecs >= 1
    ensures var s1 := Sent(cfg, START, encode, p, true, opt, 0, 0).1;
            var (m, s2) := Popped(cfg, s1, 0);
            && m.Some?
            && var s3 := s2.(queue := O.Tracked(cfg.limits, s2.queue, m.value, 0, cfg.ackTimeout));
            var s4 := Acked(s3, p.id, None, 0);
            var s5 := Naked(cfg, s4, p.id, D.Nak(error)).1;
            && s5.tracker.For(p.to) == D.Stats(1, 1, 1, 0, 0) && !D.Balanced(s5.tracker)
  {
    var s1 := Sent(cfg, START, encode, p, true, opt, 0, 0).1;
    assert s1.queue.pending == [NewPending(p, opt, 0)];
    var (m, s2) := Popped(cfg, s1, 0);
    var s3 := s2.(queue := O.Tracked(cfg.limits, s2.queue, m.value, 0, cfg.ackTimeout));
    var s4 := Acked(s3, p.id, None, 0);
    var s5 := Naked(cfg, s4, p.id, D.Nak(error)).1;
    assert s5.tracker.For(p.to) == D.Stats(1, 1, 1, 0, 0);
    assert !D.BalancedFor(s5.tracker, p.to);
  }

  // ------------------------------------------------------ routing confirmations

  const ROUTING_APP := 5

  /** The fields of an inbound packet that routing looks at; the code is absent if there is no error reason. */
  datatype Inbound = Inbound(decoded: bool, portnum: int, requestId: nat, routing: Option<Option<int>>)

  datatype RoutingResult =
    | Ack(requestId: PacketId)
    | Nak(requestId: PacketId, error: int)
    | UnknownError(requestId: PacketId, code: int)
    | NotRouting

  /** Error codes this build knows, besides zero, which means none. */
  predicate KnownError(code: int) {
    1 <= code <= 9 || code in {32, 33}
  }

  function ProcessRouting(p: Inbound): RoutingResult {
    if !p.decoded || p.portnum != ROUTING_APP || p.requestId == 0 then NotRouting
    else
      match p.routing
      case Some(Some(code)) =>
        if code == 0 then Ack(p.requestId)
        else if KnownError(code) then Nak(p.requestId, code)
        else UnknownError(p.requestId, code)
      case _ => NotRouting
  }

  function RoutingApplied(cfg: Config, s: State, r: RoutingResult, now: nat): State {
    match r
    case Ack(id) => Acked(s, id, None, now)
    case Nak(id, error) => Naked(cfg, s, id, D.Nak(error)).1
    case UnknownError(id, code) => Naked(cfg, s, id, D.UnknownNak(code)).1
    case NotRouting => s
  }

  /** Only an explicit zero code for that very packet turns a record into an acknowledged one. */
  lemma OnlyExplicitSuccessConfirms(cfg: Config, s: State, p: Inbound, now: nat, id: PacketId)
    requires id in s.tracker.records && !s.tracker.records[id].status.Acknowledged?
    ensures var t := RoutingApplied(cfg, s, ProcessRouting(p), now).tracker;
            id in t.records
            && (t.records[id].status.Acknowledged?
                <==> p == Inbound(true, ROUTING_APP, id, Some(Some(0))) && id != 0)
  {
  }

  /** A routing packet with an error code is a NAK of the packet it names, known codes told from unknown ones. */
  lemma RoutingVerdict(cfg: Config, s: State, p: Inbound, now: nat)
    ensures var s' := RoutingApplied(cfg, s, ProcessRouting(p), now);
            if p.decoded && p.portnum == 5 && p.requestId != 0 && p.routing.Some? && p.routing.value.Some? then
              var id, code := p.requestId, p.routing.value.value;
              if code == 0 then s' == Acked(s, id, None, now)
              else if 1 <= code <= 9 || code == 32 || code == 33 then s' == Naked(cfg, s, id, D.Nak(code)).1
              else s' == Naked(cfg, s, id, D.UnknownNak(code)).1
            else s' == s
  {
  }

  // ------------------------------------------------------------- maintenance

  /**
   What a maintenance pass leaves: the records younger than the limit, the
   queued and in-flight messages whose time-to-live has not passed, the stored
   ones likewise by the wall clock, each unaltered.
   */
  lemma MaintenanceIsExact(cfg: Config, s: State, expired: seq<PacketId>, now: nat, nowMs: nat)
    requires Distinct(expired) && Elements(expired) == D.StaleIds(s.tracker, cfg.recordMaxAge, now)
    ensures var s' := Maintained(cfg, s, expired, now, nowMs);
            && (forall id :: id in s'.tracker.records <==>
                  id in s.tracker.records && !D.Aged(s.tracker.records[id], cfg.recordMaxAge, now))
            && (forall id | id in s'.tracker.records :: s'.tracker.records[id] == s.tracker.records[id])
            && (forall m :: m in s'.queue.pending <==> m in s.queue.pending && m.ttl > 0 && now < m.created + m.ttl)
            && (forall id :: id in s'.queue.inflight <==>
                  && id in s.queue.inflight && s.queue.inflight[id].ttl > 0
                  && now < s.queue.inflight[id].created + s.queue.inflight[id].ttl)
            && (forall d :: S.KeepsUnexpired(S.QueueOf(s.stores, d), S.QueueOf(s'.stores, d), nowMs))
  {
    hide D.AllExpired, D.Pruned, D.Aged, D.StaleIds, O.Drained, S.Pruned, S.KeepsUnexpired;
    var s' := Maintained(cfg, s, expired, now, nowMs);
    forall id
      ensures id in s'.tracker.records <==>
                id in s.tracker.records && !D.Aged(s.tracker.records[id], cfg.recordMaxAge, now)
      ensures id in s'.tracker.records ==> s'.tracker.records[id] == s.tracker.records[id]
    {
      D.RetentionKeepsTheYoung(s.tracker, expired, cfg.recordMaxAge, now, id, 0);
    }
    O.DrainedIffPast(s.queue, now);
    forall d ensures S.KeepsUnexpired(S.QueueOf(s.stores, d), S.QueueOf(s'.stores, d), nowMs) {
      S.PrunedIffPast(s.stores, nowMs, d);
    }
  }

  // ------------------------------------------------------ the router's own code

  class MeshRouter {
    const cfg: Config
    const outbound: O.OutboundQueue
    const storeForward: S.MessageStore
    const delivery: D.DeliveryTracker

    ghost predicate Configured() {
      outbound.limits == cfg.limits && storeForward.maxQueuePerDest == cfg.maxQueuePerDest
    }

    ghost function Current(): State
      reads outbound, storeForward, delivery
    {
      State(outbound.State(), storeForward.queues, delivery.State())
    }

    constructor (cfg: Config)
      ensures Configured() && Current() == START && this.cfg == cfg
      ensures fresh(outbound) && fresh(storeForward) && fresh(delivery)
    {
      this.cfg := cfg;
      outbound := new O.OutboundQueue(cfg.limits);
      storeForward := new S.MessageStore(cfg.maxQueuePerDest);
      delivery := new D.DeliveryTracker();
    }

    /** Routes a packet: to the queue if the destination is reachable, else to its store. */
    method Send(encode: Encoder, p: O.Packet, reachable: bool, opt: SendOptions, now: nat, nowMs: nat)
      returns (ok: bool)
      requires Configured()
      modifies outbound, storeForward, delivery
      ensures (ok, Current()) == Sent(cfg, old(Current()), encode, p, reachable, opt, now, nowMs)
    {
      if reachable {
        var refused := outbound.Enqueue(NewPending(p, opt, now));
        if refused.Some? {
          return false;
        }
      } else {
        var stored := storeForward.Store(p.to, NewStored(encode, p, opt, nowMs));
        if !stored {
          return false;
        }
      }
      delivery.Track(p.id, p.to, now);
      return true;
    }

    method HandleAck(id: PacketId, hops: Option<nat>, now: nat)
      requires Configured()
      modifies outbound, delivery
      ensures Current() == Acked(old(Current()), id, hops, now)
    {
      var _ := outbound.HandleAck(id);
      delivery.MarkAcknowledged(id, hops, now);
    }

    method HandleNak(id: PacketId, reason: D.Failure) returns (retried: bool)
      requires Configured()
      modifies outbound, delivery
      ensures (retried, Current()) == Naked(cfg, old(Current()), id, reason)
    {
      retried := outbound.Retry(id);
      if retried {
        delivery.RecordRetry(id);
      } else {
        delivery.MarkFailed(id, reason);
      }
    }

    /** Retries or fails every message whose acknowledgement is overdue, in some order. */
    method ProcessTimeouts(now: nat) returns (failed: seq<PacketId>, ghost order: seq<PacketId>)
      requires Configured()
      modifies outbound, delivery
      ensures Distinct(order) && Elements(order) == O.TimedOutIds(old(outbound.State()), now)
      ensures Current() == TimedOut(cfg, old(Current()), order)
      ensures failed == NotRetried(cfg, old(Current()), order)
      ensures forall id :: id in Elements(order) <==>
                && id in old(outbound.inflight)
                && var m := old(outbound.inflight)[id]; m.ackTimeout == 0 || now >= m.sentAt + m.ackTimeout
    {
      hide O.TimedOutIds, Naked, TimedOut, NotRetried, Distinct, Elements;
      NoneTimedOut(cfg, Current());
      forall id { O.OverdueIff(outbound.State(), now, id); }
      var todo := O.TimedOutIds(outbound.State(), now);
      ghost var all := todo;
      failed, order := [], [];
      while todo != {}
        invariant todo <= all && Distinct(order) && Elements(order) == all - todo
        invariant Current() == TimedOut(cfg, old(Current()), order)
        invariant failed == NotRetried(cfg, old(Current()), order)
        decreases todo
      {
        var id :| id in todo;
        todo := todo - {id};
        var retried := HandleNak(id, D.MaxRetries);
        OneMoreTimedOut(cfg, old(Current()), order, id);
        order := order + [id];
        if !retried {
          failed := failed + [id];
        }
      }
    }

    /** Every retention pass: expire records, prune records, stores and queue. */
    method RunMaintenance(now: nat, nowMs: nat) returns (expired: seq<PacketId>)
      requires Configured()
      modifies outbound, storeForward, delivery
      ensures Distinct(expired) && Elements(expired) == D.StaleIds(old(delivery.State()), cfg.recordMaxAge, now)
      ensures Current() == Maintained(cfg, old(Current()), expired, now, nowMs)
      ensures forall id :: id in Elements(expired) <==>
                && id in old(delivery.records) && old(delivery.records)[id].status.Active()
                && D.Aged(old(delivery.records)[id], cfg.recordMaxAge, now)
    {
      expired := delivery.ExpireStale(cfg.recordMaxAge, now);
      delivery.PruneCompleted(cfg.recordMaxAge, now);
      storeForward.PruneExpired(nowMs);
      outbound.DrainExpired(now);
    }

    /** Moves what fits of a node's stored messages to the queue and stores the rest again. */
    method NodeCameOnline(decode: Decoder, dest: nat, now: nat)
      requires Configured()
      modifies outbound, storeForward
      ensures Current() == CameOnline(cfg, old(Current()), decode, dest, now)
    {
      hide InsertedAll, StoredAll, Revived;
      var stored := storeForward.DrainFor(dest);
      var capacity := outbound.RemainingCapacity();
      var n := if |stored| < capacity then |stored| else capacity;
      MoveToQueue(decode, stored[..n], now);
      StoreAgain(dest, stored[n..]);
    }

    method MoveToQueue(decode: Decoder, taken: seq<S.Stored>, now: nat)
      requires Configured() && (taken == [] || |outbound.pending| + |taken| <= cfg.limits.maxPending)
      modifies outbound`pending
      ensures outbound.pending == InsertedAll(old(outbound.pending), Revived(decode, taken, now))
    {
      for i := 0 to |taken|
        invariant outbound.pending == InsertedAll(old(outbound.pending), Revived(decode, taken[..i], now))
        invariant |outbound.pending| <= old(|outbound.pending|) + i
      {
        assert Init(taken[..i + 1]) == taken[..i] && Last(taken[..i + 1]) == taken[i];
        var packet := decode(taken[i].packetBytes);
        if packet.None? {
          continue;
        }
        var m := FromStored(packet.value, taken[i], now);
        var revived := Revived(decode, taken[..i], now);
        assert Init(revived + [m]) == revived;
        O.InsertAdds(outbound.pending, m);
        var refused := outbound.Enqueue(m);
        if refused.Some? {
          break;
        }
      }
      assert taken[..|taken|] == taken;
    }

    method StoreAgain(dest: nat, deferred: seq<S.Stored>)
      requires Configured()
      modifies storeForward
      ensures storeForward.queues == StoredAll(cfg.maxQueuePerDest, old(storeForward.queues), dest, deferred)
    {
      for i := 0 to |deferred|
        invariant storeForward.queues
                  == StoredAll(cfg.maxQueuePerDest, old(storeForward.queues), dest, deferred[..i])
      {
        assert Init(deferred[..i + 1]) == deferred[..i] && Last(deferred[..i + 1]) == deferred[i];
        var _ := storeForward.Store(dest, deferred[i]);
      }
      assert deferred[..|deferred|] == deferred;
    }

    method NextToSend(now: nat) returns (m: Option<O.Pending>)
      requires Configured()
      modifies outbound, delivery
      ensures (m, Current()) == Popped(cfg, old(Current()), now)
    {
      m := outbound.NextToSend(now);
      if m.Some? {
        delivery.MarkSent(m.value.packet.id, now);
      }
    }

    method TrackSent(m: O.Pending, now: nat)
      requires Configured()
      modifies outbound
      ensures Current() == old(Current()).(queue := O.Tracked(cfg.limits, old(Current()).queue, m, now, cfg.ackTimeout))
    {
      outbound.TrackInflight(m, now, cfg.ackTimeout);
    }
  }
}
