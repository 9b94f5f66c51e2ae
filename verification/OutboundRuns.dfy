/**
 Whole runs of the outbound queue: sends, pops, tracking, acknowledgements,
 retries after a NAK or a timeout, and expiry, in any order. A popped message is
 in hand until it is tracked, as in the flush task, which pops several messages
 before it tracks the first.
 */
module OutboundRuns {
  import opened Common
  import opened Outbound

  /** A message as it was first enqueued. */
  datatype Birth = Birth(packet: Packet, priority: int, created: nat, ttl: nat)

  datatype HandOut = HandOut(packet: Packet, at: nat)

  /**
   The queue, the clock, the messages in hand, every id ever sent, every
   hand-out ever made, and every message ever enqueued in order of arrival.
   */
  datatype World = World(
    queue: Queue, now: nat, hand: map<PacketId, Pending>, births: map<PacketId, Birth>, log: seq<HandOut>,
    arrivals: seq<Pending>)

  datatype Op =
    | Send(packet: Packet, ttl: nat, priority: int)
    | Pop
    | Track(id: PacketId, timeout: nat)
    | Ack(id: PacketId)
    | Retry(id: PacketId)
    | DrainExpired
    | Wait(until: nat)

  const START := World(Queue([], map[]), 0, map[], map[], [], [])

  /** Ids are not reused, only a message in hand is tracked, and the clock does not go back. */
  predicate Allowed(w: World, op: Op) {
    match op
    case Send(p, _, _) => p.id !in w.births
    case Track(id, _) => id in w.hand
    case Wait(until) => w.now <= until
    case _ => true
  }

  function Sent(lim: Limits, w: World, packet: Packet, ttl: nat, priority: int): World {
    var m := Pending(packet, w.now, ttl, priority, 0);
    match Enqueued(lim, w.queue.pending, m)
    case None => w
    case Some(q) =>
      w.(queue := w.queue.(pending := q), births := w.births[packet.id := Birth(packet, priority, w.now, ttl)],
         arrivals := w.arrivals + [m])
  }

  function PoppedOnce(lim: Limits, w: World): World {
    var (m, q) := Popped(lim, w.queue, w.now);
    match m
    case None => w.(queue := q)
    case Some(m) =>
      w.(queue := q, hand := w.hand[m.packet.id := m], log := w.log + [HandOut(m.packet, w.now)])
  }

  function Next(lim: Limits, w: World, op: Op): World
    requires Allowed(w, op)
  {
    match op
    case Send(packet, ttl, priority) => Sent(lim, w, packet, ttl, priority)
    case Pop => PoppedOnce(lim, w)
    case Track(id, timeout) =>
      w.(queue := Tracked(lim, w.queue, w.hand[id], w.now, timeout), hand := w.hand - {id})
    case Ack(id) => w.(queue := w.queue.(inflight := w.queue.inflight - {id}))
    case Retry(id) =>
      var (ok, q) := Retried(lim, w.queue, id);
      w.(queue := q, arrivals := if ok then w.arrivals + [RetryOf(w.queue.inflight[id])] else w.arrivals)
    case DrainExpired => w.(queue := Drained(w.queue, w.now))
    case Wait(until) => w.(now := until)
  }

  /** Worlds a run can reach. */
  ghost predicate Run(lim: Limits, worlds: seq<World>, ops: seq<Op>) {
    && |worlds| == |ops| + 1 && worlds[0] == START
    && forall i | 0 <= i < |ops| :: Allowed(worlds[i], ops[i]) && worlds[i + 1] == Next(lim, worlds[i], ops[i])
  }

  // ------------------------------------------------------------- invariant

  function Times(log: seq<HandOut>, id: PacketId): nat {
    if log == [] then 0 else Times(Init(log), id) + (if Last(log).packet.id == id then 1 else 0)
  }

  /** What holds of a message wherever it is, having been handed out `times` times. */
  ghost predicate Known(
    lim: Limits, w: World, id: PacketId, p: Packet, created: nat, ttl: nat, retries: nat, times: nat)
  {
    && p.id == id && id in w.births
    && w.births[id].packet == p && w.births[id].created == created && w.births[id].ttl == ttl
    && retries <= lim.maxRetries && Times(w.log, id) == times
  }

  /** A message waits with the priority it was sent with, and after a retry with its packet's own. */
  ghost predicate RankKnown(w: World, m: Pending)
    requires m.packet.id in w.births
  {
    m.priority == if m.retries == 0 then w.births[m.packet.id].priority else ToPriority(m.packet.rawPriority)
  }

  ghost predicate PendingKnown(lim: Limits, w: World) {
    forall m | m in w.queue.pending ::
      && Known(lim, w, m.packet.id, m.packet, m.created, m.ttl, m.retries, m.retries)
      && RankKnown(w, m)
  }

  ghost predicate HandKnown(lim: Limits, w: World) {
    forall id | id in w.hand ::
      var m := w.hand[id];
      Known(lim, w, id, m.packet, m.created, m.ttl, m.retries, m.retries + 1)
  }

  ghost predicate InflightKnown(lim: Limits, w: World) {
    forall id | id in w.queue.inflight ::
      var m := w.queue.inflight[id];
      m.maxRetries == lim.maxRetries && Known(lim, w, id, m.packet, m.created, m.ttl, m.retries, m.retries + 1)
  }

  /** No id is in two places, nor twice in the queue. */
  ghost predicate OnePlaceEach(w: World) {
    && DistinctIds(w.queue.pending)
    && (forall m | m in w.queue.pending :: m.packet.id !in w.queue.inflight && m.packet.id !in w.hand)
    && w.queue.inflight.Keys !! w.hand.Keys
  }

  /** What is handed out is the packet as it was sent, before its deadline. */
  ghost predicate HandedOutInTime(births: map<PacketId, Birth>, h: HandOut) {
    && h.packet.id in births && births[h.packet.id].packet == h.packet
    && h.at < births[h.packet.id].created + births[h.packet.id].ttl
  }

  ghost predicate LogKept(lim: Limits, w: World) {
    && (forall h | h in w.log :: HandedOutInTime(w.births, h))
    && (forall id :: Times(w.log, id) <= lim.maxRetries + 1)
    && (forall id | id !in w.births :: Times(w.log, id) == 0)
  }

  ghost predicate Ordered(lim: Limits, w: World) {
    Sorted(w.queue.pending) && |w.queue.pending| <= lim.maxPending
  }

  /** The waiting messages of each priority stand in order of arrival. */
  ghost predicate InArrivalOrder(w: World) {
    forall p :: Subsequence(OfPriority(w.queue.pending, p), w.arrivals)
  }

  ghost predicate Inv(lim: Limits, w: World) {
    && PendingKnown(lim, w) && HandKnown(lim, w) && InflightKnown(lim, w)
    && OnePlaceEach(w) && LogKept(lim, w) && Ordered(lim, w)
  }

  // --------------------------------------------------- each step keeps it

  lemma TimesAppend(log: seq<HandOut>, h: HandOut, id: PacketId)
    ensures Times(log + [h], id) == Times(log, id) + (if h.packet.id == id then 1 else 0)
  {
    assert Init(log + [h]) == log;
  }

  /** Adding a message whose id is nowhere keeps the places apart. */
  lemma InsertKeepsPlaces(w: World, m: Pending)
    requires OnePlaceEach(w) && m.packet.id !in w.queue.inflight && m.packet.id !in w.hand
    requires forall x | x in w.queue.pending :: x.packet.id != m.packet.id
    ensures OnePlaceEach(w.(queue := w.queue.(pending := Insert(w.queue.pending, m))))
  {
    InsertAdds(w.queue.pending, m);
    InsertDistinct(w.queue.pending, m);
  }

  /** Queueing a known message that is nowhere else. */
  lemma InsertKeeps(lim: Limits, w: World, m: Pending)
    requires Inv(lim, w) && |w.queue.pending| < lim.maxPending
    requires Known(lim, w, m.packet.id, m.packet, m.created, m.ttl, m.retries, m.retries) && RankKnown(w, m)
    requires m.packet.id !in w.queue.inflight && m.packet.id !in w.hand
    requires forall x | x in w.queue.pending :: x.packet.id != m.packet.id
    ensures Inv(lim, w.(queue := w.queue.(pending := Insert(w.queue.pending, m))))
  {
    hide Insert, Sorted, LogKept, OnePlaceEach;
    InsertAdds(w.queue.pending, m);
    InsertSorted(w.queue.pending, m);
    InsertKeepsPlaces(w, m);
    LogOnly(lim, w, w.(queue := w.queue.(pending := Insert(w.queue.pending, m))));
  }

  lemma BirthKeeps(lim: Limits, w: World, id: PacketId, b: Birth)
    requires Inv(lim, w) && id !in w.births
    ensures Inv(lim, w.(births := w.births[id := b]))
  {
    hide Sorted, DistinctIds;
  }

  lemma SendKeeps(lim: Limits, w: World, packet: Packet, ttl: nat, priority: int)
    requires Inv(lim, w) && packet.id !in w.births
    ensures Inv(lim, Sent(lim, w, packet, ttl, priority))
  {
    hide Insert, Sorted, DistinctIds;
    if |w.queue.pending| < lim.maxPending {
      var born := w.(births := w.births[packet.id := Birth(packet, priority, w.now, ttl)]);
      BirthKeeps(lim, w, packet.id, Birth(packet, priority, w.now, ttl));
      InsertKeeps(lim, born, Pending(packet, w.now, ttl, priority, 0));
    }
  }

  /** A hand-out is counted, and is made before the message's original deadline. */
  lemma PopKeepsLog(lim: Limits, w: World, m: Pending)
    requires LogKept(lim, w) && PendingKnown(lim, w) && m in w.queue.pending && !m.Expired(w.now)
    ensures LogKept(lim, w.(log := w.log + [HandOut(m.packet, w.now)]))
  {
    assert Known(lim, w, m.packet.id, m.packet, m.created, m.ttl, m.retries, m.retries);
    forall id ensures Times(w.log + [HandOut(m.packet, w.now)], id)
                      == Times(w.log, id) + (if id == m.packet.id then 1 else 0)
    {
      TimesAppend(w.log, HandOut(m.packet, w.now), id);
    }
  }

  lemma PopKeepsMessages(lim: Limits, w: World, k: nat)
    requires Inv(lim, w) && k < |w.queue.pending|
    ensures var m := w.queue.pending[k];
            var w' := w.(queue := w.queue.(pending := w.queue.pending[k + 1..]),
                         hand := w.hand[m.packet.id := m], log := w.log + [HandOut(m.packet, w.now)]);
            PendingKnown(lim, w') && HandKnown(lim, w') && InflightKnown(lim, w') && OnePlaceEach(w')
  {
    hide LogKept;
    var q, m := w.queue.pending, w.queue.pending[k];
    assert m in q;
    forall x | x in q[k + 1..] ensures x in q && x.packet.id != m.packet.id {}
    forall id ensures Times(w.log + [HandOut(m.packet, w.now)], id)
                      == Times(w.log, id) + (if id == m.packet.id then 1 else 0)
    {
      TimesAppend(w.log, HandOut(m.packet, w.now), id);
    }
  }

  lemma PopKeeps(lim: Limits, w: World)
    requires Inv(lim, w)
    ensures Inv(lim, PoppedOnce(lim, w))
  {
    hide PendingKnown, HandKnown, InflightKnown, LogKept, OnePlaceEach, Popped;
    var k := PoppedIsFirst(lim, w.queue, w.now);
    var (r, q) := Popped(lim, w.queue, w.now);
    if r.Some? {
      PopKeepsLog(lim, w, r.value);
      PopKeepsMessages(lim, w, k);
      LogOnly(lim, w.(log := PoppedOnce(lim, w).log), PoppedOnce(lim, w));
    } else {
      EmptyKeeps(lim, w, q);
    }
  }

  lemma LogOnly(lim: Limits, w: World, w': World)
    requires w.log == w'.log && w.births == w'.births && LogKept(lim, w)
    ensures LogKept(lim, w')
  {
  }

  lemma EmptyKeeps(lim: Limits, w: World, q: Queue)
    requires Inv(lim, w) && q.inflight == w.queue.inflight && (q == w.queue || q.pending == [])
    ensures Inv(lim, w.(queue := q))
  {
  }

  lemma TrackKeeps(lim: Limits, w: World, id: PacketId, timeout: nat)
    requires Inv(lim, w) && id in w.hand
    ensures Inv(lim, Next(lim, w, Track(id, timeout)))
  {
  }

  lemma AckKeeps(lim: Limits, w: World, id: PacketId)
    requires Inv(lim, w)
    ensures Inv(lim, w.(queue := w.queue.(inflight := w.queue.inflight - {id})))
  {
    hide Sorted, DistinctIds;
  }

  lemma RetryKeeps(lim: Limits, w: World, id: PacketId)
    requires Inv(lim, w)
    ensures Inv(lim, Next(lim, w, Retry(id)))
  {
    hide Insert, Sorted, DistinctIds;
    if id in w.queue.inflight {
      var m := w.queue.inflight[id];
      AckKeeps(lim, w, id);
      if m.retries < m.maxRetries && |w.queue.pending| < lim.maxPending {
        InsertKeeps(lim, w.(queue := w.queue.(inflight := w.queue.inflight - {id})), RetryOf(m));
      }
    }
  }

  lemma DrainKeeps(lim: Limits, w: World)
    requires Inv(lim, w)
    ensures Inv(lim, Next(lim, w, DrainExpired))
  {
    FreshIsUnexpired(w.queue.pending, w.now);
    FreshKeepsOrder(w.queue.pending, w.now);
  }

  lemma NextKeeps(lim: Limits, w: World, op: Op)
    requires Inv(lim, w) && Allowed(w, op)
    ensures Inv(lim, Next(lim, w, op))
  {
    match op {
      case Send(packet, ttl, priority) => SendKeeps(lim, w, packet, ttl, priority);
      case Pop => PopKeeps(lim, w);
      case Track(id, timeout) => TrackKeeps(lim, w, id, timeout);
      case Ack(id) => AckKeeps(lim, w, id);
      case Retry(id) => RetryKeeps(lim, w, id);
      case DrainExpired => DrainKeeps(lim, w);
      case Wait(until) =>
    }
  }

  // -------------------------------------------------------------- whole runs

  /** In every state of every run: order, capacity, and one place per id. */
  lemma {:induction false} RunKeeps(lim: Limits, worlds: seq<World>, ops: seq<Op>, i: nat)
    requires Run(lim, worlds, ops) && i <= |ops|
    ensures Inv(lim, worlds[i])
  {
    if i == 0 {
      assert Inv(lim, START);
    } else {
      hide Inv, Next, Allowed;
      RunKeeps(lim, worlds, ops, i - 1);
      NextKeeps(lim, worlds[i - 1], ops[i - 1]);
    }
  }

  /** A recorded birth is the time and time-to-live of an earlier send. */
  lemma {:induction false} BirthIsASend(lim: Limits, worlds: seq<World>, ops: seq<Op>, i: nat, id: PacketId)
    returns (k: nat)
    requires Run(lim, worlds, ops) && i <= |ops| && id in worlds[i].births
    ensures k < i && ops[k].Send? && ops[k].packet.id == id
    ensures worlds[i].births[id] == Birth(ops[k].packet, ops[k].priority, worlds[k].now, ops[k].ttl)
  {
    assert i > 0;
    var w, op := worlds[i - 1], ops[i - 1];
    assert Allowed(w, op) && worlds[i] == Next(lim, w, op);
    if id in w.births {
      k := BirthIsASend(lim, worlds, ops, i - 1, id);
      assert worlds[i].births[id] == w.births[id];
    } else {
      k := i - 1;
    }
  }

  /** No message is handed out more than `maxRetries + 1` times in any run. */
  lemma HandOutsAreBounded(lim: Limits, worlds: seq<World>, ops: seq<Op>, i: nat, id: PacketId)
    requires Run(lim, worlds, ops) && i <= |ops|
    ensures Times(worlds[i].log, id) <= lim.maxRetries + 1
  {
    RunKeeps(lim, worlds, ops, i);
  }

  /** Whatever the retries, what is handed out is the packet of its own send, before the deadline that send set. */
  lemma NeverHandedOutLate(lim: Limits, worlds: seq<World>, ops: seq<Op>, i: nat, h: HandOut) returns (k: nat)
    requires Run(lim, worlds, ops) && i <= |ops| && h in worlds[i].log
    ensures k < i && ops[k].Send? && ops[k].packet == h.packet
    ensures h.at < worlds[k].now + ops[k].ttl
  {
    RunKeeps(lim, worlds, ops, i);
    k := BirthIsASend(lim, worlds, ops, i, h.packet.id);
  }

  /** The bound on pending holds in every run, and no id is both waiting and in flight. */
  lemma PendingIsBoundedAndApart(lim: Limits, worlds: seq<World>, ops: seq<Op>, i: nat)
    requires Run(lim, worlds, ops) && i <= |ops|
    ensures |worlds[i].queue.pending| <= lim.maxPending && Sorted(worlds[i].queue.pending)
    ensures DistinctIds(worlds[i].queue.pending)
    ensures forall m | m in worlds[i].queue.pending :: m.packet.id !in worlds[i].queue.inflight
  {
    RunKeeps(lim, worlds, ops, i);
  }

  /** A waiting message is its own send: packet, deadline, and priority, or after a retry the packet's own. */
  lemma WaitingAsSent(lim: Limits, worlds: seq<World>, ops: seq<Op>, i: nat, m: Pending) returns (k: nat)
    requires Run(lim, worlds, ops) && i <= |ops| && m in worlds[i].queue.pending
    ensures k < i && ops[k].Send? && ops[k].packet == m.packet
    ensures m.created == worlds[k].now && m.ttl == ops[k].ttl
    ensures m.priority == if m.retries == 0 then ops[k].priority else ToPriority(m.packet.rawPriority)
    ensures m.retries == Times(worlds[i].log, m.packet.id)
  {
    RunKeeps(lim, worlds, ops, i);
    k := BirthIsASend(lim, worlds, ops, i, m.packet.id);
  }

  /** What is in flight was just tracked, or was in flight before and is unchanged. */
  lemma InflightStep(lim: Limits, w: World, op: Op, id: PacketId)
    requires HandKnown(lim, w) && Allowed(w, op) && id in Next(lim, w, op).queue.inflight
    ensures var m := Next(lim, w, op).queue.inflight[id];
            if op.Track? && op.id == id then m.sentAt == w.now && m.ackTimeout == op.timeout
            else id in w.queue.inflight && w.queue.inflight[id] == m
  {
    hide Insert, SkipExpired;
  }

  lemma {:induction false} LastTracked(lim: Limits, worlds: seq<World>, ops: seq<Op>, i: nat, id: PacketId)
    returns (k: nat)
    requires Run(lim, worlds, ops) && i <= |ops| && id in worlds[i].queue.inflight
    ensures k < i && ops[k].Track? && ops[k].id == id
    ensures forall j | k < j < i :: !(ops[j].Track? && ops[j].id == id)
    ensures var m := worlds[i].queue.inflight[id]; m.sentAt == worlds[k].now && m.ackTimeout == ops[k].timeout
    decreases i
  {
    hide Next, Allowed, Inv, HandKnown;
    assert i > 0;
    var w, op := worlds[i - 1], ops[i - 1];
    assert Allowed(w, op) && worlds[i] == Next(lim, w, op);
    RunKeeps(lim, worlds, ops, i - 1);
    HandIsKnown(lim, w);
    InflightStep(lim, w, op, id);
    if op.Track? && op.id == id {
      k := i - 1;
    } else {
      k := LastTracked(lim, worlds, ops, i - 1, id);
    }
  }

  lemma HandIsKnown(lim: Limits, w: World)
    requires Inv(lim, w)
    ensures HandKnown(lim, w)
  {
  }

  /** A message is overdue exactly when it is in flight and its timeout has passed since it was last tracked. */
  lemma OverdueSinceTracked(lim: Limits, worlds: seq<World>, ops: seq<Op>, i: nat, id: PacketId, t: nat)
    returns (k: nat)
    requires Run(lim, worlds, ops) && i <= |ops|
    ensures id in TimedOutIds(worlds[i].queue, t) ==> id in worlds[i].queue.inflight
    ensures id in worlds[i].queue.inflight ==>
              && k < i && ops[k].Track? && ops[k].id == id
              && (forall j | k < j < i :: !(ops[j].Track? && ops[j].id == id))
              && (id in TimedOutIds(worlds[i].queue, t) <==>
                    ops[k].timeout == 0 || t >= worlds[k].now + ops[k].timeout)
  {
    hide Next, Allowed;
    k := 0;
    if id in worlds[i].queue.inflight {
      k := LastTracked(lim, worlds, ops, i, id);
    }
  }

  // ------------------------------------------------- why a message leaves the queue

  ghost predicate Waiting(q: seq<Pending>, id: PacketId) {
    exists m :: m in q && m.packet.id == id
  }

  /** Waiting, in hand or in flight. */
  ghost predicate Present(w: World, id: PacketId) {
    Waiting(w.queue.pending, id) || id in w.hand || id in w.queue.inflight
  }

  /** The message's time-to-live, counted from its send, has passed. */
  ghost predicate PastDeadline(w: World, id: PacketId) {
    id in w.births && (w.births[id].ttl == 0 || w.now >= w.births[id].created + w.births[id].ttl)
  }

  /** Why a step may make a message disappear. */
  ghost predicate MayLeave(lim: Limits, w: World, op: Op, id: PacketId) {
    match op
    case Pop => Waiting(w.queue.pending, id) && PastDeadline(w, id)
    case DrainExpired => PastDeadline(w, id)
    case Ack(x) => x == id && id in w.queue.inflight
    case Retry(x) =>
      && x == id && id in w.queue.inflight
      && (w.queue.inflight[id].retries == lim.maxRetries || |w.queue.pending| == lim.maxPending)
    case _ => false
  }

  /**
   No message is lost but for a reason: it was acknowledged, its last retry was
   used up or found no room, or its time-to-live had passed.
   */
  lemma LeavesOnlyFor(lim: Limits, w: World, op: Op, id: PacketId)
    requires Inv(lim, w) && Allowed(w, op) && Present(w, id)
    ensures Present(Next(lim, w, op), id) || MayLeave(lim, w, op, id)
  {
    hide LogKept, Insert, DistinctIds;
    var q, q' := w.queue.pending, Next(lim, w, op).queue.pending;
    match op {
      case Send(p, ttl, priority) =>
        var m := Pending(p, w.now, ttl, priority, 0);
        InsertAdds(q, m);
        StillWaiting(q, q', id);
      case Pop =>
        var k := PoppedIsFirst(lim, w.queue, w.now);
        PopLeaves(lim, w, k, id);
      case Retry(x) =>
        if x in w.queue.inflight { RetryLeaves(lim, w, x, id); }
      case DrainExpired =>
        FreshIsUnexpired(q, w.now);
        DrainLeaves(lim, w, id);
      case _ =>
    }
  }

  lemma StillWaiting(q: seq<Pending>, q': seq<Pending>, id: PacketId)
    requires Waiting(q, id) ==> forall m | m in q :: m in q'
    ensures Waiting(q, id) ==> Waiting(q', id)
  {
  }

  lemma PopLeaves(lim: Limits, w: World, k: nat, id: PacketId)
    requires Inv(lim, w) && Present(w, id)
    requires var (m, s') := Popped(lim, w.queue, w.now);
             && s'.inflight == w.queue.inflight
             && (m.Some? ==> && k < |w.queue.pending| && w.queue.pending[k] == m.value
                             && s'.pending == w.queue.pending[k + 1..]
                             && forall j | 0 <= j < k :: w.queue.pending[j].Expired(w.now))
             && (m.None? ==> s' == w.queue || forall o | o in w.queue.pending :: o.Expired(w.now))
    ensures Present(PoppedOnce(lim, w), id) || (Waiting(w.queue.pending, id) && PastDeadline(w, id))
  {
    hide LogKept, Popped, Ordered, OnePlaceEach, InflightKnown, HandKnown;
    var q := w.queue.pending;
    if Waiting(q, id) {
      var m: Pending :| m in q && m.packet.id == id;
      var j :| 0 <= j < |q| && q[j] == m;
      if Popped(lim, w.queue, w.now).0.Some? && j > k {
        assert q[k + 1..][j - k - 1] in q[k + 1..];
      }
    }
  }

  lemma RetryLeaves(lim: Limits, w: World, x: PacketId, id: PacketId)
    requires Inv(lim, w) && x in w.queue.inflight && Present(w, id)
    ensures Present(Next(lim, w, Retry(x)), id) || MayLeave(lim, w, Retry(x), id)
  {
    hide LogKept, Insert, OnePlaceEach, HandKnown, PendingKnown, Sorted;
    var q, m := w.queue.pending, w.queue.inflight[x];
    InsertAdds(q, RetryOf(m));
    StillWaiting(q, Next(lim, w, Retry(x)).queue.pending, id);
    if m.retries < m.maxRetries && |q| < lim.maxPending && x == id {
      assert RetryOf(m) in Next(lim, w, Retry(x)).queue.pending;
    }
  }

  lemma DrainLeaves(lim: Limits, w: World, id: PacketId)
    requires Inv(lim, w) && Present(w, id)
    requires forall x :: x in Fresh(w.queue.pending, w.now) <==> x in w.queue.pending && !x.Expired(w.now)
    ensures Present(Next(lim, w, DrainExpired), id) || PastDeadline(w, id)
  {
    hide LogKept, Ordered, OnePlaceEach, HandKnown, Fresh;
    if Waiting(w.queue.pending, id) {
      var m :| m in w.queue.pending && m.packet.id == id;
      assert m in Fresh(w.queue.pending, w.now) || m.Expired(w.now);
    }
  }

  /** A message appears only by its own send. */
  lemma AppearsOnlyBySend(lim: Limits, w: World, op: Op, id: PacketId)
    requires Inv(lim, w) && Allowed(w, op) && Present(Next(lim, w, op), id)
    ensures Present(w, id) || (op.Send? && op.packet.id == id && |w.queue.pending| < lim.maxPending)
  {
    hide LogKept, Insert, DistinctIds, Sorted;
    var q, q' := w.queue.pending, Next(lim, w, op).queue.pending;
    match op {
      case Send(p, ttl, priority) => InsertAdds(q, Pending(p, w.now, ttl, priority, 0));
      case Pop =>
        var k := SkipExpiredShape(q, w.now);
        assert forall m | m in q' :: m in q;
        assert k < |q| ==> q[k] in q;
      case Retry(x) => if x in w.queue.inflight { InsertAdds(q, RetryOf(w.queue.inflight[x])); }
      case DrainExpired => FreshIsUnexpired(q, w.now);
      case _ =>
    }
  }

  /** Over every run: a message that was there and is gone left for one of those reasons. */
  lemma NothingVanishes(lim: Limits, worlds: seq<World>, ops: seq<Op>, i: nat, id: PacketId)
    requires Run(lim, worlds, ops) && i < |ops|
    ensures Present(worlds[i], id) && !Present(worlds[i + 1], id) ==> MayLeave(lim, worlds[i], ops[i], id)
    ensures !Present(worlds[i], id) && Present(worlds[i + 1], id) ==> ops[i].Send? && ops[i].packet.id == id
  {
    hide Inv, Present, MayLeave, Next;
    RunKeeps(lim, worlds, ops, i);
    assert Allowed(worlds[i], ops[i]) && worlds[i + 1] == Next(lim, worlds[i], ops[i]);
    if Present(worlds[i], id) {
      LeavesOnlyFor(lim, worlds[i], ops[i], id);
    }
    if Present(worlds[i + 1], id) {
      AppearsOnlyBySend(lim, worlds[i], ops[i], id);
    }
  }

  // ------------------------------------------------------------ arrival order

  lemma InsertInArrivalOrder(w: World, m: Pending)
    requires Sorted(w.queue.pending) && InArrivalOrder(w)
    ensures forall p :: Subsequence(OfPriority(Insert(w.queue.pending, m), p), w.arrivals + [m])
  {
    forall p ensures Subsequence(OfPriority(Insert(w.queue.pending, m), p), w.arrivals + [m]) {
      hide Subsequence, OfPriority, Insert;
      InsertIsFifo(w.queue.pending, m, p);
      assert OfPriority(w.queue.pending, p) + [] == OfPriority(w.queue.pending, p);
      SubsequenceAppend(OfPriority(w.queue.pending, p), w.arrivals, m);
    }
  }

  lemma NextInArrivalOrder(lim: Limits, w: World, op: Op)
    requires Sorted(w.queue.pending) && InArrivalOrder(w) && Allowed(w, op)
    ensures InArrivalOrder(Next(lim, w, op))
  {
    var w' := Next(lim, w, op);
    if w'.arrivals != w.arrivals {
      InsertInArrivalOrder(w, if op.Send? then Pending(op.packet, w.now, op.ttl, op.priority, 0)
                              else RetryOf(w.queue.inflight[op.id]));
    } else {
      forall p ensures Subsequence(OfPriority(w'.queue.pending, p), w.arrivals) {
        hide Subsequence, OfPriority;
        StillInOrder(lim, w, op, p);
        SubsequenceTransitive(OfPriority(w'.queue.pending, p), OfPriority(w.queue.pending, p), w.arrivals);
      }
    }
  }

  lemma StillInOrder(lim: Limits, w: World, op: Op, p: int)
    requires Allowed(w, op) && Next(lim, w, op).arrivals == w.arrivals
    ensures Subsequence(OfPriority(Next(lim, w, op).queue.pending, p), OfPriority(w.queue.pending, p))
  {
    hide Subsequence, OfPriority;
    var q, q' := w.queue.pending, Next(lim, w, op).queue.pending;
    match op {
      case Pop =>
        var k := SkipExpiredShape(q, w.now);
        SuffixInOrder(q, k, p);
        SuffixInOrder(q, if k < |q| then k + 1 else k, p);
        SuffixInOrder(q, 0, p);
        assert q[0..] == q;
      case DrainExpired => FreshInOrder(q, w.now, p);
      case _ =>
        SuffixInOrder(q, 0, p);
        assert q[0..] == q;
    }
  }

  /** In every state of every run, the waiting messages of one priority stand in the order they were enqueued. */
  lemma {:induction false} FirstComeFirstServed(lim: Limits, worlds: seq<World>, ops: seq<Op>, i: nat)
    requires Run(lim, worlds, ops) && i <= |ops|
    ensures InArrivalOrder(worlds[i])
  {
    if i == 0 {
      assert InArrivalOrder(START);
    } else {
      hide InArrivalOrder, Next, Allowed, Sorted;
      FirstComeFirstServed(lim, worlds, ops, i - 1);
      PendingIsBoundedAndApart(lim, worlds, ops, i - 1);
      NextInArrivalOrder(lim, worlds[i - 1], ops[i - 1]);
    }
  }

  // ------------------------------------------------------------ reachable worlds

  ghost predicate Reachable(lim: Limits, w: World) {
    exists worlds, ops :: Run(lim, worlds, ops) && worlds[|ops|] == w
  }

  lemma StartIsReachable(lim: Limits)
    ensures Reachable(lim, START)
  {
    assert Run(lim, [START], []);
  }

  lemma NextIsReachable(lim: Limits, w: World, op: Op)
    requires Reachable(lim, w) && Allowed(w, op)
    ensures Reachable(lim, Next(lim, w, op))
  {
    hide Allowed, Next;
    var worlds, ops :| Run(lim, worlds, ops) && worlds[|ops|] == w;
    assert Run(lim, worlds + [Next(lim, w, op)], ops + [op]);
  }

  /** What every run keeps, of a world some run reaches. */
  lemma ReachableKeeps(lim: Limits, w: World)
    requires Reachable(lim, w)
    ensures Inv(lim, w) && InArrivalOrder(w)
  {
    hide Inv, InArrivalOrder, Allowed, Next;
    var worlds, ops :| Run(lim, worlds, ops) && worlds[|ops|] == w;
    RunKeeps(lim, worlds, ops, |ops|);
    FirstComeFirstServed(lim, worlds, ops, |ops|);
  }
}
