/**
 The outbound queue: messages waiting in priority order, and messages sent and
 awaiting an acknowledgement. Times are milliseconds; the clock is a parameter.
 */
module Outbound {
  import opened Common

  type PacketId = nat

  datatype Packet = Packet(id: PacketId, to: nat, rawPriority: int, portnum: int, payload: seq<byte>)

  /** The wire's priority levels; an unknown level reads as the default. */
  const DEFAULT_PRIORITY := 64

  function ToPriority(raw: int): int {
    if raw in {0, 1, 10, 64, 70, 120, 127} then raw else DEFAULT_PRIORITY
  }

  datatype Pending = Pending(packet: Packet, created: nat, ttl: nat, priority: int, retries: nat) {
    predicate Expired(now: nat) { Elapsed(created, now) >= ttl }
  }

  datatype Inflight = Inflight(
    packet: Packet, created: nat, ttl: nat, sentAt: nat, retries: nat, maxRetries: nat, ackTimeout: nat)
  {
    predicate Expired(now: nat) { Elapsed(created, now) >= ttl }
    predicate TimedOut(now: nat) { Elapsed(sentAt, now) >= ackTimeout }
  }

  datatype Limits = Limits(maxInflight: nat, maxPending: nat, maxRetries: nat)

  datatype Queue = Queue(pending: seq<Pending>, inflight: map<PacketId, Inflight>)

  // ------------------------------------------------------------- operations

  /** Where a message of priority `p` goes: in front of the first lower one. */
  function InsertPos(q: seq<Pending>, p: int): (i: nat)
    ensures i <= |q| && (forall j | 0 <= j < i :: q[j].priority >= p) && (i < |q| ==> q[i].priority < p)
  {
    if q == [] || q[0].priority < p then 0 else 1 + InsertPos(q[1..], p)
  }

  function Insert(q: seq<Pending>, m: Pending): seq<Pending> {
    var i := InsertPos(q, m.priority);
    q[..i] + [m] + q[i..]
  }

  /** The queue with a message added, or none if it is full. */
  function Enqueued(lim: Limits, q: seq<Pending>, m: Pending): Option<seq<Pending>> {
    if |q| >= lim.maxPending then None else Some(Insert(q, m))
  }

  function SkipExpired(q: seq<Pending>, now: nat): seq<Pending> {
    if q != [] && q[0].Expired(now) then SkipExpired(q[1..], now) else q
  }

  function Popped(lim: Limits, s: Queue, now: nat): (Option<Pending>, Queue) {
    if |s.inflight| >= lim.maxInflight then (None, s)
    else
      var q := SkipExpired(s.pending, now);
      if q == [] then (None, s.(pending := []))
      else (Some(q[0]), s.(pending := q[1..]))
  }

  function Tracked(lim: Limits, s: Queue, m: Pending, now: nat, timeout: nat): Queue {
    s.(inflight := s.inflight[m.packet.id :=
      Inflight(m.packet, m.created, m.ttl, now, m.retries, lim.maxRetries, timeout)])
  }

  /** The message an inflight one becomes when it is retried. */
  function RetryOf(m: Inflight): Pending {
    Pending(m.packet, m.created, m.ttl, ToPriority(m.packet.rawPriority), m.retries + 1)
  }

  /** A retry always takes the message out of flight; it is requeued only with retries and room left. */
  function Retried(lim: Limits, s: Queue, id: PacketId): (bool, Queue) {
    if id !in s.inflight then (false, s)
    else
      var m, rest := s.inflight[id], s.(inflight := s.inflight - {id});
      if m.retries >= m.maxRetries then (false, rest)
      else
        match Enqueued(lim, s.pending, RetryOf(m))
        case None => (false, rest)
        case Some(q) => (true, rest.(pending := q))
  }

  function Fresh(q: seq<Pending>, now: nat): seq<Pending> {
    if q == [] then []
    else if q[0].Expired(now) then Fresh(q[1..], now)
    else [q[0]] + Fresh(q[1..], now)
  }

  function Drained(s: Queue, now: nat): Queue {
    Queue(Fresh(s.pending, now), map id | id in s.inflight && !s.inflight[id].Expired(now) :: s.inflight[id])
  }

  function TimedOutIds(s: Queue, now: nat): set<PacketId> {
    set id | id in s.inflight && s.inflight[id].TimedOut(now)
  }

  /** Inserting adds exactly the one message. */
  lemma InsertAdds(q: seq<Pending>, m: Pending)
    ensures multiset(Insert(q, m)) == multiset(q) + multiset{m}
    ensures |Insert(q, m)| == |q| + 1
    ensures forall x :: x in Insert(q, m) <==> x in q || x == m
  {
    var i := InsertPos(q, m.priority);
    assert q == q[..i] + q[i..];
  }

  /** Expiry keeps exactly the unexpired messages, in order. */
  lemma {:induction false} FreshIsUnexpired(q: seq<Pending>, now: nat)
    ensures forall x :: x in Fresh(q, now) <==> x in q && !x.Expired(now)
    ensures |Fresh(q, now)| <= |q|
  {
    if q == [] {
    } else {
      FreshIsUnexpired(q[1..], now);
      assert q == [q[0]] + q[1..];
    }
  }

  lemma {:induction false} FreshKeepsOrder(q: seq<Pending>, now: nat)
    ensures Sorted(q) ==> Sorted(Fresh(q, now))
    ensures DistinctIds(q) ==> DistinctIds(Fresh(q, now))
  {
    if q == [] {
    } else {
      var rest := Fresh(q[1..], now);
      FreshKeepsOrder(q[1..], now);
      FreshIsUnexpired(q[1..], now);
      forall j | 0 <= j < |rest|
        ensures Sorted(q) ==> q[0].priority >= rest[j].priority
        ensures DistinctIds(q) ==> q[0].packet.id != rest[j].packet.id
      {
        assert rest[j] in rest;
        var i :| 0 <= i < |q[1..]| && q[1..][i] == rest[j];
        assert q[i + 1] == rest[j];
      }
    }
  }

  /**
   Draining keeps exactly the messages, waiting or in flight, whose
   time-to-live has not passed since they were first enqueued.
   */
  lemma DrainedIffPast(s: Queue, now: nat)
    ensures forall m :: m in Drained(s, now).pending <==> m in s.pending && m.ttl > 0 && now < m.created + m.ttl
    ensures forall id :: id in Drained(s, now).inflight <==>
              id in s.inflight && s.inflight[id].ttl > 0 && now < s.inflight[id].created + s.inflight[id].ttl
    ensures forall id | id in Drained(s, now).inflight :: Drained(s, now).inflight[id] == s.inflight[id]
  {
    FreshIsUnexpired(s.pending, now);
  }

  /** Exactly the messages in flight whose timeout has passed since they were sent are overdue. */
  lemma OverdueIff(s: Queue, t: nat, id: PacketId)
    ensures id in TimedOutIds(s, t) <==>
              && id in s.inflight
              && var m := s.inflight[id]; m.ackTimeout == 0 || t >= m.sentAt + m.ackTimeout
  {
  }

  /** A tracked message is in flight as it was popped, and overdue exactly `timeout` later; no other is affected. */
  lemma TrackedIsInFlight(lim: Limits, s: Queue, m: Pending, now: nat, timeout: nat, t: nat)
    ensures var s', id := Tracked(lim, s, m, now, timeout), m.packet.id;
            && s'.pending == s.pending && id in s'.inflight && s'.inflight - {id} == s.inflight - {id}
            && s'.inflight[id].packet == m.packet && s'.inflight[id].retries == m.retries
            && s'.inflight[id].maxRetries == lim.maxRetries
            && (s'.inflight[id].Expired(t) <==> m.Expired(t))
            && (id in TimedOutIds(s', t) <==> timeout == 0 || t >= now + timeout)
  {
    var s' := Tracked(lim, s, m, now, timeout);
    assert s'.inflight - {m.packet.id} == s.inflight - {m.packet.id};
  }

  lemma InsertDistinct(q: seq<Pending>, m: Pending)
    requires DistinctIds(q) && forall x | x in q :: x.packet.id != m.packet.id
    ensures DistinctIds(Insert(q, m))
  {
    hide Insert;
    var r := Insert(q, m);
    InsertAt(q, m, 0);
    forall a, b | 0 <= a < b < |r| ensures r[a].packet.id != r[b].packet.id {
      InsertAt(q, m, a);
      InsertAt(q, m, b);
    }
  }

  // ------------------------------------------------- order of the pending queue

  ghost predicate Sorted(q: seq<Pending>) {
    forall i, j | 0 <= i < j < |q| :: q[i].priority >= q[j].priority
  }

  ghost predicate DistinctIds(q: seq<Pending>) {
    forall i, j | 0 <= i < j < |q| :: q[i].packet.id != q[j].packet.id
  }

  /** The waiting messages of one priority, oldest first. */
  function OfPriority(q: seq<Pending>, p: int): seq<Pending> {
    if q == [] then []
    else if q[0].priority == p then [q[0]] + OfPriority(q[1..], p)
    else OfPriority(q[1..], p)
  }

  /** Where each element of the new queue comes from. */
  lemma InsertAt(q: seq<Pending>, m: Pending, j: nat)
    requires j <= |q|
    ensures |Insert(q, m)| == |q| + 1
    ensures var i := InsertPos(q, m.priority);
            Insert(q, m)[j] == if j < i then q[j] else if j == i then m else q[j - 1]
  {
  }

  lemma InsertSorted(q: seq<Pending>, m: Pending)
    requires Sorted(q)
    ensures Sorted(Insert(q, m))
  {
    hide Insert;
    var r := Insert(q, m);
    InsertAt(q, m, 0);
    forall a, b | 0 <= a < b < |r| ensures r[a].priority >= r[b].priority {
      InsertAt(q, m, a);
      InsertAt(q, m, b);
    }
  }

  lemma {:induction false} OfPriorityConcat(a: seq<Pending>, b: seq<Pending>, p: int)
    ensures OfPriority(a + b, p) == OfPriority(a, p) + OfPriority(b, p)
  {
    if a == [] {
      assert a + b == b;
    } else {
      OfPriorityConcat(a[1..], b, p);
      assert (a + b)[1..] == a[1..] + b;
    }
  }

  lemma {:induction false} NoneOfPriority(q: seq<Pending>, p: int)
    requires forall m | m in q :: m.priority != p
    ensures OfPriority(q, p) == []
  {
    if q == [] {
    } else {
      NoneOfPriority(q[1..], p);
    }
  }

  lemma JoinsItsOwn(front: seq<Pending>, m: Pending, back: seq<Pending>, p: int)
    requires p == m.priority ==> OfPriority(back, p) == []
    ensures OfPriority(front + [m] + back, p)
            == OfPriority(front + back, p) + (if m.priority == p then [m] else [])
  {
    OfPriorityConcat(front + [m], back, p);
    OfPriorityConcat(front, [m], p);
    OfPriorityConcat(front, back, p);
    assert OfPriority([m], p) == if m.priority == p then [m] else [];
  }

  lemma BehindIsLower(q: seq<Pending>, p: int)
    requires Sorted(q)
    ensures OfPriority(q[InsertPos(q, p)..], p) == []
  {
    var i := InsertPos(q, p);
    assert forall j | i <= j < |q| :: q[j].priority < p;
    NoneOfPriority(q[i..], p);
  }

  /** Each priority is a first-in first-out queue: a new message joins the end of its own and of no other. */
  lemma InsertIsFifo(q: seq<Pending>, m: Pending, p: int)
    requires Sorted(q)
    ensures OfPriority(Insert(q, m), p) == OfPriority(q, p) + (if m.priority == p then [m] else [])
  {
    hide OfPriority;
    BehindIsLower(q, m.priority);
    var i := InsertPos(q, m.priority);
    JoinsItsOwn(q[..i], m, q[i..], p);
    assert q[..i] + q[i..] == q;
  }

  /** Dropping messages from the front, or expired ones anywhere, keeps each priority in order. */
  lemma SuffixInOrder(q: seq<Pending>, k: nat, p: int)
    requires k <= |q|
    ensures Subsequence(OfPriority(q[k..], p), OfPriority(q, p))
  {
    OfPriorityConcat(q[..k], q[k..], p);
    assert q[..k] + q[k..] == q;
    SuffixIsSubsequence(OfPriority(q[..k], p), OfPriority(q[k..], p));
  }

  lemma {:induction false} FreshInOrder(q: seq<Pending>, now: nat, p: int)
    ensures Subsequence(OfPriority(Fresh(q, now), p), OfPriority(q, p))
  {
    if q != [] {
      hide Subsequence;
      FreshInOrder(q[1..], now, p);
      var kept, all := OfPriority(Fresh(q[1..], now), p), OfPriority(q[1..], p);
      SubsequenceFront(kept, all, q[0]);
      assert ([q[0]] + Fresh(q[1..], now))[1..] == Fresh(q[1..], now);
    } else {
      assert Subsequence<Pending>([], []);
    }
  }

  lemma {:induction false} SkipExpiredShape(q: seq<Pending>, now: nat) returns (k: nat)
    ensures k <= |q| && SkipExpired(q, now) == q[k..]
    ensures forall j | 0 <= j < k :: q[j].Expired(now)
    ensures k < |q| ==> !q[k].Expired(now)
  {
    if q != [] && q[0].Expired(now) {
      var r := SkipExpiredShape(q[1..], now);
      k := r + 1;
      assert q[1..][r..] == q[k..];
    } else {
      k := 0;
    }
  }

  /**
   What is handed out is the oldest unexpired message of the highest priority
   that has an unexpired message; everything ahead of it in the queue has
   expired and is gone, and nothing behind it is touched.
   */
  lemma PoppedIsFirst(lim: Limits, s: Queue, now: nat) returns (k: nat)
    requires Sorted(s.pending)
    ensures var (m, s') := Popped(lim, s, now);
            && s'.inflight == s.inflight && Sorted(s'.pending)
            && (m.Some? ==>
                  && |s.inflight| < lim.maxInflight
                  && k < |s.pending| && s.pending[k] == m.value && s'.pending == s.pending[k + 1..]
                  && !m.value.Expired(now) && (forall j | 0 <= j < k :: s.pending[j].Expired(now))
                  && (forall o | o in s.pending && !o.Expired(now) :: o.priority <= m.value.priority))
            && (m.None? ==>
                  || (s' == s && |s.inflight| >= lim.maxInflight)
                  || (s'.pending == [] && forall o | o in s.pending :: o.Expired(now)))
  {
    k := SkipExpiredShape(s.pending, now);
  }

  // ------------------------------------------------------ the queue's own code

  class OutboundQueue {
    const limits: Limits
    var pending: seq<Pending>
    var inflight: map<PacketId, Inflight>

    function State(): Queue
      reads this
    {
      Queue(pending, inflight)
    }

    constructor (limits: Limits)
      ensures State() == Queue([], map[]) && this.limits == limits
    {
      this.limits := limits;
      pending, inflight := [], map[];
    }

    method RemainingCapacity() returns (n: nat)
      ensures n == if |pending| <= limits.maxPending then limits.maxPending - |pending| else 0
    {
      n := if |pending| <= limits.maxPending then limits.maxPending - |pending| else 0;
    }

    /** Adds a message behind its equals and ahead of its inferiors, or hands it back. */
    method Enqueue(m: Pending) returns (refused: Option<Pending>)
      modifies this`pending
      ensures refused == if old(|pending|) < limits.maxPending then None else Some(m)
      ensures Some(pending) == if refused.None? then Enqueued(limits, old(pending), m) else Some(old(pending))
    {
      if |pending| >= limits.maxPending {
        return Some(m);
      }
      var i := 0;
      while i < |pending| && pending[i].priority >= m.priority
        invariant i <= InsertPos(pending, m.priority)
      {
        i := i + 1;
      }
      pending := pending[..i] + [m] + pending[i..];
      return None;
    }

    /** Pops the first unexpired message, discarding the expired ones ahead of it. */
    method NextToSend(now: nat) returns (r: Option<Pending>)
      modifies this`pending
      ensures (r, State()) == Popped(limits, old(State()), now)
    {
      if |inflight| >= limits.maxInflight {
        return None;
      }
      while pending != []
        invariant SkipExpired(pending, now) == SkipExpired(old(pending), now)
        decreases |pending|
      {
        var front := pending[0];
        pending := pending[1..];
        if !front.Expired(now) {
          return Some(front);
        }
      }
      return None;
    }

    /** Records a message popped earlier as sent. */
    method TrackInflight(m: Pending, now: nat, timeout: nat)
      modifies this`inflight
      ensures State() == Tracked(limits, old(State()), m, now, timeout)
    {
      inflight := inflight[m.packet.id :=
        Inflight(m.packet, m.created, m.ttl, now, m.retries, limits.maxRetries, timeout)];
    }

    /** Ends the wait for an acknowledgement. */
    method HandleAck(id: PacketId) returns (m: Option<Inflight>)
      modifies this`inflight
      ensures m == if id in old(inflight) then Some(old(inflight)[id]) else None
      ensures inflight == old(inflight) - {id}
    {
      m := if id in inflight then Some(inflight[id]) else None;
      inflight := inflight - {id};
    }

    /** Takes a message out of flight and requeues it if it may be tried again. */
    method Retry(id: PacketId) returns (ok: bool)
      modifies this
      ensures (ok, State()) == Retried(limits, old(State()), id)
    {
      if id !in inflight {
        return false;
      }
      var m := inflight[id];
      inflight := inflight - {id};
      if m.retries >= m.maxRetries {
        return false;
      }
      var refused := Enqueue(RetryOf(m));
      ok := refused.None?;
    }

    /** Removes what has outlived its time-to-live, waiting or in flight. */
    method DrainExpired(now: nat)
      modifies this
      ensures State() == Drained(old(State()), now)
    {
      pending := Fresh(pending, now);
      inflight := map id | id in inflight && !inflight[id].Expired(now) :: inflight[id];
    }
  }
}
