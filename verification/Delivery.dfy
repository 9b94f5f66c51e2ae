/**
 Delivery tracking: the life of each outbound message and the per-destination
 counters kept beside it.
 */
module Delivery {
  import opened Common

  type PacketId = nat
  type Dest = nat

  datatype Failure = NoRoute | MaxRetries | Nak(error: int) | UnknownNak(code: int) | Ttl | NodeOffline

  datatype Status =
    | Queued
    | Sent(at: nat)
    | Acknowledged(at: nat, hops: Option<nat>)
    | Failed(reason: Failure)
    | Expired
  {
    predicate Active() { Queued? || Sent? }
    predicate Lost() { Failed? || Expired? }
  }

  datatype Record = Record(status: Status, dest: Dest, created: nat, retries: nat)

  datatype Stats = Stats(attempted: nat, acknowledged: nat, failed: nat, latencySumMs: nat, totalRetries: nat)

  datatype Tracker = Tracker(records: map<PacketId, Record>, stats: map<Dest, Stats>) {
    function For(d: Dest): Stats {
      if d in stats then stats[d] else Stats(0, 0, 0, 0, 0)
    }
  }

  const EMPTY := Tracker(map[], map[])

  function SaturatingPred(n: nat): nat {
    if n == 0 then 0 else n - 1
  }

  // ------------------------------------------------------------- operations

  function Tracked(t: Tracker, id: PacketId, dest: Dest, now: nat): Tracker {
    var s := t.For(dest);
    Tracker(t.records[id := Record(Queued, dest, now, 0)], t.stats[dest := s.(attempted := s.attempted + 1)])
  }

  function MarkedSent(t: Tracker, id: PacketId, now: nat): Tracker {
    if id !in t.records then t
    else t.(records := t.records[id := t.records[id].(status := Sent(now))])
  }

  function MarkedAcknowledged(t: Tracker, id: PacketId, hops: Option<nat>, now: nat): Tracker {
    if id !in t.records || t.records[id].status.Acknowledged? then t
    else
      var r := t.records[id];
      var s := t.For(r.dest);
      var latency := s.latencySumMs + Elapsed(r.created, now);
      Tracker(t.records[id := r.(status := Acknowledged(now, hops))],
              t.stats[r.dest := s.(failed := if r.status.Lost() then SaturatingPred(s.failed) else s.failed,
                                   acknowledged := s.acknowledged + 1,
                                   latencySumMs := if latency > U64_MAX then U64_MAX else latency)])
  }

  /** `status` is the terminal status to record: a failure or an expiry. */
  function MarkedLost(t: Tracker, id: PacketId, status: Status): Tracker {
    if id !in t.records then t
    else
      var r := t.records[id];
      var s := t.For(r.dest);
      Tracker(t.records[id := r.(status := status)], t.stats[r.dest := s.(failed := s.failed + 1)])
  }

  function RetryRecorded(t: Tracker, id: PacketId): Tracker {
    if id !in t.records then t
    else
      var r := t.records[id];
      var s := t.For(r.dest);
      Tracker(t.records[id := r.(retries := r.retries + 1)], t.stats[r.dest := s.(totalRetries := s.totalRetries + 1)])
  }

  /** Active records stay whatever their age; completed ones until the limit. */
  predicate Retained(r: Record, maxAge: nat, now: nat) {
    r.status.Active() || Elapsed(r.created, now) < maxAge
  }

  function Pruned(t: Tracker, maxAge: nat, now: nat): Tracker {
    t.(records := map id | id in t.records && Retained(t.records[id], maxAge, now) :: t.records[id])
  }

  /** Active records older than the limit. */
  function StaleIds(t: Tracker, maxAge: nat, now: nat): set<PacketId> {
    set id | id in t.records && t.records[id].status.Active() && Elapsed(t.records[id].created, now) >= maxAge
  }

  function AllExpired(t: Tracker, ids: seq<PacketId>): Tracker {
    if ids == [] then t else MarkedLost(AllExpired(t, Init(ids)), Last(ids), Expired)
  }

  // --------------------------------------------------------------- accounting

  ghost function ActiveIds(t: Tracker, d: Dest): set<PacketId> {
    set id | id in t.records && t.records[id].dest == d && t.records[id].status.Active()
  }

  ghost function LostIds(t: Tracker, d: Dest): set<PacketId> {
    set id | id in t.records && t.records[id].dest == d && t.records[id].status.Lost()
  }

  ghost predicate AddsUpFor(t: Tracker, d: Dest) {
    t.For(d).attempted == t.For(d).acknowledged + t.For(d).failed + |ActiveIds(t, d)|
  }

  /** Every message attempted is acknowledged, failed or still active. */
  ghost predicate AddsUp(t: Tracker) {
    forall d :: AddsUpFor(t, d)
  }

  ghost predicate BalancedFor(t: Tracker, d: Dest) {
    AddsUpFor(t, d) && |LostIds(t, d)| <= t.For(d).failed
  }

  /** The counters add up, and the failure counter covers every retained failure. */
  ghost predicate Balanced(t: Tracker) {
    forall d :: BalancedFor(t, d)
  }

  datatype Op =
    | Track(id: PacketId, dest: Dest)
    | MarkSent(id: PacketId)
    | MarkAcknowledged(id: PacketId, hops: Option<nat>)
    | MarkFailed(id: PacketId, reason: Failure)
    | MarkExpired(id: PacketId)
    | RecordRetry(id: PacketId)
    | PruneCompleted(maxAge: nat)

  function Apply(t: Tracker, op: Op, now: nat): Tracker {
    match op
    case Track(id, dest) => Tracked(t, id, dest, now)
    case MarkSent(id) => MarkedSent(t, id, now)
    case MarkAcknowledged(id, hops) => MarkedAcknowledged(t, id, hops, now)
    case MarkFailed(id, reason) => MarkedLost(t, id, Failed(reason))
    case MarkExpired(id) => MarkedLost(t, id, Expired)
    case RecordRetry(id) => RetryRecorded(t, id)
    case PruneCompleted(maxAge) => Pruned(t, maxAge, now)
  }

  /** Tracking must not replace an active record; the other marks must hit only active ones. */
  predicate Guard(t: Tracker, op: Op) {
    match op
    case Track(id, _) => id in t.records ==> !t.records[id].status.Active()
    case MarkSent(id) => id in t.records ==> t.records[id].status.Active()
    case MarkFailed(id, _) => id in t.records ==> t.records[id].status.Active()
    case MarkExpired(id) => id in t.records ==> t.records[id].status.Active()
    case _ => true
  }

  // -------------------------------------------------- effect of one record on counts

  function Bit(b: bool): nat {
    if b then 1 else 0
  }

  ghost predicate CountsActive(t: Tracker, id: PacketId, d: Dest) {
    id in t.records && t.records[id].dest == d && t.records[id].status.Active()
  }

  ghost predicate CountsLost(t: Tracker, id: PacketId, d: Dest) {
    id in t.records && t.records[id].dest == d && t.records[id].status.Lost()
  }

  lemma OneMember<T>(s: set<T>, s': set<T>, x: T)
    requires s - {x} == s' - {x}
    ensures |s'| + Bit(x in s) == |s| + Bit(x in s')
  {
    assert |s - {x}| == |s| - Bit(x in s);
    assert |s' - {x}| == |s'| - Bit(x in s');
  }

  /** Two trackers that differ in one record differ in the counts by that record. */
  lemma OneRecord(t: Tracker, t': Tracker, id: PacketId, d: Dest)
    requires t'.records - {id} == t.records - {id}
    ensures |ActiveIds(t', d)| + Bit(CountsActive(t, id, d)) == |ActiveIds(t, d)| + Bit(CountsActive(t', id, d))
    ensures |LostIds(t', d)| + Bit(CountsLost(t, id, d)) == |LostIds(t, d)| + Bit(CountsLost(t', id, d))
  {
    forall x | x != id ensures x in t.records <==> x in t'.records
                       ensures x in t.records ==> t.records[x] == t'.records[x]
    {
      assert x in t.records - {id} <==> x in t.records;
      assert x in t'.records - {id} <==> x in t'.records;
      assert x in t.records ==> (t.records - {id})[x] == t.records[x];
    }
    assert ActiveIds(t, d) - {id} == ActiveIds(t', d) - {id};
    assert LostIds(t, d) - {id} == LostIds(t', d) - {id};
    OneMember(ActiveIds(t, d), ActiveIds(t', d), id);
    OneMember(LostIds(t, d), LostIds(t', d), id);
  }

  lemma MarkIsBalancedFor(t: Tracker, t': Tracker, id: PacketId, d: Dest)
    requires BalancedFor(t, d) && t'.records - {id} == t.records - {id}
    ensures AddsUpFor(t', d) <==>
              t'.For(d).attempted + Bit(CountsActive(t, id, d)) + t.For(d).acknowledged + t.For(d).failed
              == t.For(d).attempted + Bit(CountsActive(t', id, d)) + t'.For(d).acknowledged + t'.For(d).failed
    ensures BalancedFor(t', d) <==>
              && AddsUpFor(t', d)
              && |LostIds(t, d)| + Bit(CountsLost(t', id, d)) <= t'.For(d).failed + Bit(CountsLost(t, id, d))
  {
    OneRecord(t, t', id, d);
  }

  lemma LostIsCounted(t: Tracker, id: PacketId)
    requires id in t.records && t.records[id].status.Lost() && BalancedFor(t, t.records[id].dest)
    ensures t.For(t.records[id].dest).failed >= 1
  {
    var d := t.records[id].dest;
    assert id in LostIds(t, d);
    assert LostIds(t, d) != {};
  }

  lemma {:induction false} PruneKeepsFor(t: Tracker, maxAge: nat, now: nat, d: Dest)
    requires BalancedFor(t, d)
    ensures BalancedFor(Pruned(t, maxAge, now), d)
  {
    var t' := Pruned(t, maxAge, now);
    assert ActiveIds(t', d) == ActiveIds(t, d);
    SubsetSize(LostIds(t', d), LostIds(t, d));
  }

  // ----------------------------------------- exactly when each step keeps the balance

  /** One step, one destination: what the step does to both sides of the balance. */
  lemma StepFor(t: Tracker, op: Op, now: nat, d: Dest)
    requires BalancedFor(t, d) && Guard(t, op)
    requires op.MarkAcknowledged? && op.id in t.records && t.records[op.id].status.Lost() ==>
               t.For(t.records[op.id].dest).failed >= 1
    ensures BalancedFor(Apply(t, op, now), d)
  {
    hide ActiveIds, LostIds;
    if op.PruneCompleted? {
      PruneKeepsFor(t, op.maxAge, now, d);
    } else {
      MarkIsBalancedFor(t, Apply(t, op, now), op.id, d);
    }
  }

  lemma GuardedStepKeeps(t: Tracker, op: Op, now: nat)
    requires Balanced(t) && Guard(t, op)
    ensures Balanced(Apply(t, op, now))
  {
    hide Apply, BalancedFor;
    if op.MarkAcknowledged? && op.id in t.records && t.records[op.id].status.Lost() {
      LostIsCounted(t, op.id);
    }
    forall d ensures BalancedFor(Apply(t, op, now), d) {
      StepFor(t, op, now, d);
    }
  }

  /** A step outside the guard miscounts the destination of the record it hits. */
  lemma UnguardedStepBreaks(t: Tracker, op: Op, now: nat)
    requires Balanced(t) && !Guard(t, op)
    ensures !AddsUpFor(Apply(t, op, now), t.records[op.id].dest)
  {
    hide ActiveIds, LostIds;
    MarkIsBalancedFor(t, Apply(t, op, now), op.id, t.records[op.id].dest);
  }

  /**
   From a balanced tracker, a step leaves it balanced if and only if it is
   guarded, and outside the guard it is the equation itself that fails.
   Duplicate and late acknowledgements, retries and pruning always are guarded.
   */
  lemma BalanceIsKeptIffGuarded(t: Tracker, op: Op, now: nat)
    requires Balanced(t)
    ensures Balanced(Apply(t, op, now)) <==> Guard(t, op)
    ensures AddsUp(Apply(t, op, now)) <==> Guard(t, op)
  {
    hide Apply, AddsUpFor;
    if Guard(t, op) {
      GuardedStepKeeps(t, op, now);
      forall d ensures AddsUpFor(Apply(t, op, now), d) {
        assert BalancedFor(Apply(t, op, now), d);
      }
    } else {
      UnguardedStepBreaks(t, op, now);
      assert !BalancedFor(Apply(t, op, now), t.records[op.id].dest);
    }
  }

  datatype Timed = Timed(op: Op, at: nat)

  function After(ops: seq<Timed>): Tracker {
    if ops == [] then EMPTY else Apply(After(Init(ops)), Last(ops).op, Last(ops).at)
  }

  ghost predicate Guarded(ops: seq<Timed>) {
    forall i | 0 <= i < |ops| :: Guard(After(ops[..i]), ops[i].op)
  }

  /** Accounting over whole runs: every guarded run ends balanced, so no subtraction ever saturates. */
  lemma {:induction false} GuardedRunsBalance(ops: seq<Timed>)
    requires Guarded(ops)
    ensures Balanced(After(ops))
    decreases |ops|
  {
    if ops == [] {
      assert forall d :: ActiveIds(EMPTY, d) == {} && LostIds(EMPTY, d) == {};
    } else {
      hide Balanced, Guard, Apply;
      assert forall i | 0 <= i < |Init(ops)| :: Init(ops)[..i] == ops[..i];
      GuardedRunsBalance(Init(ops));
      assert ops[..|ops| - 1] == Init(ops);
      GuardedStepKeeps(After(Init(ops)), Last(ops).op, Last(ops).at);
    }
  }

  function ExpiredRecords(t: Tracker, ids: set<PacketId>): map<PacketId, Record> {
    map id | id in t.records :: if id in ids then t.records[id].(status := Expired) else t.records[id]
  }

  /** Expiring distinct active records, one after the other, is a run of guarded steps. */
  lemma {:induction false} ExpiryKeeps(t: Tracker, ids: seq<PacketId>)
    requires Balanced(t) && Distinct(ids)
    requires forall id | id in ids :: id in t.records && t.records[id].status.Active()
    ensures Balanced(AllExpired(t, ids))
    ensures AllExpired(t, ids).records == ExpiredRecords(t, Elements(ids))
    decreases |ids|
  {
    if ids == [] {
    } else {
      var init, last := Init(ids), Last(ids);
      assert ids == init + [last];
      assert last !in init;
      ExpiryKeeps(t, init);
      GuardedStepKeeps(AllExpired(t, init), MarkExpired(last), 0);
    }
  }

  // ------------------------------------------------- what each step does to a record

  /** The record's fields other than its status and retries. */
  ghost predicate SameMessage(r: Record, r': Record) {
    r'.dest == r.dest && r'.created == r.created
  }

  /** The status and counters a step leaves, for a record that was there. */
  ghost predicate Follows(r: Record, s: Stats, op: Op, now: nat, r': Record, s': Stats) {
    SameMessage(r, r')
    && match op
       case MarkSent(_) => r'.status == Sent(now) && r'.retries == r.retries && s' == s
       case MarkFailed(_, reason) =>
         r'.status == Failed(reason) && r'.retries == r.retries && s' == s.(failed := s.failed + 1)
       case MarkExpired(_) => r'.status == Expired && r'.retries == r.retries && s' == s.(failed := s.failed + 1)
       case RecordRetry(_) =>
         r'.status == r.status && r'.retries == r.retries + 1 && s' == s.(totalRetries := s.totalRetries + 1)
       case MarkAcknowledged(_, hops) =>
         if r.status.Acknowledged? then r' == r && s' == s
         else
           && r'.status == Acknowledged(now, hops) && r'.retries == r.retries
           && s'.acknowledged == s.acknowledged + 1 && s'.attempted == s.attempted && s'.totalRetries == s.totalRetries
           && s'.failed == (if r.status.Active() || s.failed == 0 then s.failed else s.failed - 1)
           && var sum := s.latencySumMs + (if now < r.created then 0 else now - r.created);
           s'.latencySumMs == if sum <= U64_MAX then sum else U64_MAX
       case _ => true
  }

  /**
   A mark on a known id changes that record and the counters of its destination,
   as the mark says, and nothing else; on an unknown id it changes nothing.
   */
  lemma MarkFollows(t: Tracker, op: Op, now: nat)
    requires !op.Track? && !op.PruneCompleted?
    ensures var t' := Apply(t, op, now);
            if op.id !in t.records then t' == t
            else
              var r := t.records[op.id];
              && op.id in t'.records && t'.records - {op.id} == t.records - {op.id}
              && (forall d | d != r.dest :: t'.For(d) == t.For(d))
              && Follows(r, t.For(r.dest), op, now, t'.records[op.id], t'.For(r.dest))
  {
    var t' := Apply(t, op, now);
    if op.id in t.records {
      assert t'.records - {op.id} == t.records - {op.id};
    }
  }

  /** Tracking counts the attempt and starts the record afresh, and changes nothing else. */
  lemma TrackFollows(t: Tracker, id: PacketId, dest: Dest, now: nat)
    ensures var t' := Apply(t, Track(id, dest), now);
            && id in t'.records && t'.records[id] == Record(Queued, dest, now, 0)
            && t'.records - {id} == t.records - {id}
            && t'.For(dest) == t.For(dest).(attempted := t.For(dest).attempted + 1)
            && forall d | d != dest :: t'.For(d) == t.For(d)
  {
    assert Apply(t, Track(id, dest), now).records - {id} == t.records - {id};
  }

  // ------------------------------------------------------ retention by age

  /** The record was created at least `age` ago. */
  predicate Aged(r: Record, age: nat, now: nat) {
    age == 0 || r.created + age <= now
  }

  /** Exactly the active records of that age are stale. */
  lemma StaleIffAged(t: Tracker, maxAge: nat, now: nat, id: PacketId)
    ensures id in StaleIds(t, maxAge, now) <==>
              id in t.records && (t.records[id].status == Queued || t.records[id].status.Sent?)
              && Aged(t.records[id], maxAge, now)
  {
  }

  /** Pruning drops exactly the finished records of that age; it alters no other and no counter. */
  lemma PrunedIffAged(t: Tracker, maxAge: nat, now: nat, id: PacketId)
    ensures var t' := Pruned(t, maxAge, now);
            && (id in t'.records <==>
                  id in t.records && (t.records[id].status.Active() || !Aged(t.records[id], maxAge, now)))
            && (id in t'.records ==> t'.records[id] == t.records[id])
            && t'.stats == t.stats
  {
  }

  /** How many of these ids are of one destination. */
  function CountFor(t: Tracker, ids: seq<PacketId>, d: Dest): nat {
    if ids == [] then 0
    else CountFor(t, Init(ids), d) + Bit(Last(ids) in t.records && t.records[Last(ids)].dest == d)
  }

  /** Expiring distinct known records marks them and counts each as failed for its destination. */
  lemma {:induction false} ExpiryCounts(t: Tracker, ids: seq<PacketId>, d: Dest)
    requires Distinct(ids) && forall id | id in ids :: id in t.records
    ensures AllExpired(t, ids).records == ExpiredRecords(t, Elements(ids))
    ensures AllExpired(t, ids).For(d) == t.For(d).(failed := t.For(d).failed + CountFor(t, ids, d))
    decreases |ids|
  {
    if ids == [] {
    } else {
      var init, last := Init(ids), Last(ids);
      LastIsNew(ids);
      hide ExpiredRecords, MarkedLost, Elements, Distinct, Init, Last;
      ExpiryCounts(t, init, d);
      ExpireOne(t, AllExpired(t, init), Elements(init), last, d);
    }
  }

  lemma LastIsNew(ids: seq<PacketId>)
    requires ids != [] && Distinct(ids)
    ensures Distinct(Init(ids)) && Last(ids) !in Elements(Init(ids)) && Last(ids) in ids
    ensures Elements(ids) == Elements(Init(ids)) + {Last(ids)} && forall id | id in Init(ids) :: id in ids
  {
    assert ids == Init(ids) + [Last(ids)];
  }

  lemma ExpireOne(t: Tracker, t1: Tracker, done: set<PacketId>, id: PacketId, d: Dest)
    requires id in t.records && id !in done && t1.records == ExpiredRecords(t, done)
    ensures MarkedLost(t1, id, Expired).records == ExpiredRecords(t, done + {id})
    ensures MarkedLost(t1, id, Expired).For(d) == t1.For(d).(failed := t1.For(d).failed + Bit(t.records[id].dest == d))
  {
  }

  /**
   A retention pass, expiring first and pruning next, keeps exactly the records
   younger than the limit, each as it was, and counts every active record it
   drops as a failure of its destination.
   */
  lemma RetentionKeepsTheYoung(t: Tracker, expired: seq<PacketId>, maxAge: nat, now: nat, id: PacketId, d: Dest)
    requires Distinct(expired) && Elements(expired) == StaleIds(t, maxAge, now)
    ensures var t' := Pruned(AllExpired(t, expired), maxAge, now);
            && (id in t'.records <==> id in t.records && !Aged(t.records[id], maxAge, now))
            && (id in t'.records ==> t'.records[id] == t.records[id])
            && t'.For(d) == t.For(d).(failed := t.For(d).failed + CountFor(t, expired, d))
  {
    hide AllExpired, Distinct, CountFor;
    assert forall x | x in expired :: x in Elements(expired);
    ExpiryCounts(t, expired, d);
    StaleIffAged(t, maxAge, now, id);
    PrunedIffAged(AllExpired(t, expired), maxAge, now, id);
  }

  lemma NoneExpired(t: Tracker)
    ensures AllExpired(t, []) == t && Distinct<PacketId>([]) && Elements<PacketId>([]) == {}
  {
  }

  lemma OneMoreExpired(t: Tracker, ids: seq<PacketId>, id: PacketId)
    requires Distinct(ids) && id !in Elements(ids)
    ensures AllExpired(t, ids + [id]) == MarkedLost(AllExpired(t, ids), id, Expired)
    ensures Distinct(ids + [id]) && Elements(ids + [id]) == Elements(ids) + {id}
  {
    assert Init(ids + [id]) == ids;
    assert forall i | 0 <= i < |ids| :: ids[i] in Elements(ids);
  }

  // ---------------------------------------------------- the tracker's own code

  class DeliveryTracker {
    var records: map<PacketId, Record>
    var destStats: map<Dest, Stats>

    function State(): Tracker
      reads this
    {
      Tracker(records, destStats)
    }

    constructor ()
      ensures State() == EMPTY
    {
      records, destStats := map[], map[];
    }

    function StatsOf(d: Dest): Stats
      reads this
    {
      if d in destStats then destStats[d] else Stats(0, 0, 0, 0, 0)
    }

    method Track(id: PacketId, dest: Dest, now: nat)
      modifies this
      ensures State() == Tracked(old(State()), id, dest, now)
    {
      records := records[id := Record(Queued, dest, now, 0)];
      var s := StatsOf(dest);
      destStats := destStats[dest := s.(attempted := s.attempted + 1)];
    }

    method MarkSent(id: PacketId, now: nat)
      modifies this
      ensures State() == MarkedSent(old(State()), id, now)
    {
      if id in records {
        records := records[id := records[id].(status := Sent(now))];
      }
    }

    method MarkAcknowledged(id: PacketId, hops: Option<nat>, now: nat)
      modifies this
      ensures State() == MarkedAcknowledged(old(State()), id, hops, now)
    {
      if id in records {
        var r := records[id];
        if r.status.Acknowledged? {
          return;
        }
        records := records[id := r.(status := Acknowledged(now, hops))];
        var s := StatsOf(r.dest);
        if r.status.Lost() {
          s := s.(failed := SaturatingPred(s.failed));
        }
        var latency := s.latencySumMs + Elapsed(r.created, now);
        destStats := destStats[r.dest := s.(acknowledged := s.acknowledged + 1,
                                            latencySumMs := if latency > U64_MAX then U64_MAX else latency)];
      }
    }

    method MarkLost(id: PacketId, status: Status)
      modifies this
      ensures State() == MarkedLost(old(State()), id, status)
    {
      if id in records {
        var r := records[id];
        records := records[id := r.(status := status)];
        var s := StatsOf(r.dest);
        destStats := destStats[r.dest := s.(failed := s.failed + 1)];
      }
    }

    method MarkFailed(id: PacketId, reason: Failure)
      modifies this
      ensures State() == MarkedLost(old(State()), id, Failed(reason))
    {
      MarkLost(id, Failed(reason));
    }

    method RecordRetry(id: PacketId)
      modifies this
      ensures State() == RetryRecorded(old(State()), id)
    {
      if id in records {
        var r := records[id];
        records := records[id := r.(retries := r.retries + 1)];
        var s := StatsOf(r.dest);
        destStats := destStats[r.dest := s.(totalRetries := s.totalRetries + 1)];
      }
    }

    method PruneCompleted(maxAge: nat, now: nat)
      modifies this
      ensures State() == Pruned(old(State()), maxAge, now)
    {
      ghost var before := records;
      var todo := records.Keys;
      while todo != {}
        invariant todo <= before.Keys && destStats == old(destStats)
        invariant records == map id | id in before && (id in todo || Retained(before[id], maxAge, now)) :: before[id]
        decreases todo
      {
        var id :| id in todo;
        todo := todo - {id};
        var completed := match records[id].status
          case Acknowledged(_, _) => true
          case Failed(_) => true
          case Expired => true
          case Queued => false
          case Sent(_) => false;
        if completed && !(Elapsed(records[id].created, now) < maxAge) {
          records := records - {id};
        }
      }
    }

    /** Expires every active record older than the limit, in the order the map happens to give. */
    method ExpireStale(maxAge: nat, now: nat) returns (expired: seq<PacketId>)
      modifies this
      ensures Distinct(expired) && Elements(expired) == StaleIds(old(State()), maxAge, now)
      ensures State() == AllExpired(old(State()), expired)
      ensures forall id :: id in Elements(expired) <==>
                           id in old(records) && old(records)[id].status.Active() && Aged(old(records)[id], maxAge, now)
    {
      hide AllExpired, Distinct, Elements;
      NoneExpired(State());
      forall id { StaleIffAged(State(), maxAge, now, id); }
      expired := [];
      var todo := records.Keys;
      ghost var stale := StaleIds(State(), maxAge, now);
      while todo != {}
        invariant todo <= old(records).Keys
        invariant forall id | id in todo :: id in records && records[id] == old(records)[id]
        invariant Distinct(expired) && Elements(expired) == stale - todo
        invariant State() == AllExpired(old(State()), expired)
        decreases todo
      {
        var id :| id in todo;
        todo := todo - {id};
        if records[id].status.Active() && Elapsed(records[id].created, now) >= maxAge {
          MarkLost(id, Status.Expired);
          OneMoreExpired(old(State()), expired, id);
          expired := expired + [id];
        }
      }
    }
  }
}
