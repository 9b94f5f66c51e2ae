/** Store-and-forward: one bounded queue of undelivered messages per offline node. */
module StoreForward {
  import opened Common

  type NodeNum = nat

  const MAX_DESTINATIONS: nat := 256

  datatype Stored = Stored(
    packetBytes: seq<byte>, packetId: nat, dest: NodeNum, portnum: int, priority: int,
    storedAtMs: nat, ttlSecs: nat, deliveryAttempts: nat)

  type Queues = map<NodeNum, seq<Stored>>

  // ------------------------------------------------------------- one queue

  /** Lowest priority in the queue; zero if it is empty. */
  function MinPriority(q: seq<Stored>): (p: int)
    ensures q != [] ==> (exists m :: m in q && m.priority == p) && forall m | m in q :: p <= m.priority
    ensures q == [] ==> p == 0
  {
    if |q| == 0 then 0
    else if |q| == 1 then q[0].priority
    else
      var p := MinPriority(q[1..]);
      assert q == [q[0]] + q[1..];
      if q[0].priority < p then q[0].priority else p
  }

  /** Position of the first message of priority `p`. */
  function Position(q: seq<Stored>, p: int): (r: Option<nat>)
    ensures r.Some? ==> r.value < |q| && q[r.value].priority == p && forall j | 0 <= j < r.value :: q[j].priority != p
    ensures r.None? ==> forall m | m in q :: m.priority != p
  {
    if q == [] then None
    else if q[0].priority == p then Some(0)
    else
      match Position(q[1..], p)
      case None => None
      case Some(i) => Some(i + 1)
  }

  function RemoveAt(q: seq<Stored>, i: nat): seq<Stored>
    requires i < |q|
  {
    q[..i] + q[i + 1..]
  }

  /** What offering a message does: the queue it leaves, and the message that lost out, if one did. */
  datatype Offer = Offer(accepted: bool, queue: seq<Stored>, lost: Option<Stored>)

  function Offered(k: nat, q: seq<Stored>, m: Stored): Offer {
    if |q| < k then Offer(true, q + [m], None)
    else if m.priority <= MinPriority(q) then Offer(false, q, Some(m))
    else
      match Position(q, MinPriority(q))
      case None => Offer(true, q + [m], None)
      case Some(i) => Offer(true, RemoveAt(q, i) + [m], Some(q[i]))
  }

  /** The queue stays within its bound exactly when the bound is at least one. */
  lemma BoundHoldsIffPositive(k: nat)
    ensures (forall q: seq<Stored>, m: Stored :: |q| <= k ==> |Offered(k, q, m).queue| <= k) <==> k >= 1
  {
    if k == 0 {
      var m := Stored([], 1, 1, 1, 1, 0, 1, 0);
      assert |Offered(0, [], m).queue| == 1;
    }
  }

  // ------------------------------------------- a run of offers keeps the best

  function Kept(k: nat, offers: seq<Stored>): seq<Stored> {
    if offers == [] then [] else Offered(k, Kept(k, Init(offers)), Last(offers)).queue
  }

  /** Every message refused or evicted, in the order they lost out. */
  function Lost(k: nat, offers: seq<Stored>): seq<Stored> {
    if offers == [] then []
    else
      var before, lost := Lost(k, Init(offers)), Offered(k, Kept(k, Init(offers)), Last(offers)).lost;
      if lost.Some? then before + [lost.value] else before
  }

  ghost predicate Dominated(lost: seq<Stored>, kept: seq<Stored>) {
    forall x, y | x in lost && y in kept :: x.priority <= y.priority
  }

  lemma RemoveAtShape(q: seq<Stored>, i: nat)
    requires i < |q|
    ensures multiset(RemoveAt(q, i)) + multiset{q[i]} == multiset(q)
    ensures forall x | x in RemoveAt(q, i) :: x in q
  {
    assert q == q[..i] + [q[i]] + q[i + 1..];
  }

  lemma OfferConserves(k: nat, q: seq<Stored>, m: Stored)
    requires 1 <= k && |q| <= k
    ensures var o := Offered(k, q, m);
            && multiset(o.queue) + (if o.lost.Some? then multiset{o.lost.value} else multiset{})
               == multiset(q) + multiset{m}
            && |o.queue| == (if |q| < k then |q| + 1 else k) && (o.lost.None? <==> |q| < k)
  {
    hide MinPriority;
    var pos := Position(q, MinPriority(q));
    if |q| >= k && m.priority > MinPriority(q) && pos.Some? {
      RemoveAtShape(q, pos.value);
    }
  }

  /** The loser is no better than anything that stays, nor is anything that lost before. */
  lemma OfferDominates(k: nat, lost: seq<Stored>, q: seq<Stored>, m: Stored)
    requires 1 <= k && |q| == k && Dominated(lost, q)
    ensures var o := Offered(k, q, m);
            o.lost.Some? && Dominated(lost + [o.lost.value], o.queue)
  {
    var low := MinPriority(q);
    var pos := Position(q, low);
    if m.priority > low {
      RemoveAtShape(q, pos.value);
      assert q[pos.value] in q;
    }
  }

  /** Every offered message is kept or lost, and as many are kept as fit. */
  lemma {:induction false} OffersAreConserved(k: nat, offers: seq<Stored>)
    requires 1 <= k
    ensures |Kept(k, offers)| == if |offers| < k then |offers| else k
    ensures multiset(Kept(k, offers)) + multiset(Lost(k, offers)) == multiset(offers)
    decreases |offers|
  {
    if offers == [] {
    } else {
      hide Offered, Init, Last;
      var init, m := Init(offers), Last(offers);
      InitLast(offers);
      OffersAreConserved(k, init);
      OfferConserves(k, Kept(k, init), m);
    }
  }

  lemma OfferWithRoom(k: nat, q: seq<Stored>, m: Stored)
    requires |q| < k
    ensures Offered(k, q, m) == Offer(true, q + [m], None)
  {
  }

  /** While everything fits, everything is kept as it came. */
  lemma {:induction false} AllKeptWhileRoom(k: nat, offers: seq<Stored>)
    requires |offers| <= k
    ensures Kept(k, offers) == offers && Lost(k, offers) == []
    decreases |offers|
  {
    if offers == [] {
    } else {
      hide Offered, Init, Last;
      InitLast(offers);
      AllKeptWhileRoom(k, Init(offers));
      OfferWithRoom(k, Init(offers), Last(offers));
    }
  }

  /**
   Over any sequence of offers, the queue holds as many messages as fit, every
   offered message is either kept or lost, and none that was refused or evicted
   outranks one that was kept: the retained priorities are the largest offered.
   */
  lemma {:induction false} KeepsTheLargest(k: nat, offers: seq<Stored>)
    requires 1 <= k
    ensures |Kept(k, offers)| == if |offers| < k then |offers| else k
    ensures multiset(Kept(k, offers)) + multiset(Lost(k, offers)) == multiset(offers)
    ensures Dominated(Lost(k, offers), Kept(k, offers))
    decreases |offers|
  {
    OffersAreConserved(k, offers);
    if |offers| <= k {
      AllKeptWhileRoom(k, offers);
    } else {
      var init := Init(offers);
      KeepsTheLargest(k, init);
      hide Offered, Dominated;
      OfferDominates(k, Lost(k, init), Kept(k, init), Last(offers));
    }
  }

  // -------------------------------------------------- what a fresh queue keeps

  /**
   Whether a queue may stand at these messages: within the bound, except that a
   bound of zero still admits one message of positive priority.
   */
  predicate AllFit(k: nat, q: seq<Stored>) {
    |q| <= k || (k == 0 && |q| == 1 && q[0].priority > 0)
  }

  lemma OfferFits(k: nat, q: seq<Stored>, m: Stored)
    requires AllFit(k, q)
    ensures AllFit(k, Offered(k, q, m).queue)
  {
    if 1 <= k {
      OfferConserves(k, q, m);
    }
  }

  lemma OfferToNone(q: seq<Stored>, m: Stored)
    requires |q| <= 1
    ensures Offered(0, q, m)
            == if m.priority <= (if q == [] then 0 else q[0].priority) then Offer(false, q, Some(m))
               else Offer(true, [m], if q == [] then None else Some(q[0]))
  {
    if |q| == 1 {
      assert RemoveAt(q, 0) == [] && [] + [m] == [m];
    } else {
      assert q == [];
    }
  }

  /** The queue holds nothing if no priority is positive, else one message of the highest. */
  ghost predicate OneHighest(q: seq<Stored>, offers: seq<Stored>) {
    && |q| <= 1 && (q != [] ==> q[0].priority > 0)
    && forall x | x in offers :: x.priority <= if q == [] then 0 else q[0].priority
  }

  lemma OfferKeepsOneHighest(q: seq<Stored>, offers: seq<Stored>, m: Stored)
    requires OneHighest(q, offers)
    ensures OneHighest(Offered(0, q, m).queue, offers + [m])
  {
    hide Offered;
    OfferToNone(q, m);
  }

  lemma OfferToNoneConserves(q: seq<Stored>, m: Stored)
    requires |q| <= 1
    ensures var o := Offered(0, q, m);
            multiset(o.queue) + (if o.lost.Some? then multiset{o.lost.value} else multiset{})
            == multiset(q) + multiset{m}
  {
    hide Offered;
    OfferToNone(q, m);
    assert q == [] || q == [q[0]];
  }

  /** With a bound of zero the queue keeps one message of the highest positive priority, if any is positive. */
  lemma {:induction false} NoneKeepsOneHighest(offers: seq<Stored>)
    ensures OneHighest(Kept(0, offers), offers)
    ensures multiset(Kept(0, offers)) + multiset(Lost(0, offers)) == multiset(offers)
    decreases |offers|
  {
    if offers == [] {
    } else {
      hide Init, Last, Offered, OneHighest;
      var init, m := Init(offers), Last(offers);
      InitLast(offers);
      NoneKeepsOneHighest(init);
      OfferKeepsOneHighest(Kept(0, init), init, m);
      AtMostOne(Kept(0, init), init);
      OfferToNoneConserves(Kept(0, init), m);
    }
  }

  lemma AtMostOne(q: seq<Stored>, offers: seq<Stored>)
    requires OneHighest(q, offers)
    ensures |q| <= 1
  {
  }

  /** Offered to a fresh queue, messages are all kept, as they came, exactly when they fit it. */
  lemma KeptWhole(k: nat, ms: seq<Stored>)
    ensures |Kept(k, ms)| <= |ms|
    ensures |Kept(k, ms)| == |ms| <==> AllFit(k, ms)
    ensures AllFit(k, ms) ==> Kept(k, ms) == ms
  {
    if |ms| <= k {
      AllKeptWhileRoom(k, ms);
    } else if 1 <= k {
      hide Kept;
      OffersAreConserved(k, ms);
    } else if |ms| == 1 {
      assert Init(ms) == [] && Kept(0, []) == [];
    } else {
      NoneKeepsOneHighest(ms);
    }
  }

  // ---------------------------------------------------------- arrival order

  lemma {:induction false} SubsequenceRemove(a: seq<Stored>, b: seq<Stored>, i: nat)
    requires Subsequence(a, b) && i < |a|
    ensures Subsequence(RemoveAt(a, i), b)
    decreases |b|
  {
    if Last(a) == Last(b) && Subsequence(Init(a), Init(b)) {
      if i == |a| - 1 {
        assert RemoveAt(a, i) == Init(a);
      } else {
        SubsequenceRemove(Init(a), Init(b), i);
        assert RemoveAt(a, i) == RemoveAt(Init(a), i) + [Last(a)];
        assert Init(RemoveAt(a, i)) == RemoveAt(Init(a), i);
      }
    } else {
      SubsequenceRemove(a, Init(b), i);
    }
  }

  /** What is kept stands in the order it was offered. */
  lemma {:induction false} KeptInArrivalOrder(k: nat, offers: seq<Stored>)
    ensures Subsequence(Kept(k, offers), offers)
    decreases |offers|
  {
    if offers != [] {
      hide Subsequence, MinPriority, RemoveAt;
      var init, m := Init(offers), Last(offers);
      KeptInArrivalOrder(k, init);
      assert offers == init + [m];
      OfferInOrder(k, Kept(k, init), init, m);
    } else {
      assert Subsequence([], offers);
    }
  }

  lemma OfferInOrder(k: nat, q: seq<Stored>, offers: seq<Stored>, m: Stored)
    requires Subsequence(q, offers)
    ensures Subsequence(Offered(k, q, m).queue, offers + [m])
  {
    hide Subsequence, MinPriority;
    SubsequenceAppend(q, offers, m);
    var pos := Position(q, MinPriority(q));
    if |q| >= k && m.priority > MinPriority(q) && pos.Some? {
      SubsequenceRemove(q, offers, pos.value);
      SubsequenceAppend(RemoveAt(q, pos.value), offers, m);
    }
  }

  // ------------------------------------------------------------- all queues

  function QueueOf(qs: Queues, dest: NodeNum): seq<Stored> {
    if dest in qs then qs[dest] else []
  }

  function StoredIn(k: nat, qs: Queues, dest: NodeNum, m: Stored): (bool, Queues) {
    if dest !in qs && |qs| >= MAX_DESTINATIONS then (false, qs)
    else
      var o := Offered(k, QueueOf(qs, dest), m);
      (o.accepted, qs[dest := o.queue])
  }

  function ExpiresAt(m: Stored): nat {
    var ttlMs := if m.ttlSecs * 1000 > U64_MAX then U64_MAX else m.ttlSecs * 1000;
    if m.storedAtMs + ttlMs > U64_MAX then U64_MAX else m.storedAtMs + ttlMs
  }

  function Unexpired(q: seq<Stored>, nowMs: nat): seq<Stored> {
    if q == [] then []
    else if nowMs < ExpiresAt(q[0]) then [q[0]] + Unexpired(q[1..], nowMs)
    else Unexpired(q[1..], nowMs)
  }

  function Pruned(qs: Queues, nowMs: nat): Queues {
    map d | d in qs && Unexpired(qs[d], nowMs) != [] :: Unexpired(qs[d], nowMs)
  }

  /**
   Restoring from a snapshot, absent if it does not parse. Only the number of
   destinations is checked: a queue of any length is taken over whole.
   */
  function Restored(qs: Queues, snapshot: Option<Queues>): (bool, Queues) {
    if snapshot.None? || |snapshot.value| > MAX_DESTINATIONS then (false, qs)
    else (true, snapshot.value)
  }

  ghost predicate Bounded(k: nat, qs: Queues) {
    |qs| <= MAX_DESTINATIONS && forall d | d in qs :: AllFit(k, qs[d])
  }

  lemma StoreKeepsBounds(k: nat, qs: Queues, dest: NodeNum, m: Stored)
    requires Bounded(k, qs)
    ensures Bounded(k, StoredIn(k, qs, dest, m).1)
  {
    hide Offered, AllFit;
    AllFitNone(k);
    OfferFits(k, QueueOf(qs, dest), m);
    if dest in qs || |qs| < MAX_DESTINATIONS {
      SetKeepsSize(qs, dest, Offered(k, QueueOf(qs, dest), m).queue);
    }
  }

  lemma AllFitNone(k: nat)
    ensures AllFit(k, [])
  {
  }

  lemma SetKeepsSize(qs: Queues, dest: NodeNum, q: seq<Stored>)
    ensures |qs[dest := q]| == if dest in qs then |qs| else |qs| + 1
  {
    var qs' := qs[dest := q];
    assert qs'.Keys == qs.Keys + {dest};
    assert dest in qs ==> qs'.Keys == qs.Keys;
    assert |qs| == |qs.Keys| && |qs'| == |qs'.Keys|;
  }

  lemma {:induction false} UnexpiredIsShorter(q: seq<Stored>, nowMs: nat)
    ensures |Unexpired(q, nowMs)| <= |q|
    ensures forall m :: m in Unexpired(q, nowMs) <==> m in q && nowMs < ExpiresAt(m)
  {
    if q == [] {
    } else {
      UnexpiredIsShorter(q[1..], nowMs);
      assert q == [q[0]] + q[1..];
    }
  }

  lemma {:induction false} UnexpiredInOrder(q: seq<Stored>, nowMs: nat)
    ensures Subsequence(Unexpired(q, nowMs), q)
  {
    if q == [] {
    } else {
      hide Subsequence;
      UnexpiredInOrder(q[1..], nowMs);
      SubsequenceFront(Unexpired(q[1..], nowMs), q[1..], q[0]);
      assert q == [q[0]] + q[1..];
    }
  }

  /**
   What is left are exactly the messages whose time-to-live, counted from when
   they were stored, has not passed, in order. The last instant the clock can
   show counts as past every deadline.
   */
  ghost predicate KeepsUnexpired(q: seq<Stored>, q': seq<Stored>, nowMs: nat) {
    && (forall m :: m in q' <==> m in q && nowMs < U64_MAX && nowMs < m.storedAtMs + m.ttlSecs * 1000)
    && Subsequence(q', q)
  }

  /** Pruning keeps exactly the unexpired messages of every destination, and leaves no empty queue. */
  lemma PrunedIffPast(qs: Queues, nowMs: nat, d: NodeNum)
    ensures KeepsUnexpired(QueueOf(qs, d), QueueOf(Pruned(qs, nowMs), d), nowMs)
    ensures d in Pruned(qs, nowMs) ==> d in qs && Pruned(qs, nowMs)[d] != []
  {
    UnexpiredIsShorter(QueueOf(qs, d), nowMs);
    UnexpiredInOrder(QueueOf(qs, d), nowMs);
  }

  lemma UnexpiredFits(k: nat, q: seq<Stored>, nowMs: nat)
    requires AllFit(k, q)
    ensures AllFit(k, Unexpired(q, nowMs))
  {
    UnexpiredIsShorter(q, nowMs);
    if |q| > k && Unexpired(q, nowMs) != [] {
      assert Unexpired(q, nowMs)[0] in q;
    }
  }

  lemma PruneKeepsBounds(k: nat, qs: Queues, nowMs: nat)
    requires Bounded(k, qs)
    ensures Bounded(k, Pruned(qs, nowMs))
  {
    SubmapSize(Pruned(qs, nowMs), qs);
    forall d | d in qs ensures AllFit(k, Unexpired(qs[d], nowMs)) {
      UnexpiredFits(k, qs[d], nowMs);
    }
  }

  /** Restoring one's own snapshot changes nothing; a foreign one keeps only the bound on destinations. */
  lemma RestoreKeepsDestinations(k: nat, qs: Queues, snapshot: Option<Queues>)
    requires Bounded(k, qs)
    ensures Restored(qs, Some(qs)) == (true, qs)
    ensures |Restored(qs, snapshot).1| <= MAX_DESTINATIONS
    ensures Bounded(k, Restored(qs, snapshot).1)
            <==> Restored(qs, snapshot).0 ==> forall d | d in snapshot.value :: AllFit(k, snapshot.value[d])
  {
  }

  // ------------------------------------------------------ the store's own code

  class MessageStore {
    const maxQueuePerDest: nat
    var queues: Queues

    constructor (maxQueuePerDest: nat)
      ensures queues == map[] && this.maxQueuePerDest == maxQueuePerDest
    {
      this.maxQueuePerDest := maxQueuePerDest;
      queues := map[];
    }

    /** Stores a message, evicting the first of the lowest priority if the new one outranks it. */
    method Store(dest: NodeNum, m: Stored) returns (ok: bool)
      modifies this
      ensures (ok, queues) == StoredIn(maxQueuePerDest, old(queues), dest, m)
    {
      if dest !in queues && |queues| >= MAX_DESTINATIONS {
        return false;
      }
      var q := if dest in queues then queues[dest] else [];
      queues := queues[dest := q];
      if |q| >= maxQueuePerDest {
        var low := MinPriority(q);
        if m.priority > low {
          var pos := Position(q, low);
          if pos.Some? {
            q := q[..pos.value] + q[pos.value + 1..];
          }
        } else {
          return false;
        }
      }
      queues := queues[dest := q + [m]];
      assert queues == old(queues)[dest := q + [m]];
      return true;
    }

    /** Takes every message stored for a destination. */
    method DrainFor(dest: NodeNum) returns (q: seq<Stored>)
      modifies this
      ensures q == QueueOf(old(queues), dest) && queues == old(queues) - {dest}
    {
      q := if dest in queues then queues[dest] else [];
      queues := queues - {dest};
    }

    /** Replaces every queue by those of a snapshot, unless it holds too many destinations. */
    method Deserialize(snapshot: Option<Queues>) returns (ok: bool)
      modifies this
      ensures (ok, queues) == Restored(old(queues), snapshot)
      ensures !ok ==> queues == old(queues)
      ensures |old(queues)| <= MAX_DESTINATIONS ==> |queues| <= MAX_DESTINATIONS
    {
      if snapshot.None? {
        return false;
      }
      if |snapshot.value| > MAX_DESTINATIONS {
        return false;
      }
      var raw, todo := snapshot.value, snapshot.value.Keys;
      var restored: Queues := map[];
      while todo != {}
        invariant todo <= raw.Keys && restored == map d | d in raw && d !in todo :: raw[d]
        decreases todo
      {
        var d :| d in todo;
        todo := todo - {d};
        restored := restored[d := raw[d]];
      }
      assert restored == raw;
      queues := restored;
      return true;
    }

    /** Removes expired messages, and the queues that this empties. */
    method PruneExpired(nowMs: nat)
      modifies this
      ensures queues == Pruned(old(queues), nowMs)
    {
      queues := map d | d in queues :: Unexpired(queues[d], nowMs);
      queues := map d | d in queues && queues[d] != [] :: queues[d];
    }
  }
}
