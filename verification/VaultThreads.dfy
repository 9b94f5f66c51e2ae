/**
 Any number of threads calling one vault: each mutation takes the write lock,
 reads, appends to the audit log, writes, persists and releases, and the steps of
 different threads interleave freely. No step but the acquisition looks at the
 lock; that only its holder is ever past it is proved, not assumed.
 */
module VaultThreads {
  import opened Common
  import opened VaultSpec

  type Fits = (Name, CredentialType) -> bool
  type Thread = nat

  /** Where a thread stands in its call. */
  datatype Pc =
    | Waiting(call: Call)
    | Entered(call: Call)
    | Decided(call: Call, d: Decision)
    | Appended(call: Call, d: Decision)
    | Inserted(call: Call, d: Decision)
    | Finished(call: Call, outcome: Outcome)

  /** Shared store, lock, threads; and, for the record, the calls in lock order and the outcomes returned. */
  datatype System = System(
    store: Store, lock: Option<Thread>, pcs: map<Thread, Pc>, order: seq<Call>, outcomes: seq<Outcome>)

  const START := System(EMPTY_STORE, None, map[], [], [])

  datatype Step =
    | Invoke(t: Thread, call: Call)
    | Acquire(t: Thread)
    | Read(t: Thread)
    | Append(t: Thread)
    | Insert(t: Thread)
    | Persist(t: Thread)
    | Release(t: Thread)

  predicate Enabled(s: System, step: Step) {
    match step
    case Invoke(t, _) => t !in s.pcs
    case Acquire(t) => t in s.pcs && s.pcs[t].Waiting? && s.lock.None?
    case Read(t) => t in s.pcs && s.pcs[t].Entered?
    case Append(t) => t in s.pcs && s.pcs[t].Decided?
    case Insert(t) => t in s.pcs && s.pcs[t].Appended?
    case Persist(t) => t in s.pcs && s.pcs[t].Inserted?
    case Release(t) => t in s.pcs && s.pcs[t].Finished?
  }

  function At(s: System, t: Thread, pc: Pc): System {
    s.(pcs := s.pcs[t := pc])
  }

  function Next(fits: Fits, s: System, step: Step): System
    requires Enabled(s, step)
  {
    match step
    case Invoke(t, call) => At(s, t, Waiting(call))
    case Acquire(t) =>
      At(s, t, Entered(s.pcs[t].call)).(lock := Some(t), order := s.order + [s.pcs[t].call])
    case Read(t) =>
      var c := s.pcs[t].call;
      (match Decide(fits, s.store.entries, c.op)
       case Refuse(e) => At(s, t, Finished(c, Err(e)))
       case d => At(s, t, Decided(c, d)))
    case Append(t) =>
      var c := s.pcs[t].call;
      if c.faults.append then At(s, t, Finished(c, Err(TamperLog)))
      else At(s, t, Appended(c, s.pcs[t].d)).(store := s.store.(audit := s.store.audit + [c.op.Record()]))
    case Insert(t) =>
      var c := s.pcs[t].call;
      if c.faults.insert || s.pcs[t].d.Refuse? then At(s, t, Finished(c, Err(AuditedMutationFailed)))
      else
        At(s, t, Inserted(c, s.pcs[t].d))
        .(store := s.store.(entries := Written(s.store.entries, c.op.name, s.pcs[t].d)))
    case Persist(t) =>
      var c := s.pcs[t].call;
      At(s, t, Finished(c, if c.faults.persist then Err(AuditedMutationFailed) else Ok))
    case Release(t) =>
      s.(lock := None, pcs := s.pcs - {t}, outcomes := s.outcomes + [s.pcs[t].outcome])
  }

  ghost predicate Run(fits: Fits, systems: seq<System>, steps: seq<Step>) {
    && |systems| == |steps| + 1 && systems[0] == START
    && forall i | 0 <= i < |steps| ::
         Enabled(systems[i], steps[i]) && systems[i + 1] == Next(fits, systems[i], steps[i])
  }

  // ------------------------------------------------------------- invariant

  /** Outcomes of a serial execution. */
  function Outcomes(fits: Fits, calls: seq<Call>): seq<Outcome> {
    if calls == [] then [] else Outcomes(fits, Init(calls)) + [ResultOf(fits, calls)]
  }

  /** A thread past the lock is its holder, and the holder is past the lock. */
  ghost predicate Exclusive(s: System) {
    && (forall t | t in s.pcs && !s.pcs[t].Waiting? :: s.lock == Some(t))
    && (s.lock.Some? ==> s.lock.value in s.pcs && !s.pcs[s.lock.value].Waiting?)
  }

  /** How far the holder has taken the store from `base`. */
  ghost predicate Progress(fits: Fits, base: Store, store: Store, pc: Pc) {
    var op, f := pc.call.op, pc.call.faults;
    var audited := base.(audit := base.audit + [op.Record()]);
    match pc
    case Waiting(_) => false
    case Entered(_) => store == base
    case Decided(_, d) => store == base && d == Decide(fits, base.entries, op) && !d.Refuse?
    case Appended(_, d) =>
      store == audited && d == Decide(fits, base.entries, op) && !d.Refuse? && !f.append
    case Inserted(_, d) =>
      && d == Decide(fits, base.entries, op) && !d.Refuse? && !f.append && !f.insert
      && store == audited.(entries := Written(base.entries, op.name, d))
    case Finished(_, r) => (r, store) == Applied(fits, base, op, f)
  }

  ghost predicate Serial(fits: Fits, s: System) {
    if s.lock.None? then s.store == After(fits, s.order) && s.outcomes == Outcomes(fits, s.order)
    else
      && s.lock.value in s.pcs && s.order != [] && Last(s.order) == s.pcs[s.lock.value].call
      && s.outcomes == Outcomes(fits, Init(s.order))
      && Progress(fits, After(fits, Init(s.order)), s.store, s.pcs[s.lock.value])
  }

  lemma StepKeeps(fits: Fits, s: System, step: Step)
    requires Exclusive(s) && Serial(fits, s) && Enabled(s, step)
    ensures Exclusive(Next(fits, s, step)) && Serial(fits, Next(fits, s, step))
  {
    hide Decide, Outcomes, After, Applied;
    var s' := Next(fits, s, step);
    match step {
      case Invoke(t, call) =>
      case Acquire(t) => assert Init(s'.order) == s.order && Last(s'.order) == s.pcs[t].call;
      case Read(t) => ReadStep(fits, s, t);
      case Append(t) => AppliedBy(fits, After(fits, Init(s.order)), s.pcs[t].call);
      case Insert(t) => AppliedBy(fits, After(fits, Init(s.order)), s.pcs[t].call);
      case Persist(t) => AppliedBy(fits, After(fits, Init(s.order)), s.pcs[t].call);
      case Release(t) => ReleaseStep(fits, s, t);
    }
  }

  /** The outcome and store of a call, stage by stage. */
  lemma AppliedBy(fits: Fits, base: Store, c: Call)
    ensures var d, audited := Decide(fits, base.entries, c.op), base.(audit := base.audit + [c.op.Record()]);
            Applied(fits, base, c.op, c.faults)
            == if d.Refuse? then (Err(d.error), base)
               else if c.faults.append then (Err(TamperLog), base)
               else if c.faults.insert then (Err(AuditedMutationFailed), audited)
               else (if c.faults.persist then Err(AuditedMutationFailed) else Ok,
                     audited.(entries := Written(base.entries, c.op.name, d)))
  {
  }

  lemma ReadStep(fits: Fits, s: System, t: Thread)
    requires Exclusive(s) && Serial(fits, s) && Enabled(s, Read(t))
    ensures Exclusive(Next(fits, s, Read(t))) && Serial(fits, Next(fits, s, Read(t)))
  {
    hide Decide, Outcomes, After, Applied;
    AppliedBy(fits, After(fits, Init(s.order)), s.pcs[t].call);
  }

  lemma ReleaseStep(fits: Fits, s: System, t: Thread)
    requires Exclusive(s) && Serial(fits, s) && Enabled(s, Release(t))
    ensures Exclusive(Next(fits, s, Release(t))) && Serial(fits, Next(fits, s, Release(t)))
  {
    hide Decide, Applied;
  }

  /** Every state of every interleaving is a stage of the serial execution in lock order. */
  lemma {:induction false} InterleavingsAreSerial(fits: Fits, systems: seq<System>, steps: seq<Step>, i: nat)
    requires Run(fits, systems, steps) && i <= |steps|
    ensures Exclusive(systems[i]) && Serial(fits, systems[i])
  {
    if i == 0 {
    } else {
      hide Exclusive, Serial, Enabled, Next;
      InterleavingsAreSerial(fits, systems, steps, i - 1);
      StepKeeps(fits, systems[i - 1], steps[i - 1]);
    }
  }

  /** Whenever the lock is free, the store and the outcomes are those of the serial execution. */
  lemma QuiescentIsSerial(fits: Fits, systems: seq<System>, steps: seq<Step>, i: nat)
    requires Run(fits, systems, steps) && i <= |steps| && systems[i].lock.None?
    ensures systems[i].store == After(fits, systems[i].order)
    ensures systems[i].outcomes == Outcomes(fits, systems[i].order)
  {
    InterleavingsAreSerial(fits, systems, steps, i);
  }

  /** A reader that takes no lock sees the entries before or after the holder's call, never a mixture. */
  lemma ReadersSeeSerialStates(fits: Fits, systems: seq<System>, steps: seq<Step>, i: nat)
    requires Run(fits, systems, steps) && i <= |steps| && systems[i].lock.Some?
    ensures systems[i].order != []
    ensures || systems[i].store.entries == After(fits, Init(systems[i].order)).entries
            || systems[i].store.entries == After(fits, systems[i].order).entries
  {
    InterleavingsAreSerial(fits, systems, steps, i);
    hide Decide;
    var s := systems[i];
    AppliedBy(fits, After(fits, Init(s.order)), Last(s.order));
  }

  // ------------------------------------------- what serial order rules out

  lemma {:induction false} OutcomeAt(fits: Fits, calls: seq<Call>, i: nat)
    requires 0 < i <= |calls|
    ensures |Outcomes(fits, calls)| == |calls| && Outcomes(fits, calls)[i - 1] == ResultOf(fits, calls[..i])
    decreases |calls|
  {
    if i < |calls| {
      OutcomeAt(fits, Init(calls), i);
      assert Init(calls)[..i] == calls[..i];
    } else {
      assert calls[..i] == calls;
      if |calls| > 1 {
        OutcomeAt(fits, Init(calls), i - 1);
      }
    }
  }

  /** Some call after the first `i` and within the first `j` removed `name` from the keyspace. */
  ghost predicate RemovedBetween(fits: Fits, calls: seq<Call>, name: Name, i: nat, j: nat)
    requires j <= |calls|
  {
    exists k :: i < k <= j && calls[k - 1].op == Remove(name) && Wrote(fits, calls[..k])
  }

  /** Rotations of `name` that reached the keyspace after the first `i` calls and within the first `j`. */
  ghost function RotationsBetween(fits: Fits, calls: seq<Call>, name: Name, i: nat, j: nat): nat
    requires i <= j <= |calls|
    decreases j
  {
    if i == j then 0
    else
      RotationsBetween(fits, calls, name, i, j - 1) +
      (if calls[j - 1].op.Rotate? && calls[j - 1].op.name == name && Wrote(fits, calls[..j]) then 1 else 0)
  }

  /** An entry that is not removed stays, and no rotation that reached the keyspace is lost from its count. */
  lemma {:induction false} NoRotationIsLost(fits: Fits, calls: seq<Call>, name: Name, i: nat, j: nat)
    requires i <= j <= |calls| && name in After(fits, calls[..i]).entries
    requires !RemovedBetween(fits, calls, name, i, j)
    ensures name in After(fits, calls[..j]).entries
    ensures After(fits, calls[..j]).entries[name].rotations
            == After(fits, calls[..i]).entries[name].rotations + RotationsBetween(fits, calls, name, i, j)
    decreases j
  {
    if i == j {
    } else {
      NoRotationIsLost(fits, calls, name, i, j - 1);
      assert Init(calls[..j]) == calls[..j - 1] && Last(calls[..j]) == calls[j - 1];
      assert calls[j - 1].op == Remove(name) ==> !Wrote(fits, calls[..j]);
    }
  }

  /** Of two successful adds of one name, a removal stands between: concurrent adds have one winner. */
  lemma OneAddWins(fits: Fits, calls: seq<Call>, name: Name, i: nat, j: nat)
    requires 0 < i < j <= |calls|
    requires calls[i - 1].op.Add? && calls[j - 1].op.Add? && calls[i - 1].op.name == calls[j - 1].op.name == name
    requires ResultOf(fits, calls[..i]) == Ok && ResultOf(fits, calls[..j]) == Ok
    ensures RemovedBetween(fits, calls, name, i, j - 1)
  {
    assert Last(calls[..i]) == calls[i - 1] && Last(calls[..j]) == calls[j - 1];
    assert Init(calls[..j]) == calls[..j - 1];
    assert name in After(fits, calls[..i]).entries;
    if !RemovedBetween(fits, calls, name, i, j - 1) {
      NoRotationIsLost(fits, calls, name, i, j - 1);
      assert false;
    }
  }

  /** With no faults, successful rotations and rotations that reach the keyspace are the same. */
  lemma OkMeansWritten(fits: Fits, calls: seq<Call>)
    requires calls != []
    ensures ResultOf(fits, calls) == Ok ==> Wrote(fits, calls)
    ensures Last(calls).faults == NO_FAULTS ==> (ResultOf(fits, calls) == Ok <==> Wrote(fits, calls))
  {
  }

  // ------------------------------------------------ the same over every run

  /** Every outcome returned so far is that of its call in the serial execution. */
  lemma OutcomesAreSerial(fits: Fits, systems: seq<System>, steps: seq<Step>, i: nat, k: nat)
    requires Run(fits, systems, steps) && i <= |steps| && 0 < k <= |systems[i].outcomes|
    ensures k <= |systems[i].order| && systems[i].outcomes[k - 1] == ResultOf(fits, systems[i].order[..k])
  {
    hide ResultOf;
    var s := systems[i];
    InterleavingsAreSerial(fits, systems, steps, i);
    var done := if s.lock.None? then s.order else Init(s.order);
    if done == [] {
    } else {
      OutcomeAt(fits, done, |done|);
      OutcomeAt(fits, done, k);
      assert done[..k] == s.order[..k];
    }
  }

  /**
   In every state of every interleaving, two adds of one name that have both
   returned success have a removal of that name between them in lock order.
   */
  lemma OneAddWinsInRuns(fits: Fits, systems: seq<System>, steps: seq<Step>, i: nat, name: Name, a: nat, b: nat)
    requires Run(fits, systems, steps) && i <= |steps|
    requires var s := systems[i];
             && 0 < a < b <= |s.outcomes| && b <= |s.order|
             && s.order[a - 1].op.Add? && s.order[b - 1].op.Add?
             && s.order[a - 1].op.name == s.order[b - 1].op.name == name
             && s.outcomes[a - 1] == s.outcomes[b - 1] == Ok
    ensures RemovedBetween(fits, systems[i].order, name, a, b - 1)
  {
    hide ResultOf, RemovedBetween;
    OutcomesAreSerial(fits, systems, steps, i, a);
    OutcomesAreSerial(fits, systems, steps, i, b);
    OneAddWins(fits, systems[i].order, name, a, b);
  }

  /**
   In every state of every interleaving, a call that has returned returned
   success exactly when it met no fault and the writes before it in lock order
   leave its name free for an add, or present and active otherwise.
   */
  lemma OutcomesFollowTheWritesInRuns(fits: Fits, systems: seq<System>, steps: seq<Step>, i: nat, k: nat)
    requires Run(fits, systems, steps) && i <= |steps| && 0 < k <= |systems[i].outcomes| && k <= |systems[i].order|
    ensures var c := systems[i].order[k - 1];
            systems[i].outcomes[k - 1] == Ok
            <==> c.faults == NO_FAULTS
                 && AllowedBy(fits, Replayed(Writes(fits, systems[i].order[..k - 1])), c.op)
  {
    hide ResultOf, AllowedBy, Replayed, Writes;
    var calls := systems[i].order;
    OutcomesAreSerial(fits, systems, steps, i, k);
    assert Init(calls[..k]) == calls[..k - 1] && Last(calls[..k]) == calls[k - 1];
    OutcomeFollowsTheWrites(fits, calls[..k]);
  }

  /** Rotations of `name` after the first `i` calls and within the first `j` that returned success. */
  function OkRotations(order: seq<Call>, outcomes: seq<Outcome>, name: Name, i: nat, j: nat): nat
    requires j <= |order| && j <= |outcomes|
    decreases j
  {
    if j <= i then 0
    else
      OkRotations(order, outcomes, name, i, j - 1) +
      (if order[j - 1].op.Rotate? && order[j - 1].op.name == name && outcomes[j - 1] == Ok then 1 else 0)
  }

  lemma {:induction false} OkRotationsAreWritten(
    fits: Fits, calls: seq<Call>, outcomes: seq<Outcome>, name: Name, i: nat, j: nat)
    requires i <= j <= |calls| && j <= |outcomes|
    requires forall k | i < k <= j :: outcomes[k - 1] == ResultOf(fits, calls[..k])
    ensures OkRotations(calls, outcomes, name, i, j) <= RotationsBetween(fits, calls, name, i, j)
    ensures (forall k | i <= k < j :: calls[k].faults == NO_FAULTS) ==>
              OkRotations(calls, outcomes, name, i, j) == RotationsBetween(fits, calls, name, i, j)
    decreases j
  {
    if i == j {
    } else {
      hide ResultOf, Wrote;
      OkRotationsAreWritten(fits, calls, outcomes, name, i, j - 1);
      assert Last(calls[..j]) == calls[j - 1];
      OkMeansWritten(fits, calls[..j]);
    }
  }

  lemma {:induction false} OrderGrows(fits: Fits, systems: seq<System>, steps: seq<Step>, i: nat, j: nat)
    requires Run(fits, systems, steps) && i <= j <= |steps|
    ensures systems[i].order <= systems[j].order
    decreases j
  {
    if i == j {
    } else {
      hide Decide, Written;
      OrderGrows(fits, systems, steps, i, j - 1);
      var s, step := systems[j - 1], steps[j - 1];
      assert s.order <= Next(fits, s, step).order;
    }
  }

  /**
   Between two moments of an interleaving at which the lock is free, an entry
   that no call removed is still there, and its count has grown by at least the
   rotations that returned success, by exactly those if no call met a fault.
   */
  lemma NoRotationIsLostInRuns(fits: Fits, systems: seq<System>, steps: seq<Step>, i: nat, j: nat, name: Name)
    requires Run(fits, systems, steps) && i <= j <= |steps|
    requires systems[i].lock.None? && systems[j].lock.None? && name in systems[i].store.entries
    requires !RemovedBetween(fits, systems[j].order, name, |systems[i].order|, |systems[j].order|)
    ensures name in systems[j].store.entries && |systems[j].outcomes| == |systems[j].order|
    ensures var since, until := |systems[i].order|, |systems[j].order|;
            var grown := systems[j].store.entries[name].rotations - systems[i].store.entries[name].rotations;
            var ok := OkRotations(systems[j].order, systems[j].outcomes, name, since, until);
            && ok <= grown
            && ((forall k | since <= k < until :: systems[j].order[k].faults == NO_FAULTS) ==> ok == grown)
  {
    hide After, ResultOf, Outcomes, Next, RemovedBetween, RotationsBetween, OkRotations;
    var calls, since := systems[j].order, |systems[i].order|;
    OrderGrows(fits, systems, steps, i, j);
    QuiescentIsSerial(fits, systems, steps, i);
    QuiescentIsSerial(fits, systems, steps, j);
    assert calls[..since] == systems[i].order && calls[..|calls|] == calls;
    NoRotationIsLost(fits, calls, name, since, |calls|);
    OutcomesMatch(fits, calls);
    forall k | since < k <= |calls| ensures systems[j].outcomes[k - 1] == ResultOf(fits, calls[..k]) {
      OutcomesAreSerial(fits, systems, steps, j, k);
    }
    OkRotationsAreWritten(fits, calls, systems[j].outcomes, name, since, |calls|);
  }

  lemma OutcomesMatch(fits: Fits, calls: seq<Call>)
    ensures |Outcomes(fits, calls)| == |calls|
  {
    if calls == [] {
    } else {
      OutcomeAt(fits, calls, |calls|);
    }
  }

  /** Over any interleaving, the keyspace writes are recorded, and in the order they were committed. */
  lemma AuditFollowsLockOrder(fits: Fits, systems: seq<System>, steps: seq<Step>, i: nat)
    requires Run(fits, systems, steps) && i <= |steps| && systems[i].lock.None?
    ensures Subsequence(Writes(fits, systems[i].order), systems[i].store.audit)
    ensures Replayed(Writes(fits, systems[i].order)) == Summarised(systems[i].store.entries)
    ensures (forall k | 0 < k <= |systems[i].order| :: !RecordedInVain(fits, systems[i].order[..k]))
            <==> systems[i].store.audit == Writes(fits, systems[i].order)
  {
    QuiescentIsSerial(fits, systems, steps, i);
    WritesAreAudited(fits, systems[i].order);
    WritesReplay(fits, systems[i].order);
    AuditIsExactIff(fits, systems[i].order);
  }
}
