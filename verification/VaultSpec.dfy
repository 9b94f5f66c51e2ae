/**
 The credential vault as a state machine over decrypted entries: what add,
 remove, rotate and revoke do to the keyspace and to the audit log, including
 what a failed append, insert or persist leaves behind.
 */
module VaultSpec {
  import opened Common

  type Name = seq<byte>
  type CredentialType = seq<byte>

  datatype EntryStatus = Active | Revoked | ExpiredEntry

  datatype EventKind = Created | Rotated | RevokedEvent

  datatype Entry = Entry(
    credentialType: CredentialType, secret: seq<byte>, status: EntryStatus, rotations: nat, history: seq<EventKind>)

  datatype OpKind = OpAdd | OpRemove | OpRotate | OpRevoke

  /** One record of the tamper-evident log. */
  datatype AuditEntry = AuditEntry(name: Name, kind: OpKind)

  datatype Store = Store(entries: map<Name, Entry>, audit: seq<AuditEntry>)

  const EMPTY_STORE := Store(map[], [])

  datatype Op =
    | Add(name: Name, credentialType: CredentialType, secret: seq<byte>)
    | Remove(name: Name)
    | Rotate(name: Name, secret: seq<byte>)
    | Revoke(name: Name)
  {
    function Kind(): OpKind {
      match this
      case Add(_, _, _) => OpAdd
      case Remove(_) => OpRemove
      case Rotate(_, _) => OpRotate
      case Revoke(_) => OpRevoke
    }

    function Record(): AuditEntry { AuditEntry(name, Kind()) }
  }

  datatype Error =
    | DuplicateEntry | EntryNotFound | EntryRevoked | EntryExpired | EntryNotDeletable
    | FieldTooLarge | EntryCrypto | TamperLog | AuditedMutationFailed

  datatype Outcome = Ok | Err(error: Error)

  /** Which of the three fallible writes of a mutation fail. */
  datatype Faults = Faults(append: bool, insert: bool, persist: bool)

  const NO_FAULTS := Faults(false, false, false)

  /** What a mutation decides after reading: refuse, put an entry, or delete it. */
  datatype Decision = Refuse(error: Error) | Put(entry: Entry) | Delete

  /** `fits` says whether a name and a type can be bound into associated data. */
  function Decide(fits: (Name, CredentialType) -> bool, entries: map<Name, Entry>, op: Op): Decision {
    match op
    case Add(name, ty, secret) =>
      if name in entries then Refuse(DuplicateEntry)
      else if !fits(name, ty) then Refuse(FieldTooLarge)
      else Put(Entry(ty, secret, Active, 0, [Created]))
    case Remove(name) =>
      if name !in entries then Refuse(EntryNotFound)
      else if entries[name].status == Revoked then Refuse(EntryNotDeletable)
      else Delete
    case Rotate(name, secret) =>
      if name !in entries then Refuse(EntryNotFound)
      else if entries[name].status == Revoked then Refuse(EntryRevoked)
      else if !fits(name, entries[name].credentialType) then Refuse(FieldTooLarge)
      else
        var e := entries[name];
        Put(e.(secret := secret, rotations := e.rotations + 1, history := e.history + [Rotated]))
    case Revoke(name) =>
      if name !in entries then Refuse(EntryNotFound)
      else if entries[name].status == Revoked then Refuse(EntryRevoked)
      else
        var e := entries[name];
        Put(e.(status := Revoked, history := e.history + [RevokedEvent]))
  }

  function Written(entries: map<Name, Entry>, name: Name, d: Decision): map<Name, Entry>
    requires !d.Refuse?
  {
    if d.Put? then entries[name := d.entry] else entries - {name}
  }

  /** Audit first, then write, then persist; each may fail. */
  function Committed(st: Store, op: Op, d: Decision, f: Faults): (Outcome, Store)
    requires !d.Refuse?
  {
    if f.append then (Err(TamperLog), st)
    else
      var audited := st.(audit := st.audit + [op.Record()]);
      if f.insert then (Err(AuditedMutationFailed), audited)
      else
        (if f.persist then Err(AuditedMutationFailed) else Ok,
         audited.(entries := Written(st.entries, op.name, d)))
  }

  function Applied(fits: (Name, CredentialType) -> bool, st: Store, op: Op, f: Faults): (Outcome, Store) {
    match Decide(fits, st.entries, op)
    case Refuse(e) => (Err(e), st)
    case d => Committed(st, op, d, f)
  }

  /** Retrieval of a secret. */
  function Retrieved(entries: map<Name, Entry>, name: Name): (Option<seq<byte>>, Outcome) {
    if name !in entries then (None, Err(EntryNotFound))
    else
      match entries[name].status
      case Active => (Some(entries[name].secret), Ok)
      case Revoked => (None, Err(EntryRevoked))
      case ExpiredEntry => (None, Err(EntryExpired))
  }

  // ------------------------------------------------- exactly when a call succeeds

  /** What the vault must hold for a mutation to be carried out. */
  predicate Admissible(fits: (Name, CredentialType) -> bool, entries: map<Name, Entry>, op: Op) {
    match op
    case Add(n, ty, _) => n !in entries && fits(n, ty)
    case Remove(n) => n in entries && entries[n].status != Revoked
    case Rotate(n, _) => n in entries && entries[n].status != Revoked && fits(n, entries[n].credentialType)
    case Revoke(n) => n in entries && entries[n].status != Revoked
  }

  /** What a mutation carried out does to its entry and to no other. */
  ghost predicate CarriedOut(entries: map<Name, Entry>, op: Op, entries': map<Name, Entry>) {
    var n := op.name;
    && entries' - {n} == entries - {n}
    && match op
       case Add(_, ty, secret) => n in entries' && entries'[n] == Entry(ty, secret, Active, 0, [Created])
       case Remove(_) => n !in entries'
       case Rotate(_, secret) =>
         && n in entries && n in entries' && entries'[n].secret == secret
         && entries'[n].rotations == entries[n].rotations + 1 && entries'[n].history == entries[n].history + [Rotated]
         && entries'[n].credentialType == entries[n].credentialType && entries'[n].status == entries[n].status
       case Revoke(_) =>
         && n in entries && n in entries' && entries'[n].status == Revoked
         && entries'[n].history == entries[n].history + [RevokedEvent] && entries'[n].secret == entries[n].secret
         && entries'[n].credentialType == entries[n].credentialType && entries'[n].rotations == entries[n].rotations
  }

  /**
   A mutation succeeds exactly when it is admissible and nothing fails. The log
   grows by its record exactly when it is admissible and the append works, and
   the entries change, as the mutation says, exactly when the insert works too.
   */
  lemma SucceedsIff(fits: (Name, CredentialType) -> bool, st: Store, op: Op, f: Faults)
    ensures var (r, st') := Applied(fits, st, op, f);
            var ok := Admissible(fits, st.entries, op);
            && (r == Ok <==> ok && !f.append && !f.insert && !f.persist)
            && st'.audit == st.audit + (if ok && !f.append then [op.Record()] else [])
            && (if ok && !f.append && !f.insert then CarriedOut(st.entries, op, st'.entries)
                else st'.entries == st.entries)
  {
    var st' := Applied(fits, st, op, f).1;
    assert st'.entries - {op.name} == st.entries - {op.name};
  }

  /** Which error a mutation that is not carried out reports. */
  lemma FailsWith(fits: (Name, CredentialType) -> bool, st: Store, op: Op, f: Faults)
    ensures var r, n := Applied(fits, st, op, f).0, op.name;
            var ok := Admissible(fits, st.entries, op);
            && (r == Err(DuplicateEntry) <==> op.Add? && n in st.entries)
            && (r == Err(EntryNotFound) <==> !op.Add? && n !in st.entries)
            && (r == Err(EntryNotDeletable) <==> op.Remove? && n in st.entries && st.entries[n].status == Revoked)
            && (r == Err(EntryRevoked) <==>
                  (op.Rotate? || op.Revoke?) && n in st.entries && st.entries[n].status == Revoked)
            && (r == Err(TamperLog) <==> ok && f.append)
            && (r == Err(AuditedMutationFailed) <==> ok && !f.append && (f.insert || f.persist))
  {
  }

  /** A secret is returned exactly from a present, active entry; otherwise the error says why not. */
  lemma RetrievedIff(entries: map<Name, Entry>, name: Name)
    ensures var (secret, r) := Retrieved(entries, name);
            && (secret.Some? <==> r == Ok)
            && (r == Ok <==> name in entries && entries[name].status == Active)
            && (r == Ok ==> secret.value == entries[name].secret)
            && (r == Err(EntryNotFound) <==> name !in entries)
            && (r == Err(EntryRevoked) <==> name in entries && entries[name].status == Revoked)
            && (r == Err(EntryExpired) <==> name in entries && entries[name].status == ExpiredEntry)
  {
  }

  // -------------------------------------------------------------- serial runs

  datatype Call = Call(op: Op, faults: Faults)

  function After(fits: (Name, CredentialType) -> bool, calls: seq<Call>): Store {
    if calls == [] then EMPTY_STORE
    else Applied(fits, After(fits, Init(calls)), Last(calls).op, Last(calls).faults).1
  }

  function ResultOf(fits: (Name, CredentialType) -> bool, calls: seq<Call>): Outcome
    requires calls != []
  {
    Applied(fits, After(fits, Init(calls)), Last(calls).op, Last(calls).faults).0
  }

  /** Whether the last call's write reached the keyspace. */
  predicate Wrote(fits: (Name, CredentialType) -> bool, calls: seq<Call>)
    requires calls != []
  {
    var c := Last(calls);
    !Decide(fits, After(fits, Init(calls)).entries, c.op).Refuse? && !c.faults.append && !c.faults.insert
  }

  /** The keyspace writes of a run, in order. */
  function Writes(fits: (Name, CredentialType) -> bool, calls: seq<Call>): seq<AuditEntry> {
    if calls == [] then []
    else if Wrote(fits, calls) then Writes(fits, Init(calls)) + [Last(calls).op.Record()]
    else Writes(fits, Init(calls))
  }

  // ------------------------------------------------------------ entry histories

  function Repeat(n: nat): (s: seq<EventKind>)
    ensures |s| == n && forall i | 0 <= i < n :: s[i] == Rotated
  {
    seq(n, _ => Rotated)
  }

  /** Created, then one event per rotation, then the revocation if there was one. */
  ghost predicate WellTold(e: Entry) {
    && e.status != ExpiredEntry
    && e.history == [Created] + Repeat(e.rotations) + (if e.status == Revoked then [RevokedEvent] else [])
  }

  lemma {:induction false} HistoriesAreWellTold(fits: (Name, CredentialType) -> bool, calls: seq<Call>)
    ensures forall n | n in After(fits, calls).entries :: WellTold(After(fits, calls).entries[n])
    decreases |calls|
  {
    if calls == [] {
    } else {
      HistoriesAreWellTold(fits, Init(calls));
      var st, c := After(fits, Init(calls)), Last(calls);
      var d := Decide(fits, st.entries, c.op);
      if d.Put? {
        WellToldStep(fits, st.entries, c.op);
      }
    }
  }

  lemma WellToldStep(fits: (Name, CredentialType) -> bool, entries: map<Name, Entry>, op: Op)
    requires forall n | n in entries :: WellTold(entries[n])
    requires Decide(fits, entries, op).Put?
    ensures WellTold(Decide(fits, entries, op).entry)
  {
    var e := Decide(fits, entries, op).entry;
    match op {
      case Add(_, _, _) => assert Repeat(0) == [];
      case Rotate(name, _) => assert Repeat(e.rotations) == Repeat(entries[name].rotations) + [Rotated];
      case Revoke(name) =>
      case Remove(_) =>
    }
  }

  // --------------------------------------------------------- latest secret

  /** The secret of the last add or rotation of `name` that reached the keyspace. */
  function LatestSecret(fits: (Name, CredentialType) -> bool, calls: seq<Call>, name: Name): Option<seq<byte>> {
    if calls == [] then None
    else
      var op := Last(calls).op;
      if op.name == name && Wrote(fits, calls) && (op.Add? || op.Rotate?) then Some(op.secret)
      else LatestSecret(fits, Init(calls), name)
  }

  lemma {:induction false} SecretIsTheLatest(fits: (Name, CredentialType) -> bool, calls: seq<Call>, name: Name)
    requires name in After(fits, calls).entries
    ensures Some(After(fits, calls).entries[name].secret) == LatestSecret(fits, calls, name)
    decreases |calls|
  {
    if name in After(fits, Init(calls)).entries {
      SecretIsTheLatest(fits, Init(calls), name);
    }
  }

  /** Retrieval of an active entry gives the latest committed secret. */
  lemma {:induction false} GetReturnsTheLatest(fits: (Name, CredentialType) -> bool, calls: seq<Call>, name: Name)
    ensures var (secret, r) := Retrieved(After(fits, calls).entries, name);
            && (r == Ok <==> secret.Some?)
            && (secret.Some? ==> secret == LatestSecret(fits, calls, name))
  {
    if name in After(fits, calls).entries {
      SecretIsTheLatest(fits, calls, name);
    }
  }

  /** Revocation is final: nothing changes the entry, and every later call on the name fails. */
  lemma {:induction false} RevocationIsFinal(
    fits: (Name, CredentialType) -> bool, before: seq<Call>, later: seq<Call>, name: Name)
    requires name in After(fits, before).entries && After(fits, before).entries[name].status == Revoked
    ensures var st := After(fits, before + later);
            && name in st.entries && st.entries[name] == After(fits, before).entries[name]
            && Retrieved(st.entries, name) == (None, Err(EntryRevoked))
    ensures later != [] && Last(later).op.name == name ==> ResultOf(fits, before + later).Err?
    decreases |later|
  {
    if later == [] {
      assert before + later == before;
    } else {
      RevocationIsFinal(fits, before, Init(later), name);
      assert Init(before + later) == before + Init(later);
    }
  }

  // ------------------------------------------------------- audit and keyspace

  /** No unrecorded change: under any failures, the keyspace writes are a subsequence of the audit log. */
  lemma {:induction false} WritesAreAudited(fits: (Name, CredentialType) -> bool, calls: seq<Call>)
    ensures Subsequence(Writes(fits, calls), After(fits, calls).audit)
    decreases |calls|
  {
    if calls == [] {
    } else {
      WritesAreAudited(fits, Init(calls));
      SubsequenceAppend(Writes(fits, Init(calls)), After(fits, Init(calls)).audit, Last(calls).op.Record());
    }
  }

  /** What the log says of a name: its status and its rotations. */
  datatype Summary = Summary(status: EntryStatus, rotations: nat)

  function Replayed(log: seq<AuditEntry>): map<Name, Summary> {
    if log == [] then map[]
    else
      var m, x := Replayed(Init(log)), Last(log);
      match x.kind
      case OpAdd => m[x.name := Summary(Active, 0)]
      case OpRemove => m - {x.name}
      case OpRotate => if x.name in m then m[x.name := m[x.name].(rotations := m[x.name].rotations + 1)] else m
      case OpRevoke => if x.name in m then m[x.name := m[x.name].(status := Revoked)] else m
  }

  function Summarised(entries: map<Name, Entry>): map<Name, Summary> {
    map n | n in entries :: Summary(entries[n].status, entries[n].rotations)
  }

  /** Replaying the keyspace writes gives exactly the present names, statuses and rotation counts. */
  lemma {:induction false} WritesReplay(fits: (Name, CredentialType) -> bool, calls: seq<Call>)
    ensures Replayed(Writes(fits, calls)) == Summarised(After(fits, calls).entries)
    decreases |calls|
  {
    if calls == [] {
    } else {
      WritesReplay(fits, Init(calls));
      if Wrote(fits, calls) {
        ReplayStep(fits, Writes(fits, Init(calls)), After(fits, Init(calls)).entries, Last(calls).op);
      }
    }
  }

  lemma ReplayStep(fits: (Name, CredentialType) -> bool, log: seq<AuditEntry>, entries: map<Name, Entry>, op: Op)
    requires Replayed(log) == Summarised(entries) && !Decide(fits, entries, op).Refuse?
    ensures Replayed(log + [op.Record()]) == Summarised(Written(entries, op.name, Decide(fits, entries, op)))
  {
    assert Init(log + [op.Record()]) == log;
  }

  /** Every entry of a reachable vault could be bound, so a rotation is never refused for its size. */
  lemma {:induction false} EntriesFit(fits: (Name, CredentialType) -> bool, calls: seq<Call>)
    ensures forall n | n in After(fits, calls).entries :: fits(n, After(fits, calls).entries[n].credentialType)
    decreases |calls|
  {
    if calls == [] {
    } else {
      EntriesFit(fits, Init(calls));
    }
  }

  /** What the log says must hold for a call on a name to be carried out. */
  predicate AllowedBy(fits: (Name, CredentialType) -> bool, m: map<Name, Summary>, op: Op) {
    if op.Add? then op.name !in m && fits(op.name, op.credentialType)
    else op.name in m && m[op.name].status == Active
  }

  /**
   Over every history, a call succeeds exactly when nothing fails and the writes
   made before it, replayed, leave the name free for an add, or present and
   active for a removal, a rotation or a revocation.
   */
  lemma OutcomeFollowsTheWrites(fits: (Name, CredentialType) -> bool, calls: seq<Call>)
    requires calls != []
    ensures var f := Last(calls).faults;
            var allowed := AllowedBy(fits, Replayed(Writes(fits, Init(calls))), Last(calls).op);
            && (ResultOf(fits, calls) == Ok <==> allowed && f == NO_FAULTS)
            && (Wrote(fits, calls) <==> allowed && !f.append && !f.insert)
  {
    hide WellTold;
    var st, c := After(fits, Init(calls)), Last(calls);
    WritesReplay(fits, Init(calls));
    EntriesFit(fits, Init(calls));
    NeverExpired(fits, Init(calls));
    SucceedsIff(fits, st, c.op, c.faults);
    SucceedsIff(fits, st, c.op, NO_FAULTS);
  }

  lemma NeverExpired(fits: (Name, CredentialType) -> bool, calls: seq<Call>)
    ensures forall n | n in After(fits, calls).entries :: After(fits, calls).entries[n].status != ExpiredEntry
  {
    HistoriesAreWellTold(fits, calls);
  }

  /** Over every history, a secret is returned exactly while the writes leave its entry active, and it is the latest. */
  lemma GetFollowsTheWrites(fits: (Name, CredentialType) -> bool, calls: seq<Call>, name: Name)
    ensures var (secret, r) := Retrieved(After(fits, calls).entries, name);
            var m := Replayed(Writes(fits, calls));
            && (r == Ok <==> name in m && m[name].status == Active)
            && (r == Ok ==> secret.Some? && secret == LatestSecret(fits, calls, name))
            && (r == Err(EntryNotFound) <==> name !in m)
            && (r == Err(EntryRevoked) <==> name in m && m[name].status == Revoked)
  {
    WritesReplay(fits, calls);
    NeverExpired(fits, calls);
    GetReturnsTheLatest(fits, calls, name);
  }

  /** A call that was recorded but did not reach the keyspace. */
  predicate RecordedInVain(fits: (Name, CredentialType) -> bool, calls: seq<Call>)
    requires calls != []
  {
    var c := Last(calls);
    !Decide(fits, After(fits, Init(calls)).entries, c.op).Refuse? && !c.faults.append && c.faults.insert
  }

  /** The log equals the writes exactly when no recorded mutation failed to reach the keyspace. */
  lemma {:induction false} AuditIsExactIff(fits: (Name, CredentialType) -> bool, calls: seq<Call>)
    ensures |After(fits, calls).audit| >= |Writes(fits, calls)|
    ensures After(fits, calls).audit == Writes(fits, calls)
            <==> forall i | 0 < i <= |calls| :: !RecordedInVain(fits, calls[..i])
    decreases |calls|
  {
    if calls == [] {
    } else {
      AuditIsExactIff(fits, Init(calls));
      assert forall i | 0 < i <= |calls| - 1 :: Init(calls)[..i] == calls[..i];
      assert calls[..|calls|] == calls;
      var audit0, writes0 := After(fits, Init(calls)).audit, Writes(fits, Init(calls));
      if Wrote(fits, calls) {
        assert Init(audit0 + [Last(calls).op.Record()]) == audit0;
        assert Init(writes0 + [Last(calls).op.Record()]) == writes0;
      }
    }
  }

  /** With no failed audited mutation, replaying the audit log itself gives the vault. */
  lemma AuditReplays(fits: (Name, CredentialType) -> bool, calls: seq<Call>)
    requires forall i | 0 < i <= |calls| :: ResultOf(fits, calls[..i]) != Err(AuditedMutationFailed)
    ensures Replayed(After(fits, calls).audit) == Summarised(After(fits, calls).entries)
  {
    forall i | 0 < i <= |calls| ensures !RecordedInVain(fits, calls[..i]) {
      assert ResultOf(fits, calls[..i]) != Err(AuditedMutationFailed);
    }
    AuditIsExactIff(fits, calls);
    WritesReplay(fits, calls);
  }
}
