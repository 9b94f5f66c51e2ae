/**
 The credential vault over sealed envelopes. The AEAD of RFC 8439 section 2.8 is
 idealised: a ledger holds every seal ever made under the vault key, and opening
 succeeds only for a ciphertext in the ledger under the associated data it was
 sealed with. Ciphertexts are opaque numbers and JSON encoding is left abstract.
 */
module Vault {
  import opened Common
  import opened EntryAad
  import opened VaultSpec

  type Cipher = nat

  datatype Metadata = Metadata(
    name: Name, credentialType: CredentialType, status: EntryStatus, rotations: nat, history: seq<EventKind>)

  datatype Plain = SecretBytes(bytes: seq<byte>) | MetadataRecord(record: Metadata) | KeyCheck | SigningKey

  /**
   What a seal was made for. A legacy secret was sealed for an entry before
   secrets were bound to one, so nothing in the seal says which.
   */
  datatype Purpose =
    | ForEntry(name: Name, credentialType: CredentialType)
    | ForLegacy(name: Name)
    | ForMetadata
    | ForKeyCheck
    | ForSigningKey

  datatype Seal = Seal(aad: seq<byte>, plain: Plain, purpose: Purpose)

  type Ledger = map<Cipher, Seal>

  /** An entry as the keyspace holds it. */
  datatype Envelope = Envelope(version: byte, encryptedSecret: Cipher, encryptedMetadata: Cipher)

  function Opened(ledger: Ledger, c: Cipher, aad: seq<byte>): Option<Plain> {
    if c in ledger && ledger[c].aad == aad then Some(ledger[c].plain) else None
  }

  /** Whether a name and type can be bound. */
  function Fits(salt: seq<byte>): (Name, CredentialType) -> bool {
    (n, t) => BindingOf(salt, n, t, ENTRY_ENVELOPE_VERSION).Some?
  }

  // -------------------------------------------------------- what seals mean

  /** Each seal carries the associated data and the kind of plaintext of its purpose. */
  ghost predicate SealOk(salt: seq<byte>, s: Seal) {
    match s.purpose
    case ForEntry(n, t) =>
      BindingOf(salt, n, t, ENTRY_ENVELOPE_VERSION) == Some(s.aad) && s.plain.SecretBytes?
    case ForLegacy(_) => s.aad == [] && s.plain.SecretBytes?
    case ForMetadata => s.aad == [] && s.plain.MetadataRecord?
    case ForKeyCheck => s.aad == [] && s.plain.KeyCheck?
    case ForSigningKey => s.aad == SIGNING_KEY_AAD && s.plain.SigningKey?
  }

  ghost predicate LedgerOk(salt: seq<byte>, ledger: Ledger) {
    forall c | c in ledger :: SealOk(salt, ledger[c])
  }

  /** Opening under an entry's associated data yields only a secret sealed for that name, type and version. */
  lemma BoundOpeningIsAuthentic(
    salt: seq<byte>, ledger: Ledger, c: Cipher, name: Name, ty: CredentialType, version: byte)
    requires LedgerOk(salt, ledger)
    requires BindingOf(salt, name, ty, version).Some?
    requires Opened(ledger, c, BindingOf(salt, name, ty, version).value).Some?
    ensures ledger[c].purpose == ForEntry(name, ty) && ledger[c].plain.SecretBytes? && version == ENTRY_ENVELOPE_VERSION
  {
    var s := ledger[c];
    assert SealOk(salt, s);
    BindingIsApart(salt, name, ty, version);
    match s.purpose {
      case ForEntry(n, t) =>
        BindingIsInjective(salt, n, t, ENTRY_ENVELOPE_VERSION, salt, name, ty, version);
      case ForLegacy(_) =>
      case ForMetadata =>
      case ForKeyCheck =>
      case ForSigningKey =>
    }
  }

  /** A secret bound to an entry does not open under the legacy, empty associated data. */
  lemma DowngradeFails(salt: seq<byte>, ledger: Ledger, c: Cipher)
    requires LedgerOk(salt, ledger) && c in ledger && ledger[c].purpose.ForEntry?
    ensures Opened(ledger, c, []).None?
  {
    assert SealOk(salt, ledger[c]);
    var p := ledger[c].purpose;
    BindingIsApart(salt, p.name, p.credentialType, ENTRY_ENVELOPE_VERSION);
  }

  /**
   Exactly when an entry of the given name, type and envelope version opens a
   stored secret: a bound secret at its own entry under the current version
   only, a legacy secret at any entry marked as legacy and at no other.
   */
  lemma SecretOpensIff(salt: seq<byte>, ledger: Ledger, c: Cipher, name: Name, ty: CredentialType, version: byte)
    requires LedgerOk(salt, ledger) && c in ledger && (ledger[c].purpose.ForEntry? || ledger[c].purpose.ForLegacy?)
    requires BindingOf(salt, name, ty, version).Some?
    ensures var aad := if version == LEGACY_ENVELOPE_VERSION then [] else BindingOf(salt, name, ty, version).value;
            Opened(ledger, c, aad).Some?
            <==> || (ledger[c].purpose == ForEntry(name, ty) && version == ENTRY_ENVELOPE_VERSION)
                 || (ledger[c].purpose.ForLegacy? && version == LEGACY_ENVELOPE_VERSION)
  {
    assert SealOk(salt, ledger[c]);
    var aad := BindingOf(salt, name, ty, version).value;
    BindingIsApart(salt, name, ty, version);
    if ledger[c].purpose.ForEntry? {
      DowngradeFails(salt, ledger, c);
    }
    if Opened(ledger, c, aad).Some? {
      BoundOpeningIsAuthentic(salt, ledger, c, name, ty, version);
    }
  }

  // ------------------------------------------------- the entries an honest keyspace holds

  ghost predicate EnvelopeOk(ledger: Ledger, n: Name, e: Envelope) {
    && e.encryptedMetadata in ledger && ledger[e.encryptedMetadata].purpose == ForMetadata
    && ledger[e.encryptedMetadata].plain.MetadataRecord?
    && e.encryptedSecret in ledger && ledger[e.encryptedSecret].plain.SecretBytes?
    && var r := ledger[e.encryptedMetadata].plain.record;
    && r.name == n
    && (|| (e.version == ENTRY_ENVELOPE_VERSION && ledger[e.encryptedSecret].purpose == ForEntry(n, r.credentialType))
        || (e.version == LEGACY_ENVELOPE_VERSION && ledger[e.encryptedSecret].purpose == ForLegacy(n)))
  }

  /** The entry's secret is sealed under its own binding. */
  ghost predicate Bound(ledger: Ledger, keyspace: map<Name, Envelope>, n: Name) {
    && n in keyspace && keyspace[n].version == ENTRY_ENVELOPE_VERSION
    && keyspace[n].encryptedSecret in ledger
    && ledger[keyspace[n].encryptedSecret].purpose.ForEntry?
    && ledger[keyspace[n].encryptedSecret].purpose.name == n
  }

  ghost predicate KeyspaceOk(ledger: Ledger, keyspace: map<Name, Envelope>) {
    forall n | n in keyspace :: EnvelopeOk(ledger, n, keyspace[n])
  }

  ghost function EntryOf(ledger: Ledger, n: Name, e: Envelope): Entry
    requires EnvelopeOk(ledger, n, e)
  {
    var r := ledger[e.encryptedMetadata].plain.record;
    Entry(r.credentialType, ledger[e.encryptedSecret].plain.bytes, r.status, r.rotations, r.history)
  }

  ghost function Entries(ledger: Ledger, keyspace: map<Name, Envelope>): map<Name, Entry>
    requires KeyspaceOk(ledger, keyspace)
  {
    map n | n in keyspace :: EntryOf(ledger, n, keyspace[n])
  }

  /** Making further seals changes no entry. */
  lemma MoreSealsKeepEntries(ledger: Ledger, ledger': Ledger, keyspace: map<Name, Envelope>)
    requires KeyspaceOk(ledger, keyspace)
    requires forall c | c in ledger :: c in ledger' && ledger'[c] == ledger[c]
    ensures KeyspaceOk(ledger', keyspace) && Entries(ledger', keyspace) == Entries(ledger, keyspace)
  {
    forall n | n in keyspace
      ensures EnvelopeOk(ledger', n, keyspace[n]) && EntryOf(ledger', n, keyspace[n]) == EntryOf(ledger, n, keyspace[n])
    {
      assert EnvelopeOk(ledger, n, keyspace[n]);
    }
  }

  lemma PutKeeps(ledger: Ledger, keyspace: map<Name, Envelope>, n: Name, e: Envelope)
    requires KeyspaceOk(ledger, keyspace) && EnvelopeOk(ledger, n, e)
    ensures KeyspaceOk(ledger, keyspace[n := e])
    ensures Entries(ledger, keyspace[n := e]) == Entries(ledger, keyspace)[n := EntryOf(ledger, n, e)]
  {
    hide EnvelopeOk;
  }

  lemma DeleteKeeps(ledger: Ledger, keyspace: map<Name, Envelope>, n: Name)
    requires KeyspaceOk(ledger, keyspace)
    ensures KeyspaceOk(ledger, keyspace - {n})
    ensures Entries(ledger, keyspace - {n}) == Entries(ledger, keyspace) - {n}
  {
    hide EnvelopeOk;
    assert Entries(ledger, keyspace - {n}).Keys == (Entries(ledger, keyspace) - {n}).Keys;
  }

  // ----------------------------------------------------------------- the class

  datatype Retrieval = Retrieval(name: Name, credentialType: CredentialType, secret: Plain)

  class CredentialVault {
    const salt: seq<byte>
    var keyspace: map<Name, Envelope>
    var ledger: Ledger
    var audit: seq<AuditEntry>

    ghost predicate Valid()
      reads this
    {
      LedgerOk(salt, ledger) && KeyspaceOk(ledger, keyspace)
    }

    /** The vault in the terms of its state machine. */
    ghost function Current(): Store
      requires Valid()
      reads this
    {
      Store(Entries(ledger, keyspace), audit)
    }

    constructor (salt: seq<byte>)
      ensures Valid() && Current() == EMPTY_STORE && this.salt == salt
    {
      this.salt := salt;
      keyspace, audit := map[], [];
      ledger := map[0 := Seal([], KeyCheck, ForKeyCheck), 1 := Seal(SIGNING_KEY_AAD, SigningKey, ForSigningKey)];
    }

    /** A vault written earlier, possibly with entries from before secrets were bound. */
    constructor Open(salt: seq<byte>, keyspace: map<Name, Envelope>, ledger: Ledger, audit: seq<AuditEntry>)
      requires LedgerOk(salt, ledger) && KeyspaceOk(ledger, keyspace)
      ensures Valid() && this.salt == salt && this.keyspace == keyspace && this.ledger == ledger && this.audit == audit
    {
      this.salt, this.keyspace, this.ledger, this.audit := salt, keyspace, ledger, audit;
    }

    /** Makes a new seal; the ciphertext is one never seen before. */
    method Encrypt(s: Seal) returns (c: Cipher)
      requires SealOk(salt, s)
      modifies this`ledger
      ensures c !in old(ledger) && ledger == old(ledger)[c := s]
      ensures old(LedgerOk(salt, ledger)) ==> LedgerOk(salt, ledger)
      ensures old(Valid()) ==> Valid() && Current() == old(Current())
    {
      c := Unused(ledger.Keys);
      ghost var before := ledger;
      ledger := ledger[c := s];
      if KeyspaceOk(before, keyspace) {
        MoreSealsKeepEntries(before, ledger, keyspace);
      }
    }

    /** Audit, write, persist, in that order; the write is a put of `e` or a deletion. */
    method CommitAudited(op: Op, e: Option<Envelope>, ghost d: Decision, f: Faults) returns (r: Outcome)
      requires Valid()
      requires match e
               case Some(v) => EnvelopeOk(ledger, op.name, v) && d == Put(EntryOf(ledger, op.name, v))
               case None => d == Delete
      modifies this`keyspace, this`audit
      ensures Valid() && (r, Current()) == Committed(old(Current()), op, d, f)
      ensures keyspace == if f.append || f.insert then old(keyspace)
                          else if e.Some? then old(keyspace)[op.name := e.value]
                          else old(keyspace) - {op.name}
    {
      hide EnvelopeOk;
      if f.append {
        return Err(TamperLog);
      }
      audit := audit + [op.Record()];
      if f.insert {
        return Err(AuditedMutationFailed);
      }
      if e.Some? {
        PutKeeps(ledger, keyspace, op.name, e.value);
        keyspace := keyspace[op.name := e.value];
      } else {
        DeleteKeeps(ledger, keyspace, op.name);
        keyspace := keyspace - {op.name};
      }
      if f.persist {
        return Err(AuditedMutationFailed);
      }
      return Ok;
    }

    /** Seals the secret and the metadata of an entry. */
    method SealEntry(m: Metadata, secret: seq<byte>) returns (v: Envelope)
      requires Valid() && Fits(salt)(m.name, m.credentialType)
      modifies this`ledger
      ensures Valid() && Current() == old(Current()) && EnvelopeOk(ledger, m.name, v)
      ensures EntryOf(ledger, m.name, v) == Entry(m.credentialType, secret, m.status, m.rotations, m.history)
      ensures Bound(ledger, map[m.name := v], m.name)
    {
      var aad := BindingOf(salt, m.name, m.credentialType, ENTRY_ENVELOPE_VERSION).value;
      var c := Encrypt(Seal(aad, SecretBytes(secret), ForEntry(m.name, m.credentialType)));
      var k := Encrypt(Seal([], MetadataRecord(m), ForMetadata));
      v := Envelope(ENTRY_ENVELOPE_VERSION, c, k);
    }

    method Add(name: Name, ty: CredentialType, secret: seq<byte>, f: Faults) returns (r: Outcome)
      requires Valid()
      modifies this
      ensures Valid() && (r, Current()) == Applied(Fits(salt), old(Current()), Op.Add(name, ty, secret), f)
      ensures r == Ok ==> Bound(ledger, keyspace, name)
    {
      hide LedgerOk, EnvelopeOk;
      if name in keyspace {
        return Err(DuplicateEntry);
      }
      if BindingOf(salt, name, ty, ENTRY_ENVELOPE_VERSION).None? {
        return Err(FieldTooLarge);
      }
      var v := SealEntry(Metadata(name, ty, Active, 0, [Created]), secret);
      ghost var e := Entry(ty, secret, Active, 0, [Created]);
      r := CommitAudited(Op.Add(name, ty, secret), Some(v), Put(e), f);
    }

    /** Opens the metadata of a stored entry. */
    method DecryptMetadata(v: Envelope) returns (m: Option<Metadata>)
      ensures m == match Opened(ledger, v.encryptedMetadata, [])
                   case Some(MetadataRecord(r)) => Some(r)
                   case _ => None
    {
      var p := Opened(ledger, v.encryptedMetadata, []);
      m := if p.Some? && p.value.MetadataRecord? then Some(p.value.record) else None;
    }

    /** The metadata of an entry of an honest keyspace. */
    method ReadMetadata(name: Name) returns (m: Option<Metadata>)
      requires Valid() && name in keyspace
      ensures var e := Current().entries[name];
              m == Some(Metadata(name, e.credentialType, e.status, e.rotations, e.history))
    {
      assert EnvelopeOk(ledger, name, keyspace[name]);
      assert SealOk(salt, ledger[keyspace[name].encryptedMetadata]);
      m := DecryptMetadata(keyspace[name]);
    }

    method Remove(name: Name, f: Faults) returns (r: Outcome)
      requires Valid()
      modifies this
      ensures Valid() && (r, Current()) == Applied(Fits(salt), old(Current()), Op.Remove(name), f)
    {
      hide LedgerOk, EnvelopeOk;
      if name !in keyspace {
        return Err(EntryNotFound);
      }
      var m := ReadMetadata(name);
      if m.None? {
        return Err(EntryCrypto);
      }
      if m.value.status == Revoked {
        return Err(EntryNotDeletable);
      }
      r := CommitAudited(Op.Remove(name), None, Delete, f);
    }

    /** Rewrites the secret under its binding, whatever envelope the entry had before. */
    method Rotate(name: Name, secret: seq<byte>, f: Faults) returns (r: Outcome)
      requires Valid()
      modifies this
      ensures Valid() && (r, Current()) == Applied(Fits(salt), old(Current()), Op.Rotate(name, secret), f)
      ensures r == Ok ==> Bound(ledger, keyspace, name)
      ensures keyspace - {name} == old(keyspace) - {name}
    {
      hide LedgerOk, EnvelopeOk;
      if name !in keyspace {
        return Err(EntryNotFound);
      }
      var m := ReadMetadata(name);
      if m.None? {
        return Err(EntryCrypto);
      }
      if m.value.status == Revoked {
        return Err(EntryRevoked);
      }
      if BindingOf(salt, name, m.value.credentialType, ENTRY_ENVELOPE_VERSION).None? {
        return Err(FieldTooLarge);
      }
      var rec := m.value.(rotations := m.value.rotations + 1, history := m.value.history + [Rotated]);
      var v := SealEntry(rec, secret);
      ghost var e := Entry(rec.credentialType, secret, rec.status, rec.rotations, rec.history);
      r := CommitAudited(Op.Rotate(name, secret), Some(v), Put(e), f);
    }

    /** Marks the entry revoked; the sealed secret is kept as it is. */
    method Revoke(name: Name, f: Faults) returns (r: Outcome)
      requires Valid()
      modifies this
      ensures Valid() && (r, Current()) == Applied(Fits(salt), old(Current()), Op.Revoke(name), f)
      ensures name in old(keyspace) ==>
                && name in keyspace && keyspace[name].version == old(keyspace)[name].version
                && keyspace[name].encryptedSecret == old(keyspace)[name].encryptedSecret
    {
      hide LedgerOk, EnvelopeOk;
      if name !in keyspace {
        return Err(EntryNotFound);
      }
      var m := ReadMetadata(name);
      if m.None? {
        return Err(EntryCrypto);
      }
      if m.value.status == Revoked {
        return Err(EntryRevoked);
      }
      var rec := m.value.(status := Revoked, history := m.value.history + [RevokedEvent]);
      var v := Reseal(rec);
      ghost var e := Current().entries[name].(status := Revoked, history := rec.history);
      r := CommitAudited(Op.Revoke(name), Some(v), Put(e), f);
    }

    /** New metadata around the sealed secret an entry already has. */
    method Reseal(m: Metadata) returns (v: Envelope)
      requires Valid() && m.name in keyspace && Current().entries[m.name].credentialType == m.credentialType
      modifies this`ledger
      ensures Valid() && Current() == old(Current()) && EnvelopeOk(ledger, m.name, v)
      ensures v == keyspace[m.name].(encryptedMetadata := v.encryptedMetadata)
      ensures EntryOf(ledger, m.name, v)
              == Current().entries[m.name].(status := m.status, rotations := m.rotations, history := m.history)
    {
      assert EnvelopeOk(ledger, m.name, keyspace[m.name]);
      var k := Encrypt(Seal([], MetadataRecord(m), ForMetadata));
      v := keyspace[m.name].(encryptedMetadata := k);
    }

    /**
     Retrieves a secret. Whatever the keyspace holds, a success on a non-legacy
     envelope returns a secret sealed for this very name and the type reported,
     and a success on a legacy envelope never returns a bound secret; on an
     honest keyspace, legacy entries included, the result is that of the state
     machine.
     */
    method Get(name: Name) returns (r: Option<Retrieval>, outcome: Outcome)
      requires LedgerOk(salt, ledger)
      ensures r.Some? <==> outcome == Ok
      ensures r.Some? ==> name in keyspace
      ensures r.Some? && keyspace[name].version != LEGACY_ENVELOPE_VERSION ==>
                && Bound(ledger, keyspace, name)
                && ledger[keyspace[name].encryptedSecret].purpose == ForEntry(name, r.value.credentialType)
                && ledger[keyspace[name].encryptedSecret].plain == r.value.secret && r.value.secret.SecretBytes?
      ensures r.Some? && keyspace[name].version == LEGACY_ENVELOPE_VERSION ==>
                && keyspace[name].encryptedSecret in ledger
                && !ledger[keyspace[name].encryptedSecret].purpose.ForEntry?
                && ledger[keyspace[name].encryptedSecret].plain == r.value.secret
      ensures Valid() ==> (if r.Some? then Some(r.value.secret) else None, outcome)
                          == (match Retrieved(Current().entries, name)
                              case (Some(s), o) => (Some(SecretBytes(s)), o)
                              case (None, o) => (None, o))
    {
      if name !in keyspace {
        return None, Err(EntryNotFound);
      }
      var v := keyspace[name];
      assert Valid() ==> EnvelopeOk(ledger, name, v);
      assert Valid() ==> SealOk(salt, ledger[v.encryptedMetadata]) && SealOk(salt, ledger[v.encryptedSecret]);
      var m := DecryptMetadata(v);
      if m.None? {
        return None, Err(EntryCrypto);
      }
      var rec := m.value;
      if rec.status == Revoked {
        return None, Err(EntryRevoked);
      }
      if rec.status == ExpiredEntry {
        return None, Err(EntryExpired);
      }
      var secret: Option<Plain>;
      if v.version == LEGACY_ENVELOPE_VERSION {
        secret := Opened(ledger, v.encryptedSecret, []);
        if v.encryptedSecret in ledger && ledger[v.encryptedSecret].purpose.ForEntry? {
          DowngradeFails(salt, ledger, v.encryptedSecret);
        }
      } else {
        var aad := BindingOf(salt, name, rec.credentialType, v.version);
        if aad.None? {
          return None, Err(FieldTooLarge);
        }
        secret := Opened(ledger, v.encryptedSecret, aad.value);
        if secret.Some? {
          BoundOpeningIsAuthentic(salt, ledger, v.encryptedSecret, name, rec.credentialType, v.version);
        }
      }
      if secret.None? {
        return None, Err(EntryCrypto);
      }
      return Some(Retrieval(rec.name, rec.credentialType, secret.value)), Ok;
    }

    /** The lifecycle events of an entry. */
    method History(name: Name) returns (events: Option<seq<EventKind>>)
      requires Valid()
      ensures events == if name in Current().entries then Some(Current().entries[name].history) else None
    {
      if name !in keyspace {
        return None;
      }
      var m := ReadMetadata(name);
      events := if m.Some? then Some(m.value.history) else None;
    }
  }
}
