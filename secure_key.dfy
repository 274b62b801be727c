/**
 * The registry of one-time admin registration keys (the `SecureKey` collection): each code is
 * unique, starts unused, and is consumed once by `markAsUsed` when an admin account is created
 * with it.
 */
module SecureKeys {
  import opened Wrappers
  import Lists

  type AdminId = string

  /** A point in time, in milliseconds since the epoch (what `new Date()` and `Date.now()` give). */
  type Time = int

  datatype SecureKey = SecureKey(
    key: string,
    isUsed: bool,
    usedBy: Option<AdminId>,
    usedAt: Option<Time>,
    expiresAt: Option<Time>,
    description: string)

  const DefaultDescription := "Admin registration key"
  const InvalidKeyMessage := "Invalid or already used secure key"
  const ExpiredKeyMessage := "Secure key has expired"

  /** A new document as the schema defaults make it: unused, no consumer, no expiry. */
  function NewKey(code: string, description: string): SecureKey {
    SecureKey(code, false, None, None, None, description)
  }

  /** The unique index on `key`: no two documents share a code. */
  predicate UniqueCodes(table: seq<SecureKey>) {
    forall i, j :: 0 <= i < j < |table| ==> table[i].key != table[j].key
  }

  /** `usedBy` and `usedAt` are set exactly on a used key. */
  predicate UsageRecorded(k: SecureKey) {
    k.usedBy.Some? == k.isUsed && k.usedAt.Some? == k.isUsed
  }

  predicate WellFormed(table: seq<SecureKey>) {
    UniqueCodes(table) && forall i :: 0 <= i < |table| ==> UsageRecorded(table[i])
  }

  /** `expiresAt && expiresAt < now`: a key expiring exactly now is still good. */
  predicate Expired(k: SecureKey, now: Time) {
    k.expiresAt.Some? && k.expiresAt.value < now
  }

  predicate IsUnused(k: SecureKey) {
    !k.isUsed
  }

  /** Position of the document `findOne({ key: code, isUsed: false })` returns. */
  function FindUnused(table: seq<SecureKey>, code: string): (r: Option<nat>)
    ensures r.Some? ==> r.value < |table| && table[r.value].key == code && !table[r.value].isUsed
    ensures r.None? ==> forall i :: 0 <= i < |table| && table[i].key == code ==> table[i].isUsed
  {
    if table == [] then None
    else if table[0].key == code && !table[0].isUsed then Some(0)
    else
      match FindUnused(table[1..], code)
      case None => None
      case Some(i) => Some(i + 1)
  }

  /** What `validateKey` answers: the matching unused document, or the reason for refusal. */
  datatype KeyValidation = Valid(index: nat, record: SecureKey) | Invalid(message: string)

  /**
   * `SecureKey.validateKey(code)`, a read-only query. Refused with one and the same message
   * whether the code is unknown or already used; refused as expired only when an unused
   * document carries an expiry strictly before `now`; otherwise it hands back that document.
   */
  function ValidateKey(table: seq<SecureKey>, code: string, now: Time): (r: KeyValidation)
    ensures r.Valid? ==> r.index < |table| && r.record == table[r.index]
    ensures r.Valid? ==> r.record.key == code && !r.record.isUsed && !Expired(r.record, now)
    ensures r.Invalid? ==> r.message == InvalidKeyMessage || r.message == ExpiredKeyMessage
    ensures r == Invalid(InvalidKeyMessage) <==>
      forall i :: 0 <= i < |table| && table[i].key == code ==> table[i].isUsed
    ensures r == Invalid(ExpiredKeyMessage) ==>
      exists i :: 0 <= i < |table| && table[i].key == code && !table[i].isUsed && Expired(table[i], now)
  {
    match FindUnused(table, code)
    case None => Invalid(InvalidKeyMessage)
    case Some(i) =>
      if Expired(table[i], now) then Invalid(ExpiredKeyMessage) else Valid(i, table[i])
  }

  /** With unique codes, a code validates exactly when its document is unused and unexpired. */
  lemma ValidateKeyUnique(table: seq<SecureKey>, code: string, now: Time, i: nat)
    requires UniqueCodes(table) && i < |table| && table[i].key == code
    ensures ValidateKey(table, code, now).Valid? <==> !table[i].isUsed && !Expired(table[i], now)
    ensures ValidateKey(table, code, now) == Invalid(ExpiredKeyMessage) <==>
      !table[i].isUsed && Expired(table[i], now)
    ensures ValidateKey(table, code, now).Valid? ==> ValidateKey(table, code, now).index == i
  {
    var r := ValidateKey(table, code, now);
    if r == Invalid(ExpiredKeyMessage) {
      var j :| 0 <= j < |table| && table[j].key == code && !table[j].isUsed && Expired(table[j], now);
      assert j == i;
    }
  }

  /** `markAsUsed(adminId)`: used, by whom, and when; code, expiry and description untouched. */
  function MarkedAsUsed(k: SecureKey, adminId: AdminId, now: Time): (r: SecureKey)
    ensures r.isUsed && r.usedBy == Some(adminId) && r.usedAt == Some(now)
    ensures r.key == k.key && r.expiresAt == k.expiresAt && r.description == k.description
    ensures UsageRecorded(r)
  {
    k.(isUsed := true, usedBy := Some(adminId), usedAt := Some(now))
  }

  /** `getRemainingKeysCount()`: the unused documents, expired ones included. */
  function RemainingKeysCount(table: seq<SecureKey>): (n: nat)
    ensures n <= |table|
    ensures n == 0 <==> forall i :: 0 <= i < |table| ==> table[i].isUsed
  {
    Lists.Count(table, IsUnused)
  }

  /** Marking an unused key consumes exactly one of the remaining keys. */
  lemma MarkingConsumesOneKey(table: seq<SecureKey>, i: nat, adminId: AdminId, now: Time)
    requires i < |table| && !table[i].isUsed
    ensures RemainingKeysCount(table[i := MarkedAsUsed(table[i], adminId, now)]) == RemainingKeysCount(table) - 1
  {
    Lists.CountUpdate(table, i, MarkedAsUsed(table[i], adminId, now), IsUnused);
  }

  /** Once its document is marked, a code no longer validates, at any later time. */
  lemma MarkedKeyIsRefused(table: seq<SecureKey>, i: nat, adminId: AdminId, now: Time, later: Time)
    requires UniqueCodes(table) && i < |table|
    ensures ValidateKey(table[i := MarkedAsUsed(table[i], adminId, now)], table[i].key, later)
      == Invalid(InvalidKeyMessage)
  {
    var t := table[i := MarkedAsUsed(table[i], adminId, now)];
    assert forall j :: 0 <= j < |t| && j != i ==> t[j] == table[j];
  }

  /** Marking keeps codes unique and usage fields consistent. */
  lemma MarkingPreservesWellFormed(table: seq<SecureKey>, i: nat, adminId: AdminId, now: Time)
    requires WellFormed(table) && i < |table|
    ensures WellFormed(table[i := MarkedAsUsed(table[i], adminId, now)])
  {
  }

  /** An expired, unused key is refused as expired but still counts as remaining. */
  lemma ExpiredKeysStillCount(table: seq<SecureKey>, i: nat, now: Time)
    requires UniqueCodes(table) && i < |table| && !table[i].isUsed && Expired(table[i], now)
    ensures ValidateKey(table, table[i].key, now) == Invalid(ExpiredKeyMessage)
    ensures RemainingKeysCount(table) >= 1
  {
    ValidateKeyUnique(table, table[i].key, now, i);
  }

  /** The `SecureKey` collection: documents in insertion order. */
  class KeyStore {
    var table: seq<SecureKey>

    constructor(initial: seq<SecureKey>)
      ensures table == initial
    {
      table := initial;
    }

    /** `new SecureKey(record).save()`: the unique index refuses a code already present. */
    method Insert(record: SecureKey) returns (ok: bool)
      modifies this
      ensures ok <==> forall i :: 0 <= i < |old(table)| ==> old(table)[i].key != record.key
      ensures table == if ok then old(table) + [record] else old(table)
    {
      ok := true;
      var i := 0;
      while i < |table|
        invariant 0 <= i <= |table|
        invariant ok <==> forall j :: 0 <= j < i ==> table[j].key != record.key
      {
        if table[i].key == record.key {
          ok := false;
        }
        i := i + 1;
      }
      if ok {
        table := table + [record];
      }
    }

    /** `key.markAsUsed(adminId)` on the document at `index`, then `save()`. */
    method MarkAsUsed(index: nat, adminId: AdminId, now: Time)
      requires index < |table|
      modifies this
      ensures table == old(table)[index := MarkedAsUsed(old(table)[index], adminId, now)]
    {
      var k := table[index];
      k := k.(isUsed := true);
      k := k.(usedBy := Some(adminId));
      k := k.(usedAt := Some(now));
      table := table[index := k];
    }
  }
}
