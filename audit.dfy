/**
 * The hash-chained audit log. Each entry stores the hash of the entry before
 * it (or "GENESIS" for the first) and its own hash, a digest of its fields and
 * that previous hash. verifyChain checks the links between neighbouring
 * entries. SHA-256 is a parameter of the log (`digest`).
 */
module Audit {
  import opened Common

  /** An audit entry: who did what to which entity, and the two hashes that chain it. */
  datatype AuditEntry = AuditEntry(
    userId: string,
    role: string,
    action: string,
    entityType: Option<string>,
    entityId: string,
    prevHash: string,
    hash: string)

  /** The tail hash of an empty log. */
  const Genesis: string := "GENESIS"

  /** Java string concatenation renders a null entity type as "null". */
  function Render(s: Option<string>): string
  {
    if s.Some? then s.value else "null"
  }

  /** The string the entry constructor hashes: its fields in order, then the previous hash. */
  function Preimage(userId: string, role: string, action: string, entityType: Option<string>,
                    entityId: string, prevHash: string): string
  {
    userId + role + action + Render(entityType) + entityId + prevHash
  }

  /** new RestaurantAuditEntry(...): the fields as given, hashed together with prevHash. */
  function NewEntry(digest: string -> string, userId: string, role: string, action: string,
                    entityType: Option<string>, entityId: string, prevHash: string): (e: AuditEntry)
    ensures e.userId == userId && e.role == role && e.action == action
    ensures e.entityType == entityType && e.entityId == entityId
    ensures e.prevHash == prevHash
    ensures e.hash == digest(Preimage(e.userId, e.role, e.action, e.entityType, e.entityId, prevHash))
  {
    AuditEntry(userId, role, action, entityType, entityId, prevHash,
               digest(Preimage(userId, role, action, entityType, entityId, prevHash)))
  }

  /** tailHash of a log: "GENESIS" when empty, otherwise the last entry's hash. */
  function TailOf(log: seq<AuditEntry>): string
  {
    if |log| == 0 then Genesis else log[|log| - 1].hash
  }

  /** After an append, tailHash is the new entry's own hash, whatever came before. */
  lemma TailOfAppend(log: seq<AuditEntry>, e: AuditEntry)
    ensures TailOf(log + [e]) == e.hash
  {
  }

  /** What verifyChain accepts: every entry after the first names its predecessor's hash. */
  predicate Linked(log: seq<AuditEntry>)
  {
    forall i :: 1 <= i < |log| ==> log[i].prevHash == log[i - 1].hash
  }

  /** Empty and one-entry logs always verify. */
  lemma ShortLogsAreLinked(log: seq<AuditEntry>)
    requires |log| <= 1
    ensures Linked(log)
  {
  }

  /** Appending an entry whose prevHash is the tail hash keeps a linked log linked. */
  lemma AppendAtTailKeepsLinked(log: seq<AuditEntry>, e: AuditEntry)
    requires Linked(log) && e.prevHash == TailOf(log)
    ensures Linked(log + [e])
  {
  }

  /** Appending an entry whose prevHash is not the tail hash breaks a non-empty log. */
  lemma AppendOffTailBreaksChain(log: seq<AuditEntry>, e: AuditEntry)
    requires |log| > 0 && e.prevHash != TailOf(log)
    ensures !Linked(log + [e])
  {
    assert (log + [e])[|log|] == e && (log + [e])[|log| - 1] == log[|log| - 1];
  }

  /** Changing the stored hash of any entry but the last is detected. */
  lemma ChangedHashBreaksChain(log: seq<AuditEntry>, i: int, h: string)
    requires Linked(log) && 0 <= i < |log| - 1 && h != log[i].hash
    ensures !Linked(log[i := log[i].(hash := h)])
  {
    var t := log[i := log[i].(hash := h)];
    assert t[i + 1].prevHash == log[i].hash && t[i].hash == h;
  }

  /**
   * verifyChain compares the stored hashes only: replacing an entry by one with
   * other fields but the same two hashes still verifies.
   */
  lemma ContentEditKeepsLinked(log: seq<AuditEntry>, i: int, e: AuditEntry)
    requires Linked(log) && 0 <= i < |log|
    requires e.prevHash == log[i].prevHash && e.hash == log[i].hash
    ensures Linked(log[i := e])
  {
  }

  class AuditLog {
    const digest: string -> string
    var log: seq<AuditEntry>

    constructor (digest: string -> string)
      ensures this.digest == digest && log == []
    {
      this.digest := digest;
      log := [];
    }

    /** append: the entry goes at the end; earlier entries are untouched. */
    method Append(entry: AuditEntry)
      modifies this
      ensures log == old(log) + [entry]
      ensures |log| == |old(log)| + 1 && forall i :: 0 <= i < |old(log)| ==> log[i] == old(log)[i]
    {
      log := log + [entry];
    }

    /** all: the entries in append order, as a copy. */
    function All(): (entries: seq<AuditEntry>)
      reads this
      ensures |entries| == |log| && forall i :: 0 <= i < |log| ==> entries[i] == log[i]
    {
      log
    }

    /** tailHash: "GENESIS" for an empty log, otherwise the hash of the last entry appended. */
    function TailHash(): (h: string)
      reads this
      ensures |log| == 0 ==> h == Genesis
      ensures |log| > 0 ==> h == log[|log| - 1].hash
    {
      TailOf(log)
    }

    /** verifyChain: scan i = 1 .. size-1 and fail at the first broken link. */
    method VerifyChain() returns (ok: bool)
      ensures ok == Linked(log)
    {
      var i := 1;
      while i < |log|
        invariant 1 <= i
        invariant forall j :: 1 <= j < i && j < |log| ==> log[j].prevHash == log[j - 1].hash
      {
        if log[i].prevHash != log[i - 1].hash {
          return false;
        }
        i := i + 1;
      }
      return true;
    }

    /**
     * The pattern every service uses: audits.append(new RestaurantAuditEntry(...,
     * audits.tailHash())). The new entry points at the old tail, so a linked log
     * stays linked.
     */
    method Record(userId: string, role: string, action: string, entityType: Option<string>, entityId: string)
      modifies this
      ensures log == old(log) + [NewEntry(digest, userId, role, action, entityType, entityId, TailOf(old(log)))]
      ensures old(Linked(log)) ==> Linked(log)
    {
      var entry := NewEntry(digest, userId, role, action, entityType, entityId, TailHash());
      if Linked(log) {
        AppendAtTailKeepsLinked(log, entry);
      }
      Append(entry);
    }
  }
}
