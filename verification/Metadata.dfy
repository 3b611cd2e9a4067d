/**
 What a metadata store stands for: two maps, one of identities and one of
 transaction statuses, into which a save puts the record stamped with the clock.
 */
module Metadata {
  import opened Domain

  datatype Maps = Maps(identities: map<string, IdentityMetadata>, statuses: map<string, StatusRecord>)

  const EMPTY := Maps(map[], map[])

  /** A missing creation time becomes the clock; the update time always does. */
  function StampIdentity(meta: IdentityMetadata, now: Time): IdentityMetadata {
    meta.(createdAt := if meta.createdAt == 0 then now else meta.createdAt, updatedAt := now)
  }

  function StampStatus(rec: StatusRecord, now: Time): StatusRecord {
    rec.(createdAt := if rec.createdAt == 0 then now else rec.createdAt, updatedAt := now)
  }

  function SaveIdentity(m: Maps, meta: IdentityMetadata, now: Time): Maps {
    m.(identities := m.identities[meta.id := StampIdentity(meta, now)])
  }

  function SaveStatus(m: Maps, rec: StatusRecord, now: Time): Maps {
    m.(statuses := m.statuses[rec.txn := StampStatus(rec, now)])
  }
}
