/** Histories of saves: what the maps of a metadata store hold after one. */
module History {
  import opened Domain
  import opened Metadata

  datatype Save = SavedIdentity(meta: IdentityMetadata, now: Time) | SavedStatus(rec: StatusRecord, now: Time)

  function Saving(m: Maps, s: Save): Maps {
    match s
    case SavedIdentity(meta, now) => SaveIdentity(m, meta, now)
    case SavedStatus(rec, now) => SaveStatus(m, rec, now)
  }

  /** The maps after a history of saves. */
  function Replay(saves: seq<Save>): Maps {
    if saves == [] then EMPTY else Saving(Replay(saves[..|saves| - 1]), saves[|saves| - 1])
  }

  /** The latest save of an identity in a history, searched for from its end. */
  function LatestIdentity(saves: seq<Save>, id: string): Option<IdentityMetadata> {
    if saves == [] then None
    else
      var last := saves[|saves| - 1];
      if last.SavedIdentity? && last.meta.id == id then Some(StampIdentity(last.meta, last.now))
      else LatestIdentity(saves[..|saves| - 1], id)
  }

  function LatestStatus(saves: seq<Save>, txn: string): Option<StatusRecord> {
    if saves == [] then None
    else
      var last := saves[|saves| - 1];
      if last.SavedStatus? && last.rec.txn == txn then Some(StampStatus(last.rec, last.now))
      else LatestStatus(saves[..|saves| - 1], txn)
  }

  /** Looking an id up in the maps finds its latest save, and nothing when there is none; identities and statuses do not mix. */
  lemma {:induction false} ReplayHoldsLatest(saves: seq<Save>, key: string)
    ensures (if key in Replay(saves).identities then Some(Replay(saves).identities[key]) else None) == LatestIdentity(saves, key)
    ensures (if key in Replay(saves).statuses then Some(Replay(saves).statuses[key]) else None) == LatestStatus(saves, key)
  {
    if saves != [] {
      ReplayHoldsLatest(saves[..|saves| - 1], key);
    }
  }

  /** A save is read back whole: every field as saved, but for the update time, which is the clock's, and a missing creation
      time, which becomes it. */
  lemma SavedIsReadBack(saves: seq<Save>, m: IdentityMetadata, rec: StatusRecord, now: Time)
    ensures LatestIdentity(saves + [SavedIdentity(m, now)], m.id)
            == Some(IdentityMetadata(m.id, m.did, m.demographicHash, m.nameHash,
                                     if m.createdAt == 0 then now else m.createdAt, now, m.status))
    ensures LatestStatus(saves + [SavedStatus(rec, now)], rec.txn)
            == Some(StatusRecord(rec.txn, rec.typ, rec.status, rec.result, rec.error, rec.callback,
                                 if rec.createdAt == 0 then now else rec.createdAt, now))
  {
  }

  /** Saving again what was read keeps the creation time, if the clock was not at zero. */
  lemma SavingAgainKeepsCreation(saves: seq<Save>, m: IdentityMetadata, first: Time, later: Time)
    requires first != 0
    ensures var read := LatestIdentity(saves + [SavedIdentity(m, first)], m.id).value;
            LatestIdentity(saves + [SavedIdentity(m, first)] + [SavedIdentity(read, later)], m.id)
            == Some(read.(updatedAt := later))
  {
  }

  lemma ReplayOneMore(saves: seq<Save>, s: Save)
    ensures Replay(saves + [s]) == Saving(Replay(saves), s)
  {
    assert (saves + [s])[..|saves|] == saves;
  }

  /** A printer and parser of values, as the JSON library is used here. */
  datatype Codec<!T> = Codec(enc: T -> string, dec: string -> Option<T>)

  /** Parsing gives back what was printed. Module Codecs shows that this can be had for the stored records. */
  ghost predicate Lawful<T(!new)>(c: Codec<T>) {
    forall x :: c.dec(c.enc(x)) == Some(x)
  }
}
