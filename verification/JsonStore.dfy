/**
 The metadata store in one JSON file: every operation reloads the file if it
 can, and a save replaces it by writing a temporary file and renaming it.
 */
module JsonStore {
  import opened Domain
  import opened Metadata
  import opened History

  /** The decoded file; a map that is null in the file is missing here. */
  datatype Document = Document(identities: Option<map<string, IdentityMetadata>>, statuses: Option<map<string, StatusRecord>>)

  function Normalized(d: Document): Maps {
    Maps(if d.identities.Some? then d.identities.value else map[], if d.statuses.Some? then d.statuses.value else map[])
  }

  datatype Format = Format(enc: Maps -> string, dec: string -> Option<Document>)

  /** A written file is never empty and decodes to the maps written; module Codecs shows that there is such a format. */
  ghost predicate Sound(f: Format) {
    forall m :: f.enc(m) != "" && f.dec(f.enc(m)) == Some(Document(Some(m.identities), Some(m.statuses)))
  }

  /** The maps after reading a document: its own, a missing one being empty; those of before if it is malformed. */
  predicate ReadAs(d: Option<Document>, before: Maps, ok: bool, after: Maps) {
    match d
    case None => !ok && after == before
    case Some(Document(ids, ss)) =>
      ok && (if ids.Some? then after.identities == ids.value else after.identities == map[])
      && (if ss.Some? then after.statuses == ss.value else after.statuses == map[])
  }

  /** The file behind the path; the rename makes its replacement atomic. */
  class Disk {
    var file: Option<string>

    constructor (file: Option<string>)
      ensures this.file == file
    {
      this.file := file;
    }
  }

  class JSONMetadataStore {
    const disk: Disk
    const format: Format
    var data: Maps
    /** The saves that were reported as done. */
    ghost var saves: seq<Save>

    ghost predicate Valid()
      reads this
    {
      Sound(format)
    }

    /** The file holds exactly the effect of the saves reported as done. */
    ghost predicate Durable()
      reads this, disk
    {
      Valid() && disk.file == Some(format.enc(Replay(saves)))
    }

    constructor (disk: Disk, format: Format, data: Maps, ghost saves: seq<Save>)
      requires Sound(format)
      ensures Valid() && this.disk == disk && this.format == format && this.data == data && this.saves == saves
    {
      this.disk, this.format, this.data, this.saves := disk, format, data, saves;
    }

    /** A file that is missing, unreadable, empty or malformed leaves the data in memory as it is. */
    method LoadLocked(readable: bool) returns (ok: bool)
      requires Valid()
      modifies this`data
      ensures Durable() && readable ==> ok && data == Replay(saves)
      ensures !readable && disk.file.Some? ==> !ok && data == old(data)
      ensures disk.file.None? || (readable && disk.file.value == "") ==> ok && data == old(data)
      ensures disk.file.Some? && readable && disk.file.value != "" ==> ReadAs(format.dec(disk.file.value), old(data), ok, data)
    {
      if disk.file.None? {
        return true;
      }
      if !readable {
        return false;
      }
      if disk.file.value == "" {
        return true;
      }
      var d := format.dec(disk.file.value);
      if d.None? {
        return false;
      }
      data := Normalized(d.value);
      return true;
    }

    method FlushLocked(written: bool) returns (ok: bool)
      modifies disk
      ensures ok == written
      ensures disk.file == if written then Some(format.enc(data)) else old(disk.file)
    {
      if written {
        disk.file := Some(format.enc(data));
      }
      return written;
    }

    /** What the maps in memory are when an operation gets to work: the file's if it can be read, else those left behind. */
    ghost function Loaded(readable: bool): Maps
      reads this
    {
      if readable then Replay(saves) else data
    }

    /** On a durable store with a readable file a save reported as done is the next one of the
        history, and a save reported as failed leaves no trace in the file. Without a readable file the
        save builds on the maps in memory, which may still show a failed save. */
    method SaveIdentity(meta: IdentityMetadata, now: Time, readable: bool, written: bool) returns (ok: bool)
      requires Durable()
      modifies this, disk
      ensures ok == written && saves == if ok then old(saves) + [SavedIdentity(meta, now)] else old(saves)
      ensures data == Saving(old(Loaded(readable)), SavedIdentity(meta, now))
      ensures !ok || old(Loaded(readable)) == Replay(old(saves)) ==> Durable()
      ensures ok ==> disk.file == Some(format.enc(data))
    {
      hide Sound, StampIdentity, ReadAs;
      var _ := LoadLocked(readable);
      data := data.(identities := data.identities[meta.id := StampIdentity(meta, now)]);
      ok := FlushLocked(written);
      ReplayOneMore(saves, SavedIdentity(meta, now));
      if ok {
        saves := saves + [SavedIdentity(meta, now)];
      }
    }

    method SaveStatus(rec: StatusRecord, now: Time, readable: bool, written: bool) returns (ok: bool)
      requires Durable()
      modifies this, disk
      ensures ok == written && saves == if ok then old(saves) + [SavedStatus(rec, now)] else old(saves)
      ensures data == Saving(old(Loaded(readable)), SavedStatus(rec, now))
      ensures !ok || old(Loaded(readable)) == Replay(old(saves)) ==> Durable()
      ensures ok ==> disk.file == Some(format.enc(data))
    {
      hide Sound, StampStatus, ReadAs;
      var _ := LoadLocked(readable);
      data := data.(statuses := data.statuses[rec.txn := StampStatus(rec, now)]);
      ok := FlushLocked(written);
      ReplayOneMore(saves, SavedStatus(rec, now));
      if ok {
        saves := saves + [SavedStatus(rec, now)];
      }
    }

    /** With a readable file a lookup returns the latest save reported as done, and nothing when there is none. */
    method GetIdentity(id: string, readable: bool) returns (r: Option<IdentityMetadata>)
      requires Durable()
      modifies this`data
      ensures Durable() && data == old(Loaded(readable))
      ensures readable ==> r == LatestIdentity(saves, id)
      ensures r == if id in data.identities then Some(data.identities[id]) else None
    {
      ReplayHoldsLatest(saves, id);
      var _ := LoadLocked(readable);
      r := if id in data.identities then Some(data.identities[id]) else None;
    }

    method GetStatus(txn: string, readable: bool) returns (r: Option<StatusRecord>)
      requires Durable()
      modifies this`data
      ensures Durable() && data == old(Loaded(readable))
      ensures readable ==> r == LatestStatus(saves, txn)
      ensures r == if txn in data.statuses then Some(data.statuses[txn]) else None
    {
      ReplayHoldsLatest(saves, txn);
      var _ := LoadLocked(readable);
      r := if txn in data.statuses then Some(data.statuses[txn]) else None;
    }
  }

  /** Opening a path: a fresh one becomes durable with the first flush, and a file left by a
      durable store gives back exactly its maps. */
  method Open(disk: Disk, format: Format, readable: bool, written: bool, ghost saves: seq<Save>)
    returns (s: JSONMetadataStore?, ok: bool)
    requires Sound(format)
    requires disk.file.None? ==> saves == []
    modifies disk
    ensures ok ==> s != null && s.disk == disk && fresh(s) && s.Valid()
    ensures old(disk.file).None? ==> (ok <==> written)
    ensures old(disk.file).None? && ok ==> s.Durable() && s.saves == [] && s.data == EMPTY
    ensures old(disk.file).Some? ==> disk.file == old(disk.file) && (ok ==> readable)
    ensures old(disk.file) == Some("") && readable ==> ok && s != null && s.data == EMPTY
    ensures old(disk.file).Some? && old(disk.file).value != "" && readable ==>
              ReadAs(format.dec(old(disk.file).value), EMPTY, ok, if s != null then s.data else EMPTY)
    ensures old(disk.file) == Some(format.enc(Replay(saves))) && readable ==>
              ok && s.Durable() && s.saves == saves && s.data == Replay(saves)
  {
    if disk.file.None? {
      s := new JSONMetadataStore(disk, format, EMPTY, []);
      ok := s.FlushLocked(written);
      return;
    }
    if !readable {
      return null, false;
    }
    var data := EMPTY;
    if disk.file.value != "" {
      var d := format.dec(disk.file.value);
      if d.None? {
        return null, false;
      }
      data := Normalized(d.value);
    }
    s := new JSONMetadataStore(disk, format, data, saves);
    ok := true;
  }

}
