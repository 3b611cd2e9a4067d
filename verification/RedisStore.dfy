/**
 The metadata store on a Redis server, from the stored bytes over the wire
 format up to the two maps of records.
 */
module RedisStore {
  import opened Domain
  import opened Metadata
  import opened History
  import opened Resp
  import Decimal

  /** What may happen to one command: the connection is not made, the exchange breaks off after the server
      has or has not executed it, or it goes through with reads of at most `chunk` bytes. */
  datatype Net = Unreachable | Cut(executed: bool) | Through(chunk: nat)

  /** A key is absent, or the call failed. */
  datatype GetResult = Value(value: string) | NotExist | GetFailed(error: string) | GetPanicked

  const IDENTITY := "identity:"
  const STATUS := "status:"

  function OkLine(): string {
    "+" + "OK" + CRLF
  }

  function ErrorLine(text: string): string {
    "-" + text + CRLF
  }

  lemma LinesRead(text: string, chunk: nat)
    requires '\n' !in text
    ensures Receive(OkLine(), chunk) == (Got(Reply('+', "OK", false)), "")
    ensures Receive(ErrorLine(text), chunk).0.Broken?
  {
    hide Receive;
    SimpleReplyRoundTrip('+', "OK", "", chunk);
    ErrorReply(text, "", chunk);
    assert ['+'] + "OK" + CRLF + "" == OkLine();
    assert "-" + text + CRLF + "" == ErrorLine(text);
  }

  /** The server: what SET, GET and AUTH do to its keys and what it answers. An empty password asks for none. */
  function Execute(db: map<string, string>, password: string, authed: bool, args: seq<string>): (map<string, string>, string) {
    if |args| == 2 && args[0] == "AUTH" then
      (db, if password != "" && args[1] == password then OkLine() else ErrorLine("ERR invalid password"))
    else if password != "" && !authed then (db, ErrorLine("NOAUTH Authentication required."))
    else if |args| == 3 && args[0] == "SET" then (db[args[1] := args[2]], OkLine())
    else if |args| == 2 && args[0] == "GET" then (db, if args[1] in db then Bulk(db[args[1]]) else NIL)
    else (db, ErrorLine("ERR unknown command"))
  }

  class Server {
    var db: map<string, string>
    const password: string

    constructor (password: string)
      ensures db == map[] && this.password == password
    {
      db, this.password := map[], password;
    }

    /** Reads one command off the request bytes and answers it. */
    method Handle(request: string, authed: bool) returns (reply: string)
      modifies this
      ensures var c := DecodeCommand(request);
              if c.None? then db == old(db) else (db, reply) == Execute(old(db), password, authed, c.value.0)
    {
      var c := DecodeCommand(request);
      if c.None? {
        return ErrorLine("ERR protocol error");
      }
      var (db', r) := Execute(db, password, authed, c.value.0);
      db := db';
      reply := r;
    }
  }

  predicate IdentityAt(db: map<string, string>, m: Maps, c: Codec<IdentityMetadata>, id: string) {
    if id in m.identities then IDENTITY + id in db && db[IDENTITY + id] == c.enc(m.identities[id]) else IDENTITY + id !in db
  }

  predicate StatusAt(db: map<string, string>, m: Maps, c: Codec<StatusRecord>, t: string) {
    if t in m.statuses then STATUS + t in db && db[STATUS + t] == c.enc(m.statuses[t]) else STATUS + t !in db
  }

  /** The two maps as the keys of the server: every record under the prefix of its kind. */
  ghost predicate Represents(db: map<string, string>, m: Maps, ci: Codec<IdentityMetadata>, cs: Codec<StatusRecord>) {
    (forall id :: IdentityAt(db, m, ci, id)) && (forall t :: StatusAt(db, m, cs, t))
  }

  lemma KeysDistinct(a: string, b: string)
    ensures IDENTITY + a != STATUS + b
    ensures IDENTITY + a == IDENTITY + b ==> a == b
    ensures STATUS + a == STATUS + b ==> a == b
  {
    assert (IDENTITY + a)[0] == 'i' && (STATUS + b)[0] == 's';
    assert (IDENTITY + a)[|IDENTITY|..] == a && (IDENTITY + b)[|IDENTITY|..] == b;
    assert (STATUS + a)[|STATUS|..] == a && (STATUS + b)[|STATUS|..] == b;
  }

  /** Setting a record's key is saving the record, whatever the ids are. */
  lemma SetIsSave(db: map<string, string>, m: Maps, ci: Codec<IdentityMetadata>, cs: Codec<StatusRecord>, s: Save)
    requires Represents(db, m, ci, cs)
    ensures s.SavedIdentity? ==>
              Represents(db[IDENTITY + s.meta.id := ci.enc(StampIdentity(s.meta, s.now))], Saving(m, s), ci, cs)
    ensures s.SavedStatus? ==>
              Represents(db[STATUS + s.rec.txn := cs.enc(StampStatus(s.rec, s.now))], Saving(m, s), ci, cs)
  {
    var key := if s.SavedIdentity? then IDENTITY + s.meta.id else STATUS + s.rec.txn;
    var value := if s.SavedIdentity? then ci.enc(StampIdentity(s.meta, s.now)) else cs.enc(StampStatus(s.rec, s.now));
    var db', m' := db[key := value], Saving(m, s);
    forall id ensures IdentityAt(db', m', ci, id) {
      assert IdentityAt(db, m, ci, id);
      KeysDistinct(id, if s.SavedIdentity? then s.meta.id else s.rec.txn);
    }
    forall t ensures StatusAt(db', m', cs, t) {
      assert StatusAt(db, m, cs, t);
      KeysDistinct(if s.SavedIdentity? then s.meta.id else s.rec.txn, t);
    }
  }

  class RedisMetadataStore {
    const password: string
    const server: Server
    const identityCodec: Codec<IdentityMetadata>
    const statusCodec: Codec<StatusRecord>
    /** The saves the server has executed. */
    ghost var saves: seq<Save>

    ghost predicate Valid()
      reads this, server
    {
      && password == server.password && Lawful(identityCodec) && Lawful(statusCodec)
      && Represents(server.db, Replay(saves), identityCodec, statusCodec)
    }

    constructor (password: string, server: Server, ci: Codec<IdentityMetadata>, cs: Codec<StatusRecord>)
      requires password == server.password && server.db == map[] && Lawful(ci) && Lawful(cs)
      ensures Valid() && saves == [] && this.server == server
    {
      this.password, this.server, identityCodec, statusCodec := password, server, ci, cs;
      saves := [];
    }

    /** AUTH succeeds exactly with the server's password, and changes no key. Its reply is read to its last byte, so
        that the same reader finds the next reply at its beginning. */
    method Authenticate(reader: Reader) returns (a: Outcome)
      requires password != "" && reader.data == ""
      modifies server, reader
      ensures server.db == old(server.db)
      ensures if password == server.password then a.Got? && reader.data == "" else a.Broken?
    {
      hide Receive, Command, DecodeCommand, OkLine, ErrorLine;
      var auth := WriteResp(["AUTH", password]);
      CommandRoundTrip(["AUTH", password], "");
      assert auth + "" == auth;
      var welcome := server.Handle(auth, false);
      reader.Arrive(welcome);
      assert "" + welcome == welcome;
      a := reader.ReadResp();
      LinesRead("ERR invalid password", reader.chunk);
    }

    /** One command on its own connection, after AUTH when there is a password; one reader serves both replies. An
        exchange that goes through executes exactly this command and reads exactly its reply, if the passwords agree. */
    method SendCommand(args: seq<string>, net: Net) returns (a: Outcome)
      requires |args| > 0 && args[0] != "AUTH"
      modifies server
      ensures server.db == if password == server.password && (net.Through? || (net.Cut? && net.executed))
                           then Execute(old(server.db), password, true, args).0 else old(server.db)
      ensures !net.Through? ==> a.Broken?
      ensures net.Through? && password == server.password ==>
                a == Receive(Execute(old(server.db), password, true, args).1, net.chunk).0
      ensures net.Through? && password != server.password ==> a.Broken?
    {
      hide Receive, Command, DecodeCommand, OkLine, ErrorLine, NIL, Bulk;
      if net.Unreachable? {
        return Broken("dial");
      }
      var reader := new Reader("", if net.Through? then net.chunk else 0);
      if password != "" {
        var authorised := Authenticate(reader);
        if !authorised.Got? {
          return authorised;
        }
      }
      var request := WriteResp(args);
      CommandRoundTrip(args, "");
      assert request + "" == request;
      if net.Cut? && !net.executed {
        return Broken("connection lost");
      }
      var reply := server.Handle(request, password != "");
      if net.Cut? {
        return Broken("connection lost");
      }
      reader.Arrive(reply);
      assert "" + reply == reply;
      a := reader.ReadResp();
      if password == "" && server.password != "" {
        LinesRead("NOAUTH Authentication required.", net.chunk);
      }
    }

    method Set(key: string, value: string, net: Net) returns (ok: bool)
      requires password == server.password
      modifies server
      ensures ok <==> net.Through?
      ensures server.db == if net.Through? || (net.Cut? && net.executed) then old(server.db)[key := value] else old(server.db)
    {
      var a := SendCommand(["SET", key, value], net);
      if net.Through? {
        LinesRead("", net.chunk);
      }
      ok := a.Got?;
    }

    method Get(key: string, net: Net) returns (r: GetResult)
      requires password == server.password && (key in server.db ==> |server.db[key]| <= Decimal.MAX_INT)
      modifies server
      ensures server.db == old(server.db)
      ensures net.Through? && (key in server.db ==> net.chunk >= |server.db[key]| + 2) ==>
                r == if key in server.db then Value(server.db[key]) else NotExist
      ensures !net.Through? ==> r.GetFailed?
    {
      var a := SendCommand(["GET", key], net);
      if net.Through? {
        if key !in server.db {
          NilReply("", net.chunk);
          assert NIL + "" == NIL;
        } else if net.chunk >= |server.db[key]| + 2 {
          BulkReplyRoundTrip(server.db[key], "", net.chunk);
          assert Bulk(server.db[key]) + "" == Bulk(server.db[key]);
        }
      }
      if a.Panicked? {
        return GetPanicked;
      }
      if a.Broken? {
        return GetFailed(a.error);
      }
      r := if a.reply.kind == '$' && a.reply.nilBulk then NotExist else Value(a.reply.value);
    }

    /** A save that goes through is the next one of the history; one that reports an error
        either never happened or was executed all the same. */
    method SaveIdentity(meta: IdentityMetadata, now: Time, net: Net) returns (ok: bool)
      requires Valid()
      modifies this, server
      ensures Valid() && (ok <==> net.Through?)
      ensures saves == if ok || (net.Cut? && net.executed) then old(saves) + [SavedIdentity(meta, now)] else old(saves)
      ensures ok ==> server.db == old(server.db)["identity:" + meta.id := identityCodec.enc(StampIdentity(meta, now))]
    {
      var key, value := IDENTITY + meta.id, identityCodec.enc(StampIdentity(meta, now));
      ok := Set(key, value, net);
      if ok || (net.Cut? && net.executed) {
        SetIsSave(old(server.db), Replay(saves), identityCodec, statusCodec, SavedIdentity(meta, now));
        ReplayOneMore(saves, SavedIdentity(meta, now));
        saves := saves + [SavedIdentity(meta, now)];
      }
    }

    method SaveStatus(rec: StatusRecord, now: Time, net: Net) returns (ok: bool)
      requires Valid()
      modifies this, server
      ensures Valid() && (ok <==> net.Through?)
      ensures saves == if ok || (net.Cut? && net.executed) then old(saves) + [SavedStatus(rec, now)] else old(saves)
      ensures ok ==> server.db == old(server.db)["status:" + rec.txn := statusCodec.enc(StampStatus(rec, now))]
    {
      var key, value := STATUS + rec.txn, statusCodec.enc(StampStatus(rec, now));
      ok := Set(key, value, net);
      if ok || (net.Cut? && net.executed) {
        SetIsSave(old(server.db), Replay(saves), identityCodec, statusCodec, SavedStatus(rec, now));
        ReplayOneMore(saves, SavedStatus(rec, now));
        saves := saves + [SavedStatus(rec, now)];
      }
    }

    /** With a read that fills its buffer, a lookup returns the latest executed save, or not-found when there is none. */
    method GetIdentity(id: string, net: Net) returns (r: GetResult, meta: Option<IdentityMetadata>)
      requires Valid() && forall k | k in server.db :: |server.db[k]| <= Decimal.MAX_INT
      modifies server
      ensures Valid() && saves == old(saves)
      ensures net.Through? && (forall k | k in server.db :: net.chunk >= |server.db[k]| + 2) ==>
                meta == LatestIdentity(saves, id) && (r == NotExist <==> meta == None)
      ensures !net.Through? ==> r.GetFailed? && meta == None
    {
      ReplayHoldsLatest(saves, id);
      assert IdentityAt(server.db, Replay(saves), identityCodec, id);
      r := Get(IDENTITY + id, net);
      meta := if r.Value? then identityCodec.dec(r.value) else None;
    }

    method GetStatus(txn: string, net: Net) returns (r: GetResult, rec: Option<StatusRecord>)
      requires Valid() && forall k | k in server.db :: |server.db[k]| <= Decimal.MAX_INT
      modifies server
      ensures Valid() && saves == old(saves)
      ensures net.Through? && (forall k | k in server.db :: net.chunk >= |server.db[k]| + 2) ==>
                rec == LatestStatus(saves, txn) && (r == NotExist <==> rec == None)
      ensures !net.Through? ==> r.GetFailed? && rec == None
    {
      ReplayHoldsLatest(saves, txn);
      assert StatusAt(server.db, Replay(saves), statusCodec, txn);
      r := Get(STATUS + txn, net);
      rec := if r.Value? then statusCodec.dec(r.value) else None;
    }
  }
}
