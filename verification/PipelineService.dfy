/**
 The request handler and the worker as imperative code over shared stores. The
 answers of the calls they make are given as data; between any two calls the
 other processes may run. Each method is shown to take only steps of the
 machine of module Pipeline, so the theorems about its runs hold here.
 */
module PipelineService {
  import opened Domain
  import opened Metadata
  import opened Candidates
  import opened Decisions
  import opened Pipeline
  import opened PipelineStores
  import opened PipelineAnswers
  import P = Preimage

  ghost predicate Reachable(cfg: Config, w: World) {
    exists ws, ls :: Run(cfg, ws, ls) && ws[|ls|] == w
  }

  lemma ReachableNext(cfg: Config, w: World, l: Label)
    requires Reachable(cfg, w) && Enabled(cfg, w, l)
    ensures Reachable(cfg, Next(cfg, w, l))
  {
    hide Next, Enabled;
    var ws, ls :| Run(cfg, ws, ls) && ws[|ls|] == w;
    assert Run(cfg, ws + [Next(cfg, w, l)], ls + [l]);
  }

  lemma ReachableInv(cfg: Config, w: World)
    requires Reachable(cfg, w)
    ensures Inv(cfg, w)
  {
    hide Next, Enabled, Inv;
    var ws, ls :| Run(cfg, ws, ls) && ws[|ls|] == w;
    RunKeepsInv(cfg, ws, ls, |ls|);
  }

  lemma CallerIsSound(cfg: Config, w: World, pid: nat)
    requires Reachable(cfg, w) && pid in w.procs && w.procs[pid].Calling?
    ensures AnswerSound(cfg, w, w.procs[pid].task, w.procs[pid].resp)
    ensures var t, resp := w.procs[pid].task, w.procs[pid].resp;
            |t.looked| == |t.face| && resp.decision == DecisionOf(cfg, t)
            && exists c :: Explained(cfg, w.store.identities, t.job, t.live, t.face, t.names, c, resp)
    ensures var id := w.procs[pid].resp.id; id != "" ==> id in w.store.identities && id in w.names && id in w.faces
  {
    hide Reachable;
    ReachableInv(cfg, w);
    assert ProcSound(cfg, w, w.procs[pid]);
    var c := AnswerIsExplained(cfg, w, w.procs[pid].task, w.procs[pid].resp);
    hide Explained, BestOf, TaskSound;
  }

  lemma DescribedIsStored(cfg: Config, w: World, pid: nat)
    requires Reachable(cfg, w) && pid in w.procs && w.procs[pid].Describing?
    ensures |w.procs[pid].task.looked| == |w.procs[pid].task.face|
    ensures BestOf(cfg, w.procs[pid].task).id in w.store.identities
  {
    hide Reachable, BestOf, DecisionOf;
    ReachableInv(cfg, w);
    assert ProcSound(cfg, w, w.procs[pid]);
    BestIsStored(cfg, w, w.procs[pid].task);
  }

  /** The answers a job gets from its calls, in the order of the calls, and the clock readings. */
  datatype Env = Env(unsealed: Answer, started: Answer, embedded: Answer, faces: Answer, names: Answer,
                     looked: nat -> Answer, draw: set<string> -> string, described: Answer,
                     putFace: Answer, putName: Answer, putMeta: Answer, finished: Answer, failed: Answer,
                     called: Answer, now: nat -> Time)

  predicate Simple(ans: Answer) {
    ans.Ack? || ans.Nack?
  }

  /** A call may succeed or fail, with any error, having taken effect or not. */
  lemma BothAnswersAreSimple(error: string, applied: bool)
    ensures Simple(Ack) && Simple(Nack(error, applied))
  {
  }

  ghost predicate Plausible(env: Env) {
    && Simple(env.unsealed) && Simple(env.started) && Simple(env.described) && Simple(env.putFace)
    && Simple(env.putName) && Simple(env.putMeta) && Simple(env.finished) && Simple(env.failed) && Simple(env.called)
    && (env.embedded.Embedded? || env.embedded.Nack?)
    && (env.faces.Hits? || env.faces.Nack?) && (env.names.Hits? || env.names.Nack?)
    && (forall k :: Simple(env.looked(k)))
    && (forall ids :: env.draw(ids) != "" && env.draw(ids) !in ids)
  }

  /** The log, the identity stores, the responses and the history of status writes are only added to, and what was
      delivered stays delivered. */
  ghost predicate Extends(w: World, w': World) {
    w.log <= w'.log && w.writes <= w'.writes && w.delivered <= w'.delivered && Grows(w, w')
  }

  lemma StepExtends(cfg: Config, w: World, l: Label)
    requires Reachable(cfg, w) && Enabled(cfg, w, l)
    ensures Extends(w, Next(cfg, w, l))
  {
    hide P.ValidateInput, Reachable, Inv, Grows, BestOf, MatchResponse, NewResponse, NewIdentity;
    ReachableInv(cfg, w);
    StepGrows(cfg, w, l);
  }

  lemma ExtendsOrder()
    ensures forall a :: Extends(a, a)
    ensures forall a, b, c | Extends(a, b) && Extends(b, c) :: Extends(a, c)
  {
  }

  lemma QueueStays(w: World, w': World, evt: Event)
    requires Extends(w, w')
    ensures evt in w.log ==> evt in w'.log
  {
  }

  /** Whether a write that got this answer took effect. */
  predicate Took(ans: Answer) {
    ans.Ack? || (ans.Nack? && ans.applied)
  }

  /** A FAILED record with the error has been written for the transaction. */
  ghost predicate FailureRecorded(w: World, txn: string, error: string) {
    exists i :: 0 <= i < |w.writes| && w.writes[i].txn == txn && w.writes[i].status == Failed && w.writes[i].error == error
  }

  /** A COMPLETED record with the response has been written for the transaction. */
  ghost predicate AnswerRecorded(w: World, txn: string, resp: Response) {
    exists i :: 0 <= i < |w.writes| && w.writes[i].txn == txn && w.writes[i].status == Completed && w.writes[i].result == Some(resp)
  }

  /** What is stored about an identity stays as it is. */
  lemma IdentityStays(w: World, w': World, id: string)
    requires Extends(w, w')
    ensures (id in w.faces ==> id in w'.faces) && (id in w.names ==> id in w'.names)
    ensures id in w.store.identities ==> id in w'.store.identities && w'.store.identities[id] == w.store.identities[id]
  {
  }

  /** What was delivered stays delivered, and records and responses stay where they are. */
  lemma HistoryStays(w: World, w': World)
    requires Extends(w, w')
    ensures w.delivered <= w'.delivered && w.log <= w'.log && w.done <= w'.done
    ensures forall job, resp :: AnswerIn(w, job, resp) ==> AnswerIn(w', job, resp)
  {
    forall job, resp | AnswerIn(w, job, resp) ensures AnswerIn(w', job, resp) {
      var d :| d in w.done && d.task.job == job && d.resp == resp;
      assert d in w'.done;
    }
  }

  /** Both searches return a known identity with score 1 and the lookup of that face hit is answered; `hash` is that of
      its demographics. */
  ghost predicate SeesPerson(env: Env, ids: map<string, IdentityMetadata>, hash: string, k: nat) {
    && env.faces.Hits? && env.names.Hits? && k < |env.faces.hits| && env.looked(k).Ack?
    && (forall h | h in env.faces.hits || h in env.names.hits :: h.score <= 1.0)
    && var hit := env.faces.hits[k];
      hit.id != "" && hit.score == 1.0 && hit in env.names.hits && hit.id in ids && ids[hit.id].demographicHash == hash
  }

  ghost predicate SeesSomebody(env: Env, ids: map<string, IdentityMetadata>, hash: string) {
    exists k :: SeesPerson(env, ids, hash, k)
  }

  /** The lookups of a task are the answers it got: of what was stored at its beginning nothing is missed. */
  ghost predicate LooksUp(ids: map<string, IdentityMetadata>, face: seq<Hit>, env: Env, looked: seq<Read>) {
    && |looked| <= |face|
    && forall k | 0 <= k < |looked| ::
         && (looked[k].Fault? <==> face[k].id != "" && env.looked(k).Nack?)
         && (face[k].id != "" && env.looked(k).Ack? && face[k].id in ids ==> looked[k] == Found(ids[face[k].id]))
  }

  /** The embedder and both searches have answered. */
  predicate Searched(env: Env) {
    env.embedded.Embedded? && env.faces.Hits? && env.names.Hits?
  }

  /** The error of the first of them that has not. */
  function SearchError(env: Env): string {
    if env.embedded.Nack? then env.embedded.error
    else if env.faces.Nack? then env.faces.error
    else if env.names.Nack? then env.names.error
    else ""
  }

  /** The three writes of a new identity are acknowledged. */
  predicate Kept(env: Env) {
    env.putFace.Ack? && env.putName.Ack? && env.putMeta.Ack?
  }

  /** The error of the first of them that is not. */
  function KeepError(env: Env): string {
    if env.putFace.Nack? then env.putFace.error
    else if env.putName.Nack? then env.putName.error
    else if env.putMeta.Nack? then env.putMeta.error
    else ""
  }

  lemma SeesStays(w: World, w': World, env: Env, hash: string, k: nat)
    requires Extends(w, w') && SeesPerson(env, w.store.identities, hash, k)
    ensures SeesPerson(env, w'.store.identities, hash, k)
  {
    IdentityStays(w, w', env.faces.hits[k].id);
  }

  /** A task that looked people up after `w0` recognises those that were known at `w`. */
  lemma SeenAreRecognised(cfg: Config, t: Task, env: Env, w: World, w0: World)
    requires |t.looked| == |t.face| && env.faces.Hits? && env.names.Hits? && t.face == env.faces.hits && t.names == env.names.hits
    requires Extends(w, w0) && LooksUp(w0.store.identities, t.face, env, t.looked)
    ensures SeesSomebody(env, w.store.identities, DemoHash(cfg, t.job)) && cfg.th.nameMatch <= NAME_SLACK ==>
              && (t.job.typ == Enroll && cfg.th.faceDup <= FACE_SLACK ==> DecisionOf(cfg, t) == AlreadyExists)
              && (t.job.typ != Enroll && t.live.passed && cfg.th.faceMatch <= FACE_SLACK ==> DecisionOf(cfg, t) == Matched)
  {
    hide Extends, SeesPerson, LooksUp, DecisionOf, DemoHash;
    if k :| SeesPerson(env, w.store.identities, DemoHash(cfg, t.job), k) && cfg.th.nameMatch <= NAME_SLACK {
      SeesStays(w, w0, env, DemoHash(cfg, t.job), k);
      SeenIsRecognised(cfg, t, env, w0.store.identities, k);
    }
  }

  /** The response is explained by what the embedder and the searches answered. */
  ghost predicate Accounts(cfg: Config, ids: map<string, IdentityMetadata>, job: Job, env: Env, resp: Response) {
    && env.embedded.Embedded? && env.faces.Hits? && env.names.Hits?
    && exists c :: Explained(cfg, ids, job, env.embedded.live, env.faces.hits, env.names.hits, c, resp)
  }

  /** What the answers of the calls say about a response of MATCHED, and about one of more than NO_MATCH. */
  lemma AccountsForMatch(cfg: Config, ids: map<string, IdentityMetadata>, job: Job, env: Env, resp: Response)
    requires Accounts(cfg, ids, job, env, resp) && job.typ == Verify
    ensures resp.decision in {Matched, PartialMatch, NoMatch}
    ensures resp.decision != NoMatch ==> env.embedded.live.passed
    ensures resp.decision == Matched ==> MatchedBy(cfg, ids, job, env, resp)
  {
    var c :| Explained(cfg, ids, job, env.embedded.live, env.faces.hits, env.names.hits, c, resp);
    MatchedEvidence(cfg, ids, job, env.embedded.live, env.faces.hits, env.names.hits, c, resp);
  }

  /** A stored identity with the demographics of the job, and a face and a name of it at or above the thresholds. */
  ghost predicate MatchedBy(cfg: Config, ids: map<string, IdentityMetadata>, job: Job, env: Env, resp: Response)
    requires env.faces.Hits? && env.names.Hits?
  {
    && resp.id in ids && ids[resp.id].demographicHash == cfg.mac(P.Joined(cfg.unicode, [job.dob, job.gender]))
    && (exists h :: h in env.faces.hits && h.id == resp.id && h.score >= cfg.th.faceMatch)
    && (cfg.th.nameMatch > 0.0 ==> exists h :: h in env.names.hits && h.id == resp.id && h.score >= cfg.th.nameMatch)
  }

  lemma NothingLookedUp(ids: map<string, IdentityMetadata>, t: Task, env: Env)
    requires t.looked == []
    ensures LooksUp(ids, t.face, env, t.looked)
  {
  }

  lemma LookedUpOneMore(ids: map<string, IdentityMetadata>, t: Task, t': Task, env: Env)
    requires LooksUp(ids, t.face, env, t.looked) && t'.face == t.face && |t'.looked| == |t.looked| + 1 <= |t.face|
    requires t'.looked[..|t.looked|] == t.looked
    requires var k, id := |t.looked|, t.face[|t.looked|].id;
             && (t'.looked[k].Fault? <==> id != "" && env.looked(k).Nack?)
             && (id != "" && env.looked(k).Ack? && id in ids ==> t'.looked[k] == Found(ids[id]))
    ensures LooksUp(ids, t'.face, env, t'.looked)
  {
    assert forall k | 0 <= k < |t.looked| :: t'.looked[k] == t.looked[k];
  }

  lemma SeenIsRecognised(cfg: Config, t: Task, env: Env, ids: map<string, IdentityMetadata>, k: nat)
    requires |t.looked| == |t.face| && env.faces.Hits? && env.names.Hits? && t.face == env.faces.hits && t.names == env.names.hits
    requires LooksUp(ids, t.face, env, t.looked) && SeesPerson(env, ids, DemoHash(cfg, t.job), k) && cfg.th.nameMatch <= NAME_SLACK
    ensures t.job.typ == Enroll && cfg.th.faceDup <= FACE_SLACK ==> DecisionOf(cfg, t) == AlreadyExists
    ensures t.job.typ != Enroll && t.live.passed && cfg.th.faceMatch <= FACE_SLACK ==> DecisionOf(cfg, t) == Matched
  {
    hide DemoHash, DecisionOf;
    FoundIsRecognised(cfg, t, k);
  }

  lemma DuplicateIsNotNew(cfg: Config, t: Task)
    requires |t.looked| == |t.face| && t.job.typ == Enroll && IsDuplicate(cfg.th, BestOf(cfg, t))
    ensures DecisionOf(cfg, t) != NewUser
  {
    hide BestOf;
  }

  lemma NewIsNew(cfg: Config, t: Task, id: string)
    requires |t.looked| == |t.face|
    ensures NewResponse(cfg, t, id).decision == NewUser
  {
    hide BestOf;
  }

  lemma LastIsAnswer(w: World, rec: StatusRecord, resp: Response)
    requires w.writes != [] && w.writes[|w.writes| - 1] == rec && rec.status == Completed && rec.result == Some(resp)
    ensures AnswerRecorded(w, rec.txn, resp)
  {
  }

  /** What has been recorded stays in the history. */
  lemma RecordsStay(w: World, w': World, txn: string)
    requires Extends(w, w')
    ensures forall e :: FailureRecorded(w, txn, e) ==> FailureRecorded(w', txn, e)
    ensures forall resp :: AnswerRecorded(w, txn, resp) ==> AnswerRecorded(w', txn, resp)
  {
    forall e | FailureRecorded(w, txn, e) ensures FailureRecorded(w', txn, e) {
      var i :| 0 <= i < |w.writes| && w.writes[i].txn == txn && w.writes[i].status == Failed && w.writes[i].error == e;
      assert w'.writes[i] == w.writes[i];
    }
    forall resp | AnswerRecorded(w, txn, resp) ensures AnswerRecorded(w', txn, resp) {
      var i :| 0 <= i < |w.writes| && w.writes[i].txn == txn && w.writes[i].status == Completed && w.writes[i].result == Some(resp);
      assert w'.writes[i] == w.writes[i];
    }
  }

  ghost predicate AnswerIn(w: World, job: Job, resp: Response) {
    exists d :: d in w.done && d.task.job == job && d.resp == resp
  }

  lemma GivenIn(w: World, t: Task, resp: Response)
    requires Done(t, resp) in w.done
    ensures AnswerIn(w, t.job, resp)
  {
    var d := Done(t, resp);
    assert d.task.job == t.job && d.resp == resp;
  }

  /** What the worker logs of a record: skipped, answered or failed. */
  datatype Handled = Ignored | Answered(resp: Response) | Erred(error: string)

  class Backend {
    const cfg: Config
    var faces: set<string>
    var names: set<string>
    var identities: map<string, IdentityMetadata>
    var statuses: map<string, StatusRecord>
    var log: seq<Event>
    var issued: set<string>
    var served: nat
    /** The state of the machine that the fields above are part of. */
    ghost var w: World

    ghost predicate Valid()
      reads this
    {
      && w.faces == faces && w.names == names && w.store == Maps(identities, statuses)
      && w.log == log && w.ids == issued && |w.done| == served && Reachable(cfg, w)
    }

    ghost predicate At(pid: nat, p: Proc)
      reads this
    {
      pid in w.procs && w.procs[pid] == p
    }

    ghost predicate Moved(pid: nat, q: Option<Proc>)
      reads this
    {
      if q.Some? then At(pid, q.value) else pid !in w.procs
    }

    /** The answer has been given and recorded, names a stored identity with both vectors if any, and is explained. */
    ghost predicate Finished(pid: nat, t: Task, resp: Response, env: Env)
      reads this
    {
      && At(pid, Calling(t, resp)) && Done(t, resp) in w.done
      && (resp.id != "" ==> resp.id in identities && resp.id in names && resp.id in faces)
      && |t.looked| == |t.face| && resp.decision == DecisionOf(cfg, t)
      && (exists c :: Explained(cfg, identities, t.job, t.live, t.face, t.names, c, resp))
      && (Took(env.finished) ==> AnswerRecorded(w, t.job.txn, resp))
    }

    constructor (cfg: Config)
      ensures Valid() && this.cfg == cfg && w == INIT
    {
      this.cfg := cfg;
      faces, names, identities, statuses, log, issued, served := {}, {}, map[], map[], [], {}, 0;
      w := INIT;
      new;
      assert Run(cfg, [INIT], []);
    }

    ghost method Step(l: Label)
      requires Reachable(cfg, w) && Enabled(cfg, w, l)
      modifies this`w
      ensures Reachable(cfg, w) && w == Next(cfg, old(w), l) && Extends(old(w), w)
    {
      ReachableNext(cfg, w, l);
      StepExtends(cfg, w, l);
      w := Next(cfg, w, l);
    }

    /** The other processes run for a while; nothing is known but that they take steps of the machine. */
    method Others(ghost pid: nat, ghost p: Proc)
      requires Valid() && At(pid, p)
      modifies this
      ensures Extends(old(w), w)
      ensures Valid() && At(pid, p)
    {
    }

    /** A write of a status record; whether it took effect is for the answer to say. */
    method SaveStatus(ghost pid: nat, ghost p: Proc, rec: StatusRecord, ans: Answer, now: Time)
      requires Valid() && At(pid, p) && Simple(ans) && Ready(p)
      requires Fits(p, ans) && Move(cfg, w, p, ans, now).1 == PutStatus(rec) && !p.Completing?
      modifies this
      ensures Extends(old(w), w)
      ensures Valid() && Moved(pid, Move(cfg, old(w), p, ans, now).0) && w.done == old(w.done)
      ensures statuses == if Took(ans) then old(statuses)[rec.txn := StampStatus(rec, now)] else old(statuses)
      ensures w.writes == if Took(ans) then old(w.writes) + [StampStatus(rec, now)] else old(w.writes)
    {
      if ans.Ack? || ans.applied {
        statuses := statuses[rec.txn := StampStatus(rec, now)];
      }
      Step(Advance(pid, ans, now));
    }

    /** A call that changes nothing here: the embedder, a search, a lookup, the callback. */
    ghost method Ask(pid: nat, p: Proc, ans: Answer, now: Time)
      requires Valid() && At(pid, p) && Fits(p, ans) && !ans.Chosen? && !p.Completing? && Move(cfg, w, p, ans, now).1 == Silent
      modifies this`w
      ensures Extends(old(w), w)
      ensures Valid() && Moved(pid, Move(cfg, old(w), p, ans, now).0) && w.done == old(w.done)
    {
      Step(Advance(pid, ans, now));
    }

    method UpsertFace(ghost pid: nat, ghost t: Task, id: string, ans: Answer, now: Time)
      requires Valid() && At(pid, PuttingFace(t, id)) && |t.looked| == |t.face| && Simple(ans)
      modifies this
      ensures Extends(old(w), w)
      ensures Valid() && At(pid, if ans.Nack? then Erring(t, ans.error) else PuttingName(t, id))
      ensures faces == if ans.Nack? && !ans.applied then old(faces) else old(faces) + {id}
      ensures names == old(names) && identities == old(identities) && statuses == old(statuses) && log == old(log)
    {
      if ans.Ack? || ans.applied {
        faces := faces + {id};
      }
      Step(Advance(pid, ans, now));
    }

    method UpsertName(ghost pid: nat, ghost t: Task, id: string, ans: Answer, now: Time)
      requires Valid() && At(pid, PuttingName(t, id)) && |t.looked| == |t.face| && Simple(ans)
      modifies this
      ensures Extends(old(w), w)
      ensures Valid() && At(pid, if ans.Nack? then Erring(t, ans.error) else PuttingMeta(t, id))
      ensures names == if ans.Nack? && !ans.applied then old(names) else old(names) + {id}
      ensures faces == old(faces) && identities == old(identities) && statuses == old(statuses) && log == old(log)
    {
      if ans.Ack? || ans.applied {
        names := names + {id};
      }
      Step(Advance(pid, ans, now));
    }

    method SaveNewIdentity(ghost pid: nat, t: Task, id: string, ans: Answer, now: Time)
      requires Valid() && At(pid, PuttingMeta(t, id)) && |t.looked| == |t.face| && Simple(ans)
      modifies this
      ensures Extends(old(w), w)
      ensures Valid() && At(pid, if ans.Nack? then Erring(t, ans.error) else Completing(t, NewResponse(cfg, t, id)))
      ensures identities == if ans.Nack? && !ans.applied then old(identities)
                            else old(identities)[id := StampIdentity(NewIdentity(cfg, t, id, now), now)]
      ensures faces == old(faces) && names == old(names) && statuses == old(statuses) && log == old(log)
    {
      hide P.ValidateInput, Lookups, Best, NewResponse, MatchResponse, Record, DemoHash, StampIdentity, Reachable;
      if ans.Ack? || ans.applied {
        identities := identities[id := StampIdentity(NewIdentity(cfg, t, id, now), now)];
      }
      Step(Advance(pid, ans, now));
    }

    /** One lookup of the candidate loop. */
    method LookUp(ghost pid: nat, t: Task, ans: Answer, now: Time) returns (t': Task)
      requires Valid() && At(pid, Reading(t)) && |t.looked| < |t.face| && Simple(ans)
      modifies this
      ensures Extends(old(w), w)
      ensures Valid() && At(pid, Reading(t'))
      ensures t' == t.(looked := t'.looked, acked := t.acked + [ans.Ack?]) && |t'.looked| == |t.looked| + 1
      ensures t'.looked[..|t.looked|] == t.looked
      ensures var id, read := t.face[|t.looked|].id, t'.looked[|t.looked|];
              && (read.Fault? <==> id != "" && ans.Nack?)
              && (id != "" && ans.Ack? && id in old(identities) ==> read == Found(old(identities)[id]))
    {
      var id, read := t.face[|t.looked|].id, Skipped;
      if id != "" {
        if ans.Nack? {
          read := Fault;
        } else if id in identities {
          read := Found(identities[id]);
        } else {
          read := Absent;
        }
      }
      t' := t.(looked := t.looked + [read], acked := t.acked + [ans.Ack?]);
      Ask(pid, Reading(t), ans, now);
    }

    /** `bestCandidate` with its lookups: afterwards the task is complete. A lookup that is answered misses no
        identity stored at the beginning, and exactly those that fail find nothing. */
    method ReadAndChoose(ghost pid: nat, t0: Task, env: Env) returns (t: Task, best: Candidate)
      requires Valid() && At(pid, Reading(t0)) && t0.looked == [] && Plausible(env)
      modifies this
      ensures Extends(old(w), w)
      ensures Valid() && At(pid, Reading(t)) && t == t0.(looked := t.looked, acked := t.acked)
      ensures |t.looked| == |t.face| && best == BestOf(cfg, t)
      ensures LooksUp(old(identities), t.face, env, t.looked)
    {
      ExtendsOrder();
      hide Extends, LooksUp, Reachable, BestOf, MatchResponse, NewResponse, NewIdentity, DemoHash;
      NothingLookedUp(old(identities), t0, env);
      t := t0;
      while |t.looked| < |t.face|
        invariant Valid() && At(pid, Reading(t)) && Extends(old(w), w)
        invariant t == t0.(looked := t.looked, acked := t.acked) && |t.looked| <= |t.face|
        invariant LooksUp(old(identities), t.face, env, t.looked)
        decreases |t.face| - |t.looked|
      {
        ghost var k := |t.looked|;
        Others(pid, Reading(t));
        if t.face[k].id in old(identities) {
          IdentityStays(old(w), w, t.face[k].id);
        }
        ghost var before := t;
        t := LookUp(pid, t, env.looked(|t.looked|), env.now(5));
        LookedUpOneMore(old(identities), before, t, env);
      }
      best := Choose(t);
    }

    method Choose(t: Task) returns (best: Candidate)
      requires |t.looked| == |t.face|
      ensures best == BestOf(cfg, t)
    {
      best := BestCandidate(Lookups(t), t.names, DemoHash(cfg, t.job));
    }

    /** The decision at the end of the candidate loop: store a new identity, describe the one found, or answer. */
    method Decide(ghost pid: nat, t: Task, best: Candidate, env: Env) returns (id: string)
      requires Valid() && At(pid, Reading(t)) && |t.looked| == |t.face| && best == BestOf(cfg, t) && Plausible(env)
      modifies this
      ensures Extends(old(w), w)
      ensures Valid() && id != ""
      ensures At(pid, if t.job.typ == Enroll && !IsDuplicate(cfg.th, best) then PuttingFace(t, id)
                      else if best.id != "" then Describing(t)
                      else Completing(t, MatchResponse(cfg, t, "")))
    {
      id := env.draw(issued);
      issued := issued + {id};
      Step(Advance(pid, Chosen(id), env.now(6)));
    }

    // ---------- the worker ----------

    method MarkFailed(ghost pid: nat, ghost t: Task, job: Job, error: string, env: Env)
      requires Valid() && At(pid, Erring(t, error)) && t.job == job && Plausible(env)
      modifies this
      ensures Extends(old(w), w)
      ensures Valid() && At(pid, Failing(job.txn, job.typ, error))
      ensures Took(env.failed) ==> FailureRecorded(w, job.txn, error)
    {
      ExtendsOrder();
      hide Extends, Reachable, Grows, BestOf, MatchResponse, NewResponse, NewIdentity;
      Others(pid, Erring(t, error));
      SaveStatus(pid, Erring(t, error), Record(job, Failed, None, error, env.now(11)), env.failed, env.now(11));
      if Took(env.failed) {
        assert w.writes[|w.writes| - 1].error == error;
      }
    }

    method Embed(ghost pid: nat, t0: Task, env: Env) returns (r: Result<Task>)
      requires Valid() && At(pid, Embedding(t0)) && Plausible(env)
      modifies this
      ensures Extends(old(w), w)
      ensures Valid()
      ensures r.Ok? <==> env.embedded.Embedded?
      ensures r.Err? ==> env.embedded.Nack? && r.error == env.embedded.error
      ensures r.Ok? ==> r.value == t0.(live := env.embedded.live) && At(pid, SearchingFace(r.value))
      ensures r.Err? ==> At(pid, Failing(t0.job.txn, t0.job.typ, r.error))
      ensures r.Err? && Took(env.failed) ==> FailureRecorded(w, t0.job.txn, r.error)
    {
      ExtendsOrder();
      hide Extends, Reachable, FailureRecorded, Grows, BestOf, MatchResponse, NewResponse, NewIdentity;
      Others(pid, Embedding(t0));
      Ask(pid, Embedding(t0), env.embedded, env.now(2));
      if env.embedded.Nack? {
        MarkFailed(pid, t0, t0.job, env.embedded.error, env);
        return Err(env.embedded.error);
      }
      r := Ok(t0.(live := env.embedded.live));
    }

    method SearchFace(ghost pid: nat, t0: Task, env: Env) returns (r: Result<Task>)
      requires Valid() && At(pid, SearchingFace(t0)) && Plausible(env)
      modifies this
      ensures Extends(old(w), w)
      ensures Valid()
      ensures r.Ok? <==> env.faces.Hits?
      ensures r.Err? ==> env.faces.Nack? && r.error == env.faces.error
      ensures r.Ok? ==> r.value == t0.(face := env.faces.hits, looked := [], acked := []) && At(pid, SearchingName(r.value))
      ensures r.Err? ==> At(pid, Failing(t0.job.txn, t0.job.typ, r.error))
      ensures r.Err? && Took(env.failed) ==> FailureRecorded(w, t0.job.txn, r.error)
    {
      ExtendsOrder();
      hide Extends, Reachable, FailureRecorded, Grows, BestOf, MatchResponse, NewResponse, NewIdentity;
      Others(pid, SearchingFace(t0));
      Ask(pid, SearchingFace(t0), env.faces, env.now(3));
      if env.faces.Nack? {
        MarkFailed(pid, t0, t0.job, env.faces.error, env);
        return Err(env.faces.error);
      }
      r := Ok(t0.(face := env.faces.hits, looked := [], acked := []));
    }

    method SearchName(ghost pid: nat, t0: Task, env: Env) returns (r: Result<Task>)
      requires Valid() && At(pid, SearchingName(t0)) && Plausible(env)
      modifies this
      ensures Extends(old(w), w)
      ensures Valid()
      ensures r.Ok? <==> env.names.Hits?
      ensures r.Err? ==> env.names.Nack? && r.error == env.names.error
      ensures r.Ok? ==> r.value == t0.(names := env.names.hits) && At(pid, Reading(r.value))
      ensures r.Err? ==> At(pid, Failing(t0.job.txn, t0.job.typ, r.error))
      ensures r.Err? && Took(env.failed) ==> FailureRecorded(w, t0.job.txn, r.error)
    {
      ExtendsOrder();
      hide Extends, Reachable, FailureRecorded, Grows, BestOf, MatchResponse, NewResponse, NewIdentity;
      Others(pid, SearchingName(t0));
      Ask(pid, SearchingName(t0), env.names, env.now(4));
      if env.names.Nack? {
        MarkFailed(pid, t0, t0.job, env.names.error, env);
        return Err(env.names.error);
      }
      r := Ok(t0.(names := env.names.hits));
    }

    method Start(ghost pid: nat, t0: Task, env: Env)
      requires Valid() && At(pid, Starting(t0)) && Plausible(env)
      modifies this
      ensures Extends(old(w), w)
      ensures Valid() && At(pid, Embedding(t0))
    {
      SaveStatus(pid, Starting(t0), Record(t0.job, Processing, None, "", env.now(1)), env.started, env.now(1));
    }

    /** The common beginning of a job: PROCESSING, the embedding and the two searches. */
    method Prepare(ghost pid: nat, t0: Task, env: Env) returns (r: Result<Task>)
      requires Valid() && At(pid, Starting(t0)) && Plausible(env)
      modifies this
      ensures Extends(old(w), w)
      ensures Valid()
      ensures r.Ok? <==> Searched(env)
      ensures r.Err? ==> r.error == SearchError(env)
      ensures r.Ok? ==> r.value == Task(t0.job, t0.since, env.embedded.live, env.faces.hits, env.names.hits, [], [])
                        && At(pid, Reading(r.value))
      ensures r.Err? ==> At(pid, Failing(t0.job.txn, t0.job.typ, r.error))
      ensures r.Err? && Took(env.failed) ==> FailureRecorded(w, t0.job.txn, r.error)
    {
      ExtendsOrder();
      hide Extends, Move, Reachable, FailureRecorded, Grows, Lookups, Plausible, BestOf;
      Start(pid, t0, env);
      r := Embed(pid, t0, env);
      if r.Ok? {
        r := SearchFace(pid, r.value, env);
      }
      if r.Ok? {
        r := SearchName(pid, r.value, env);
      }
    }

    /** The answer about a stored person, with its DID exactly if the lookup succeeds. */
    method Describe(ghost pid: nat, t: Task, best: Candidate, env: Env) returns (resp: Response)
      requires Valid() && At(pid, Describing(t)) && |t.looked| == |t.face| && best == BestOf(cfg, t) && Plausible(env)
      modifies this
      ensures Extends(old(w), w)
      ensures Valid() && At(pid, Completing(t, resp))
      ensures resp.id == best.id && best.id in identities
      ensures resp.did == if env.described.Ack? then identities[best.id].did else ""
    {
      ExtendsOrder();
      hide Extends, Reachable;
      Others(pid, Describing(t));
      DescribedIsStored(cfg, w, pid);
      var did := if env.described.Ack? && best.id in identities then identities[best.id].did else "";
      resp := MatchResponse(cfg, t, did);
      Ask(pid, Describing(t), env.described, env.now(7));
    }

    method Complete(ghost pid: nat, t: Task, resp: Response, env: Env)
      requires Valid() && At(pid, Completing(t, resp)) && Plausible(env)
      modifies this
      ensures Extends(old(w), w)
      ensures Valid() && Finished(pid, t, resp, env)
    {
      ExtendsOrder();
      hide P.ValidateInput, Extends, Inv, AnswerSound, Record, Explained, BestOf, DecisionOf, MatchResponse, NewResponse;
      Others(pid, Completing(t, resp));
      SaveCompleted(pid, t, resp, env.finished, env.now(10));
      CallerIsSound(cfg, w, pid);
    }

    method SaveCompleted(ghost pid: nat, t: Task, resp: Response, ans: Answer, now: Time)
      requires Valid() && At(pid, Completing(t, resp)) && Simple(ans)
      modifies this
      ensures Extends(old(w), w)
      ensures Valid() && At(pid, Calling(t, resp)) && Done(t, resp) in w.done
      ensures Took(ans) ==> AnswerRecorded(w, t.job.txn, resp)
    {
      hide P.ValidateInput, BestOf, NewResponse, MatchResponse, NewIdentity, Reachable, Extends, AnswerRecorded;
      if ans.Ack? || ans.applied {
        var rec := Record(t.job, Completed, Some(resp), "", now);
        statuses := statuses[rec.txn := StampStatus(rec, now)];
      }
      served := served + 1;
      ghost var rec := StampStatus(Record(t.job, Completed, Some(resp), "", now), now);
      Step(Advance(pid, ans, now));
      if Took(ans) {
        assert w.writes[|w.writes| - 1] == rec;
        LastIsAnswer(w, rec, resp);
      }
    }

    /** The three writes of a new identity: face vector, name vector, metadata. It succeeds exactly when all
        three are acknowledged, and then the identity is in all three stores. */
    method Store(ghost pid: nat, t: Task, id: string, env: Env) returns (r: Result<Response>)
      requires Valid() && At(pid, PuttingFace(t, id)) && |t.looked| == |t.face| && Plausible(env)
      modifies this
      ensures Extends(old(w), w)
      ensures Valid()
      ensures r.Ok? <==> Kept(env)
      ensures r.Err? ==> r.error == KeepError(env)
      ensures r.Ok? ==> id in faces && id in names && id in identities
                        && identities[id] == StampIdentity(NewIdentity(cfg, t, id, env.now(9)), env.now(9))
      ensures r.Ok? ==> At(pid, Completing(t, r.value)) && r.value == NewResponse(cfg, t, id)
      ensures r.Err? ==> At(pid, Failing(t.job.txn, t.job.typ, r.error))
      ensures r.Err? && Took(env.failed) ==> FailureRecorded(w, t.job.txn, r.error)
    {
      ExtendsOrder();
      hide Extends, Move, Reachable, FailureRecorded, DemoHash, Best, MatchResponse, Inv, Took;
      ghost var w0 := w;
      Others(pid, PuttingFace(t, id));
      UpsertFace(pid, t, id, env.putFace, env.now(7));
      if env.putFace.Nack? {
        MarkFailed(pid, t, t.job, env.putFace.error, env);
        return Err(env.putFace.error);
      }
      w0 := w;
      Others(pid, PuttingName(t, id));
      IdentityStays(w0, w, id);
      UpsertName(pid, t, id, env.putName, env.now(8));
      if env.putName.Nack? {
        MarkFailed(pid, t, t.job, env.putName.error, env);
        return Err(env.putName.error);
      }
      w0 := w;
      Others(pid, PuttingMeta(t, id));
      IdentityStays(w0, w, id);
      SaveNewIdentity(pid, t, id, env.putMeta, env.now(9));
      if env.putMeta.Nack? {
        MarkFailed(pid, t, t.job, env.putMeta.error, env);
        return Err(env.putMeta.error);
      }
      r := Ok(NewResponse(cfg, t, id));
    }

    /** A duplicate is described, and the answer recorded. */
    method AnswerDuplicate(ghost pid: nat, t: Task, best: Candidate, env: Env) returns (resp: Response)
      requires t.job.typ == Enroll && IsDuplicate(cfg.th, best)
      requires Valid() && At(pid, Describing(t)) && |t.looked| == |t.face| && best == BestOf(cfg, t) && Plausible(env)
      modifies this
      ensures Extends(old(w), w)
      ensures Valid() && Finished(pid, t, resp, env)
      ensures resp.decision != NewUser && resp.id in identities && (env.described.Ack? ==> resp.did == identities[resp.id].did)
    {
      ExtendsOrder();
      hide Extends, Move, Reachable, AnswerSound, Explained, BestOf, DecisionOf, Plausible;
      resp := Describe(pid, t, best, env);
      ghost var w0 := w;
      Complete(pid, t, resp, env);
      IdentityStays(w0, w, best.id);
      DuplicateIsNotNew(cfg, t);
    }

    /** A new identity is stored, and the answer recorded. */
    method AnswerNew(ghost pid: nat, t: Task, id: string, env: Env) returns (r: Result<Response>)
      requires Valid() && At(pid, PuttingFace(t, id)) && |t.looked| == |t.face| && Plausible(env)
      modifies this
      ensures Extends(old(w), w)
      ensures Valid() && (r.Ok? <==> Kept(env))
      ensures r.Ok? ==> Finished(pid, t, r.value, env) && r.value.decision == NewUser
      ensures r.Err? ==> r.error == KeepError(env) && At(pid, Failing(t.job.txn, t.job.typ, r.error))
      ensures r.Err? && Took(env.failed) ==> FailureRecorded(w, t.job.txn, r.error)
    {
      ExtendsOrder();
      hide Extends, Move, Reachable, AnswerSound, Explained, BestOf, DecisionOf, Plausible, FailureRecorded,
        NewIdentity, Kept, KeepError;
      r := Store(pid, t, id, env);
      if r.Ok? {
        NewIsNew(cfg, t, id);
        Complete(pid, t, r.value, env);
      }
    }

    /** An answer is explained by what the embedder, the searches and the store answered, and has been recorded; an
        error has been recorded as FAILED before it is returned. A person both searches see perfectly and whose lookup
        is answered is recognised. */
    method ProcessEnroll(ghost pid: nat, t0: Task, env: Env) returns (r: Result<Response>, ghost t: Task)
      requires Valid() && At(pid, Starting(t0)) && t0.looked == [] && t0.job.typ == Enroll && Plausible(env)
      modifies this
      ensures Extends(old(w), w)
      ensures Valid() && t.job == t0.job
      ensures r.Ok? ==> At(pid, Calling(t, r.value)) && Done(t, r.value) in w.done
      ensures r.Ok? ==> Accounts(cfg, identities, t0.job, env, r.value) && (r.value.decision == NewUser ==> Kept(env))
      ensures Searched(env) && Kept(env) ==> r.Ok?
      ensures r.Err? ==> if Searched(env) then !Kept(env) && r.error == KeepError(env) else r.error == SearchError(env)
      ensures r.Ok? && r.value.id != "" ==> r.value.id in identities && r.value.id in names && r.value.id in faces
      ensures r.Ok? && r.value.decision != NewUser && env.described.Ack? ==> r.value.did == identities[r.value.id].did
      ensures SeesSomebody(env, old(identities), DemoHash(cfg, t0.job)) ==>
                r.Ok? && cfg.th.nameMatch <= NAME_SLACK && cfg.th.faceDup <= FACE_SLACK ==> r.value.decision == AlreadyExists
      ensures r.Ok? && Took(env.finished) ==> AnswerRecorded(w, t0.job.txn, r.value)
      ensures r.Err? ==> At(pid, Failing(t0.job.txn, Enroll, r.error))
      ensures r.Err? && Took(env.failed) ==> FailureRecorded(w, t0.job.txn, r.error)
    {
      ExtendsOrder();
      hide Extends, Move, Reachable, FailureRecorded, AnswerRecorded, AnswerSound, NewIdentity, DemoHash,
        MatchResponse, Explained, SeesSomebody, LooksUp, BestOf, DecisionOf, Kept, KeepError, SearchError, Plausible;
      t := t0;
      var prepared := Prepare(pid, t0, env);
      if prepared.Err? {
        return Err(prepared.error), t0;
      }
      ghost var w0 := w;
      var task, best := ReadAndChoose(pid, prepared.value, env);
      t := task;
      var id := Decide(pid, task, best, env);
      if IsDuplicate(cfg.th, best) {
        var resp := AnswerDuplicate(pid, task, best, env);
        r := Ok(resp);
      } else {
        r := AnswerNew(pid, task, id, env);
      }
      SeenAreRecognised(cfg, task, env, old(w), w0);
    }

    /** The same for a verification; more than NO_MATCH needs a live person, and MATCHED a stored one that agrees in everything. */
    method ProcessVerify(ghost pid: nat, t0: Task, env: Env) returns (r: Result<Response>, ghost t: Task)
      requires Valid() && At(pid, Starting(t0)) && t0.looked == [] && t0.job.typ == Verify && Plausible(env)
      modifies this
      ensures Extends(old(w), w)
      ensures Valid() && t.job == t0.job
      ensures r.Ok? ==> At(pid, Calling(t, r.value)) && Done(t, r.value) in w.done
      ensures r.Ok? ==> Accounts(cfg, identities, t0.job, env, r.value)
      ensures r.Ok? <==> Searched(env)
      ensures r.Err? ==> r.error == SearchError(env)
      ensures r.Ok? ==> r.value.decision in {Matched, PartialMatch, NoMatch}
      ensures r.Ok? && r.value.decision != NoMatch ==> env.embedded.live.passed
      ensures r.Ok? && r.value.decision == Matched ==> MatchedBy(cfg, identities, t0.job, env, r.value)
      ensures r.Ok? && r.value.id != "" ==> r.value.id in identities && r.value.id in names && r.value.id in faces
      ensures r.Ok? && r.value.id != "" && env.described.Ack? ==> r.value.did == identities[r.value.id].did
      ensures SeesSomebody(env, old(identities), DemoHash(cfg, t0.job)) ==>
                r.Ok? && cfg.th.nameMatch <= NAME_SLACK && cfg.th.faceMatch <= FACE_SLACK && env.embedded.live.passed ==>
                  r.value.decision == Matched
      ensures r.Ok? && Took(env.finished) ==> AnswerRecorded(w, t0.job.txn, r.value)
      ensures r.Err? ==> At(pid, Failing(t0.job.txn, Verify, r.error))
      ensures r.Err? && Took(env.failed) ==> FailureRecorded(w, t0.job.txn, r.error)
    {
      ExtendsOrder();
      hide Extends, Move, Reachable, FailureRecorded, AnswerRecorded, AnswerSound, NewIdentity, DemoHash,
        Explained, SeesSomebody, LooksUp, BestOf, DecisionOf, MatchedBy, SearchError, Plausible;
      t := t0;
      var prepared := Prepare(pid, t0, env);
      if prepared.Err? {
        return Err(prepared.error), t0;
      }
      ghost var w0 := w;
      var task, best := ReadAndChoose(pid, prepared.value, env);
      t := task;
      var _ := Decide(pid, task, best, env);
      var resp := MatchResponse(cfg, task, "");
      if best.id != "" {
        resp := Describe(pid, task, best, env);
      }
      ghost var w1 := w;
      Complete(pid, task, resp, env);
      IdentityStays(w1, w, best.id);
      r := Ok(resp);
      AccountsForMatch(cfg, identities, t0.job, env, resp);
      SeenAreRecognised(cfg, task, env, old(w), w0);
    }

    /** The envelope is opened; what cannot be opened or is of no known type is failed. */
    method Open(ghost pid: nat, evt: Event, env: Env) returns (r: Result<Task>)
      requires Valid() && At(pid, Opening(evt)) && Plausible(env)
      modifies this
      ensures Extends(old(w), w)
      ensures Valid()
      ensures r.Ok? ==> r.value.job == evt.job && !evt.job.typ.Other? && r.value.looked == [] && At(pid, Starting(r.value))
      ensures r.Err? ==> pid !in w.procs
      ensures r.Err? && Took(env.failed) ==> FailureRecorded(w, evt.txn, r.error)
      ensures r.Err? <==> env.unsealed.Nack? || evt.job.typ.Other?
    {
      ExtendsOrder();
      hide Extends, Reachable, Grows, BestOf, MatchResponse, NewResponse, NewIdentity, FailureRecorded;
      var t0 := Task(evt.job, served, Liveness(false, 0.0), [], [], [], []);
      Ask(pid, Opening(evt), env.unsealed, env.now(0));
      if env.unsealed.Nack? {
        Fail(pid, evt.txn, evt.topic, env.unsealed.error, env);
        return Err(env.unsealed.error);
      }
      if evt.job.typ.Other? {
        var typ := if evt.job.typ.name == "" then evt.topic else evt.job.typ;
        Fail(pid, evt.txn, typ, "unknown job type", env);
        return Err("unknown job type");
      }
      r := Ok(t0);
    }

    /** The callback ends the job; its failure changes no status. */
    method PostCallback(ghost pid: nat, ghost t: Task, resp: Response, env: Env)
      requires Valid() && At(pid, Calling(t, resp)) && Plausible(env)
      modifies this`w
      ensures Extends(old(w), w)
      ensures Valid() && pid !in w.procs && w.done == old(w.done)
    {
      Ask(pid, Calling(t, resp), env.called, env.now(12));
    }

    /** The job itself, by its type. */
    method Work(ghost pid: nat, t0: Task, env: Env) returns (r: Result<Response>, ghost t: Task)
      requires Valid() && At(pid, Starting(t0)) && t0.looked == [] && !t0.job.typ.Other? && Plausible(env)
      modifies this
      ensures Extends(old(w), w)
      ensures Valid() && t.job == t0.job
      ensures r.Ok? ==> At(pid, Calling(t, r.value)) && Done(t, r.value) in w.done
      ensures r.Ok? && Took(env.finished) ==> AnswerRecorded(w, t0.job.txn, r.value)
      ensures r.Err? ==> At(pid, Failing(t0.job.txn, t0.job.typ, r.error))
      ensures r.Err? && Took(env.failed) ==> FailureRecorded(w, t0.job.txn, r.error)
    {
      ExtendsOrder();
      hide Extends, Reachable, AnswerSound, Inv, Move, Plausible, FailureRecorded, AnswerRecorded;
      Others(pid, Starting(t0));
      if t0.job.typ == Enroll {
        r, t := ProcessEnroll(pid, t0, env);
      } else {
        r, t := ProcessVerify(pid, t0, env);
      }
    }

    /** One event of a command topic, from the opening of its envelope to the callback. A job that cannot be opened is
        failed under the transaction of the event, any other under its own. */
    method ProcessEvent(ghost pid: nat, evt: Event, env: Env) returns (r: Result<Response>)
      requires Valid() && At(pid, Opening(evt)) && Plausible(env)
      modifies this
      ensures Extends(old(w), w)
      ensures Valid() && pid !in w.procs
      ensures r.Ok? ==> AnswerIn(w, evt.job, r.value)
      ensures r.Ok? && Took(env.finished) ==> AnswerRecorded(w, evt.job.txn, r.value)
      ensures r.Err? && Took(env.failed) ==>
                FailureRecorded(w, if env.unsealed.Nack? || evt.job.typ.Other? then evt.txn else evt.job.txn, r.error)
      ensures env.unsealed.Nack? || evt.job.typ.Other? ==> r.Err?
    {
      ExtendsOrder();
      hide Extends, Reachable, AnswerSound, Inv, Move, Plausible, FailureRecorded, AnswerRecorded, AnswerIn;
      var opening := Open(pid, evt, env);
      if opening.Err? {
        return Err(opening.error);
      }
      ghost var t;
      r, t := Work(pid, opening.value, env);
      if r.Err? {
        Fail(pid, evt.job.txn, evt.job.typ, r.error, env);
      } else {
        GivenIn(w, t, r.value);
        ghost var w0 := w;
        Others(pid, Calling(t, r.value));
        PostCallback(pid, t, r.value, env);
        HistoryStays(w0, w);
        RecordsStay(w0, w, evt.job.txn);
      }
    }

    method Receive(ghost pid: nat, offset: nat) returns (evt: Event)
      requires Valid() && pid !in w.procs && offset < |log|
      modifies this`w
      ensures Extends(old(w), w)
      ensures Valid() && evt == log[offset] && offset in w.delivered
      ensures evt.kind != JOB_SUBMITTED ==> w == old(w).(delivered := old(w).delivered + {offset})
      ensures Moved(pid, if evt.kind == JOB_SUBMITTED then Some(Opening(evt)) else None)
    {
      evt := log[offset];
      Step(Deliver(pid, offset));
    }

    /** The records of one poll, in order: exactly those of another type are skipped, and skipping changes
        nothing but that they are delivered. An answer is one to the job of its record. */
    method ConsumeBatch(ghost pid: nat, offsets: seq<nat>, env: nat -> Env) returns (handled: seq<Handled>)
      requires Valid() && pid !in w.procs && forall k :: Plausible(env(k))
      requires forall k | 0 <= k < |offsets| :: offsets[k] < |log|
      modifies this
      ensures Extends(old(w), w)
      ensures Valid() && pid !in w.procs
      ensures forall k | 0 <= k < |offsets| :: offsets[k] in w.delivered
      ensures |handled| == |offsets|
      ensures forall k | 0 <= k < |offsets| :: handled[k].Ignored? <==> old(log)[offsets[k]].kind != JOB_SUBMITTED
      ensures forall k | 0 <= k < |offsets| && handled[k].Answered? :: AnswerIn(w, old(log)[offsets[k]].job, handled[k].resp)
      ensures (forall k | 0 <= k < |offsets| :: handled[k].Ignored?) ==> w == old(w).(delivered := w.delivered)
    {
      ExtendsOrder();
      hide Extends, Reachable, Plausible, AnswerIn;
      handled := [];
      for i := 0 to |offsets|
        invariant Valid() && pid !in w.procs && Extends(old(w), w) && |handled| == i
        invariant forall k | 0 <= k < i :: offsets[k] in w.delivered
        invariant forall k | 0 <= k < i :: handled[k].Ignored? <==> old(log)[offsets[k]].kind != JOB_SUBMITTED
        invariant forall k | 0 <= k < i && handled[k].Answered? :: AnswerIn(w, old(log)[offsets[k]].job, handled[k].resp)
        invariant (forall k | 0 <= k < i :: handled[k].Ignored?) ==> w == old(w).(delivered := w.delivered)
      {
        HistoryStays(old(w), w);
        ghost var w0 := w;
        var h := Handle(pid, offsets[i], env(i));
        HistoryStays(w0, w);
        handled := handled + [h];
      }
    }

    /** One record of a poll. */
    method Handle(ghost pid: nat, offset: nat, env: Env) returns (h: Handled)
      requires Valid() && pid !in w.procs && Plausible(env) && offset < |log|
      modifies this
      ensures Extends(old(w), w)
      ensures Valid() && pid !in w.procs && offset in w.delivered
      ensures h.Ignored? <==> old(log)[offset].kind != JOB_SUBMITTED
      ensures h.Ignored? ==> w == old(w).(delivered := old(w).delivered + {offset})
      ensures h.Answered? ==> AnswerIn(w, old(log)[offset].job, h.resp)
      ensures h.Erred? && Took(env.failed) ==>
                exists txn :: txn in {old(log)[offset].txn, old(log)[offset].job.txn} && FailureRecorded(w, txn, h.error)
    {
      ExtendsOrder();
      hide Extends, Reachable, Plausible, FailureRecorded, AnswerRecorded, AnswerIn;
      var evt := Receive(pid, offset);
      if evt.kind != JOB_SUBMITTED {
        return Ignored;
      }
      ghost var w0 := w;
      var r := ProcessEvent(pid, evt, env);
      HistoryStays(w0, w);
      h := if r.Ok? then Answered(r.value) else Erred(r.error);
    }

    // ---------- the request handler ----------

    /** A validated request is recorded as ACCEPTED before its event is queued; a publish that
        reports failure is recorded as FAILED and returned as an error. `kept` of the posts that were repeated have
        queued the event all the same. */
    method Submit(ghost pid: nat, job: Job, saved: Answer, kept: nat, published: Answer, refused: Answer, now: Time)
      returns (r: Result<string>)
      requires Valid() && pid !in w.procs && job.txn !in w.jobs && !job.typ.Other?
      requires Simple(saved) && Simple(published) && Simple(refused)
      modifies this
      ensures Extends(old(w), w)
      ensures Valid() && pid !in w.procs
      ensures r.Ok? ==> r.value == job.txn && Event(job.typ, job.txn, JOB_SUBMITTED, job) in log
      ensures r.Ok? <==> Acceptable(job) && saved.Ack? && published.Ack?
      ensures !Acceptable(job) ==> w == old(w)
      ensures Acceptable(job) && saved.Ack? && published.Nack? && Took(refused) ==> FailureRecorded(w, job.txn, published.error)
    {
      if !Acceptable(job) {
        return Err("invalid input");
      }
      Accept(pid, job, saved, now);
      ExtendsOrder();
      hide P.ValidateInput, Reachable, Grows, Took, BestOf, Extends, FailureRecorded;
      if saved.Nack? {
        return Err(saved.error);
      }
      Others(pid, Publishing(job));
      Publish(pid, job, kept, published, now);
      if published.Nack? {
        Refuse(pid, job, published.error, refused, now);
        return Err("submit job to kafka failed");
      }
      r := Ok(job.txn);
    }

    predicate Acceptable(job: Job) {
      P.ValidateInput(cfg.unicode, P.Input(job.image, job.name, job.dob, job.gender)) == P.Valid
    }

    method Refuse(ghost pid: nat, job: Job, error: string, ans: Answer, now: Time)
      requires Valid() && At(pid, Refusing(job, error)) && Simple(ans)
      modifies this
      ensures Extends(old(w), w)
      ensures Valid() && pid !in w.procs
      ensures Took(ans) ==> FailureRecorded(w, job.txn, error)
    {
      ExtendsOrder();
      hide P.ValidateInput, Reachable, Grows, BestOf, Extends;
      Others(pid, Refusing(job, error));
      SaveStatus(pid, Refusing(job, error), Record(job, Failed, None, error, now), ans, now);
      if Took(ans) {
        assert w.writes[|w.writes| - 1].error == error;
      }
    }

    method Accept(ghost pid: nat, job: Job, saved: Answer, now: Time)
      requires Valid() && Enabled(cfg, w, Pipeline.Submit(pid, job)) && Simple(saved)
      modifies this
      ensures Extends(old(w), w)
      ensures Valid() && Moved(pid, if saved.Ack? then Some(Publishing(job)) else None)
    {
      ExtendsOrder();
      hide P.ValidateInput, Reachable, Move, Grows, BestOf, MatchResponse, NewResponse, NewIdentity;
      Step(Pipeline.Submit(pid, job));
      RecordAccepted(pid, job, saved, now);
    }

    method RecordAccepted(ghost pid: nat, job: Job, saved: Answer, now: Time)
      requires Valid() && At(pid, Accepting(job)) && Simple(saved)
      modifies this
      ensures Extends(old(w), w)
      ensures Valid() && Moved(pid, if saved.Ack? then Some(Publishing(job)) else None)
    {
      ExtendsOrder();
      hide P.ValidateInput, Reachable, Grows, Next, Enabled, Extends;
      Others(pid, Accepting(job));
      SaveStatus(pid, Accepting(job), Record(job, Accepted, None, "", now), saved, now);
    }

    /** The posts of one publish: each one that took effect queues the event once more, the last one has the answer. */
    method Publish(ghost pid: nat, job: Job, kept: nat, ans: Answer, now: Time)
      requires Valid() && At(pid, Publishing(job)) && Simple(ans)
      modifies this
      ensures Extends(old(w), w)
      ensures Valid() && Moved(pid, if ans.Ack? then None else Some(Refusing(job, ans.error)))
      ensures Took(ans) || kept > 0 ==> Event(job.typ, job.txn, JOB_SUBMITTED, job) in log
    {
      ExtendsOrder();
      hide Move, Reachable, Grows, Extends;
      ghost var evt := Event(job.typ, job.txn, JOB_SUBMITTED, job);
      for i := 0 to kept
        invariant Valid() && At(pid, Publishing(job)) && Extends(old(w), w)
        invariant i > 0 ==> evt in log
      {
        Post(pid, job, Again, now);
        ghost var w0 := w;
        Others(pid, Publishing(job));
        QueueStays(w0, w, evt);
      }
      ghost var w0 := w;
      Post(pid, job, ans, now);
      QueueStays(w0, w, evt);
    }

    method Post(ghost pid: nat, job: Job, ans: Answer, now: Time)
      requires Valid() && At(pid, Publishing(job)) && Fits(Publishing(job), ans)
      modifies this
      ensures Extends(old(w), w)
      ensures Valid() && Moved(pid, if ans.Ack? then None else if ans.Again? then Some(Publishing(job))
                                 else Some(Refusing(job, ans.error)))
      ensures log == old(log) + if Took(ans) || ans.Again? then [Event(job.typ, job.txn, JOB_SUBMITTED, job)] else []
    {
      if ans.Ack? || ans.Again? || ans.applied {
        log := log + [Event(job.typ, job.txn, JOB_SUBMITTED, job)];
      }
      Step(Advance(pid, ans, now));
    }

    /** The `fail` closure: the error is recorded, whether or not the job has done so already. */
    method Fail(ghost pid: nat, txn: string, typ: JobType, error: string, env: Env)
      requires Valid() && At(pid, Failing(txn, typ, error)) && Plausible(env)
      modifies this
      ensures Extends(old(w), w)
      ensures Valid() && pid !in w.procs
      ensures Took(env.failed) ==> FailureRecorded(w, txn, error)
    {
      ExtendsOrder();
      hide Extends, Reachable, Grows, BestOf, MatchResponse, NewResponse, NewIdentity;
      Others(pid, Failing(txn, typ, error));
      SaveStatus(pid, Failing(txn, typ, error), StatusRecord(txn, typ, Failed, None, error, "", env.now(12), 0),
                 env.failed, env.now(12));
      if Took(env.failed) {
        assert w.writes[|w.writes| - 1].error == error;
      }
    }
  }
}
