/**
 The asynchronous enrol/verify pipeline as a step machine. Any number of API
 requests and workers run side by side; a step is one call on a shared store (or
 the local computation before it), its answer is arbitrary, and a process may
 crash between any two steps.
 */
module Pipeline {
  import opened Domain
  import opened Metadata
  import opened Scoring
  import opened Candidates
  import opened Decisions
  import P = Preimage
  import Text

  datatype Config = Config(th: Thresholds, unicode: Text.Unicode, mac: string -> string, did: string -> string)

  const JOB_SUBMITTED := "JOB_SUBMITTED"

  /** A record of a command topic; `job` is the content of its sealed envelope. */
  datatype Event = Event(topic: JobType, txn: string, kind: string, job: Job)

  /** The answer of one metadata lookup of a face hit. */
  datatype Read = Skipped | Fault | Absent | Found(meta: IdentityMetadata)

  /** The locals of a worker's job. For the history, `since` counts the responses given before it was picked up, and
      `acked` says which lookups of face hits were answered without an error. */
  datatype Task = Task(job: Job, since: nat, live: Liveness, face: seq<Hit>, names: seq<Hit>, looked: seq<Read>, acked: seq<bool>)

  /** Where a process stands: each constructor names the call it is about to make. */
  datatype Proc =
    | Accepting(job: Job)
    | Publishing(job: Job)
    | Refusing(job: Job, error: string)
    | Opening(evt: Event)
    | Starting(task: Task)
    | Embedding(task: Task)
    | SearchingFace(task: Task)
    | SearchingName(task: Task)
    | Reading(task: Task)
    | Describing(task: Task)
    | PuttingFace(task: Task, id: string)
    | PuttingName(task: Task, id: string)
    | PuttingMeta(task: Task, id: string)
    | Completing(task: Task, resp: Response)
    | Erring(task: Task, error: string)
    | Failing(txn: string, typ: JobType, error: string)
    | Calling(task: Task, resp: Response)

  /** An answer of the world. A failed call may still have taken effect. `Again` is for the publisher only: a
      post whose record the queue has kept while its reply was lost or an error, so that another post follows. */
  datatype Answer =
    | Ack
    | Nack(error: string, applied: bool)
    | Again
    | Embedded(live: Liveness)
    | Hits(hits: seq<Hit>)
    | Chosen(id: string)

  datatype Effect =
    | Silent
    | PutStatus(rec: StatusRecord)
    | Append(evt: Event)
    | PutFace(id: string)
    | PutName(id: string)
    | PutIdentity(meta: IdentityMetadata)

  datatype Done = Done(task: Task, resp: Response)

  /** The shared state, the processes, and the history the properties speak about:
      submitted jobs, drawn identity ids, delivered offsets, status writes and responses. */
  datatype World = World(
    faces: set<string>, names: set<string>, store: Maps, log: seq<Event>, procs: map<nat, Proc>,
    jobs: map<string, Job>, ids: set<string>, delivered: set<nat>,
    writes: seq<StatusRecord>, done: seq<Done>)

  const INIT := World({}, {}, EMPTY, [], map[], map[], {}, {}, [], [])

  datatype Label =
    | Submit(pid: nat, job: Job)
    | Foreign(evt: Event)
    | Deliver(pid: nat, offset: nat)
    | Advance(pid: nat, ans: Answer, now: Time)
    | Crash(pid: nat)

  // ---------- one process ----------

  function DemoHash(cfg: Config, job: Job): string {
    P.DemographicHash(cfg.unicode, cfg.mac, job.dob, job.gender)
  }

  function Lookups(t: Task): seq<Lookup>
    requires |t.looked| == |t.face|
  {
    seq(|t.face|, i requires 0 <= i < |t.face| =>
      Lookup(t.face[i], if t.looked[i].Found? then Some(t.looked[i].meta) else None))
  }

  function BestOf(cfg: Config, t: Task): Candidate
    requires |t.looked| == |t.face|
  {
    Best(Lookups(t), t.names, DemoHash(cfg, t.job))
  }

  function DecisionOf(cfg: Config, t: Task): Decision
    requires |t.looked| == |t.face|
  {
    if t.job.typ == Enroll then EnrollDecision(cfg.th, BestOf(cfg, t))
    else VerifyDecision(cfg.th, BestOf(cfg, t), t.live.passed)
  }

  function DetailsOf(live: Liveness): LivenessDetails {
    LivenessDetails(live.passed, Round4(live.score))
  }

  function MatchResponse(cfg: Config, t: Task, did: string): Response
    requires |t.looked| == |t.face|
  {
    var best := BestOf(cfg, t);
    Response(t.job.txn, best.id, did, DecisionOf(cfg, t), ConfidenceOf(best), best.id,
             Round4(best.face), Round4(best.name), best.demo, DetailsOf(t.live))
  }

  function NewResponse(cfg: Config, t: Task, id: string): Response
    requires |t.looked| == |t.face|
  {
    var best := BestOf(cfg, t);
    Response(t.job.txn, id, cfg.did(id), NewUser, 1.0, "",
             Round4(best.face), Round4(best.name), best.demo, DetailsOf(t.live))
  }

  function NewIdentity(cfg: Config, t: Task, id: string, now: Time): IdentityMetadata {
    IdentityMetadata(id, cfg.did(id), DemoHash(cfg, t.job), P.NameHash(cfg.unicode, cfg.mac, t.job.name), now, 0, "ACTIVE")
  }

  function Record(job: Job, status: Status, result: Option<Response>, error: string, now: Time): StatusRecord {
    StatusRecord(job.txn, job.typ, status, result, error, job.callback, now, 0)
  }

  function ReadOf(store: Maps, id: string, ans: Answer): Read {
    if id == "" then Skipped
    else if ans.Nack? then Fault
    else if id in store.identities then Found(store.identities[id])
    else Absent
  }

  /** The tasks whose locals are complete: every face hit has been looked up. */
  predicate Ready(p: Proc) {
    (p.Describing? || p.PuttingFace? || p.PuttingName? || p.PuttingMeta?) ==> |p.task.looked| == |p.task.face|
  }

  /** The answers a process can get at the call it is about to make. */
  predicate Fits(p: Proc, ans: Answer) {
    && Ready(p)
    && match p
       case Publishing(_) => ans.Ack? || ans.Nack? || ans.Again?
       case Embedding(_) => ans.Embedded? || ans.Nack?
       case SearchingFace(_) => ans.Hits? || ans.Nack?
       case SearchingName(_) => ans.Hits? || ans.Nack?
       case Reading(t) =>
         && |t.looked| <= |t.face|
         && if |t.looked| < |t.face| then ans.Ack? || ans.Nack? else ans.Chosen?
       case _ => ans.Ack? || ans.Nack?
  }

  /** One step of one process: where it goes (None: it ends) and what it asks of the shared state. */
  function Move(cfg: Config, w: World, p: Proc, ans: Answer, now: Time): (Option<Proc>, Effect)
    requires Fits(p, ans)
  {
    match p
    case Accepting(job) =>
      (if ans.Ack? then Some(Publishing(job)) else None, PutStatus(Record(job, Accepted, None, "", now)))
    case Publishing(job) =>
      (if ans.Ack? then None else if ans.Again? then Some(p) else Some(Refusing(job, ans.error)),
       Append(Event(job.typ, job.txn, JOB_SUBMITTED, job)))
    case Refusing(job, error) =>
      (None, PutStatus(Record(job, Failed, None, error, now)))
    case Opening(evt) =>
      (if ans.Nack? then Some(Failing(evt.txn, evt.topic, ans.error))
       else if evt.job.typ.Other? then
         Some(Failing(evt.txn, if evt.job.typ.name == "" then evt.topic else evt.job.typ, "unknown job type"))
       else Some(Starting(Task(evt.job, |w.done|, Liveness(false, 0.0), [], [], [], []))), Silent)
    case Starting(t) =>
      (Some(Embedding(t)), PutStatus(Record(t.job, Processing, None, "", now)))
    case Embedding(t) =>
      (Some(if ans.Nack? then Erring(t, ans.error) else SearchingFace(t.(live := ans.live))), Silent)
    case SearchingFace(t) =>
      (Some(if ans.Nack? then Erring(t, ans.error) else SearchingName(t.(face := ans.hits, looked := [], acked := []))), Silent)
    case SearchingName(t) =>
      (Some(if ans.Nack? then Erring(t, ans.error) else Reading(t.(names := ans.hits))), Silent)
    case Reading(t) =>
      if |t.looked| < |t.face| then
        var read := ReadOf(w.store, t.face[|t.looked|].id, ans);
        (Some(Reading(t.(looked := t.looked + [read], acked := t.acked + [ans.Ack?]))), Silent)
      else
        var best := BestOf(cfg, t);
        (Some(if t.job.typ == Enroll && !IsDuplicate(cfg.th, best) then PuttingFace(t, ans.id)
              else if best.id != "" then Describing(t)
              else Completing(t, MatchResponse(cfg, t, ""))), Silent)
    case Describing(t) =>
      var id := BestOf(cfg, t).id;
      var did := if ans.Ack? && id in w.store.identities then w.store.identities[id].did else "";
      (Some(Completing(t, MatchResponse(cfg, t, did))), Silent)
    case PuttingFace(t, id) =>
      (Some(if ans.Nack? then Erring(t, ans.error) else PuttingName(t, id)), PutFace(id))
    case PuttingName(t, id) =>
      (Some(if ans.Nack? then Erring(t, ans.error) else PuttingMeta(t, id)), PutName(id))
    case PuttingMeta(t, id) =>
      (Some(if ans.Nack? then Erring(t, ans.error) else Completing(t, NewResponse(cfg, t, id))),
       PutIdentity(NewIdentity(cfg, t, id, now)))
    case Completing(t, resp) =>
      (Some(Calling(t, resp)), PutStatus(Record(t.job, Completed, Some(resp), "", now)))
    case Erring(t, error) =>
      (Some(Failing(t.job.txn, t.job.typ, error)), PutStatus(Record(t.job, Failed, None, error, now)))
    case Failing(txn, typ, error) =>
      (None, PutStatus(StatusRecord(txn, typ, Failed, None, error, "", now, 0)))
    case Calling(_, _) =>
      (None, Silent)
  }

  // ---------- the machine ----------

  function Apply(w: World, e: Effect, now: Time): World {
    match e
    case Silent => w
    case PutStatus(rec) => w.(store := SaveStatus(w.store, rec, now), writes := w.writes + [StampStatus(rec, now)])
    case Append(evt) => w.(log := w.log + [evt])
    case PutFace(id) => w.(faces := w.faces + {id})
    case PutName(id) => w.(names := w.names + {id})
    case PutIdentity(meta) => w.(store := SaveIdentity(w.store, meta, now))
  }

  predicate Enabled(cfg: Config, w: World, l: Label) {
    match l
    case Submit(pid, job) =>
      && pid !in w.procs && job.txn !in w.jobs && !job.typ.Other?
      && P.ValidateInput(cfg.unicode, P.Input(job.image, job.name, job.dob, job.gender)) == P.Valid
    case Foreign(evt) => evt.kind != JOB_SUBMITTED
    case Deliver(pid, k) => pid !in w.procs && k < |w.log|
    case Advance(pid, ans, _) =>
      && pid in w.procs && Fits(w.procs[pid], ans)
      && (ans.Chosen? ==> ans.id != "" && ans.id !in w.ids)
    case Crash(pid) => pid in w.procs
  }

  function Next(cfg: Config, w: World, l: Label): World
    requires Enabled(cfg, w, l)
  {
    match l
    case Submit(pid, job) => w.(procs := w.procs[pid := Accepting(job)], jobs := w.jobs[job.txn := job])
    case Foreign(evt) => w.(log := w.log + [evt])
    case Deliver(pid, k) =>
      var w' := w.(delivered := w.delivered + {k});
      if w.log[k].kind == JOB_SUBMITTED then w'.(procs := w.procs[pid := Opening(w.log[k])]) else w'
    case Advance(pid, ans, now) =>
      var p := w.procs[pid];
      var (q, e) := Move(cfg, w, p, ans, now);
      var w' := if ans.Nack? && !ans.applied then w else Apply(w, e, now);
      w'.(procs := if q.Some? then w.procs[pid := q.value] else w.procs - {pid},
          ids := if ans.Chosen? then w.ids + {ans.id} else w.ids,
          done := if p.Completing? then w.done + [Done(p.task, p.resp)] else w.done)
    case Crash(pid) => w.(procs := w.procs - {pid})
  }

  /** A run: the worlds between the steps of a sequence of labels, from the empty system on. */
  ghost predicate Run(cfg: Config, ws: seq<World>, ls: seq<Label>) {
    && |ws| == |ls| + 1 && ws[0] == INIT
    && forall i | 0 <= i < |ls| :: Enabled(cfg, ws[i], ls[i]) && ws[i + 1] == Next(cfg, ws[i], ls[i])
  }
}
