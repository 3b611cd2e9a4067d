/**
 What every run of the pipeline keeps about the three identity stores and the
 responses: metadata only for identities with both vectors, no answer naming an
 unknown identity, and a stored enrolment recognised ever after.
 */
module PipelineStores {
  import opened Domain
  import opened Metadata
  import opened Scoring
  import opened Candidates
  import opened Decisions
  import opened Pipeline

  // ---------- the invariant ----------

  /** Every id with metadata has a name vector, and every id with a name vector a face vector. */
  predicate Nested(w: World) {
    w.store.identities.Keys <= w.names <= w.faces <= w.ids
  }

  ghost predicate TaskSound(w: World, t: Task) {
    && |t.acked| == |t.looked| <= |t.face| && t.since <= |w.done|
    && (forall i | 0 <= i < |t.looked| ::
          && (t.looked[i].Skipped? <==> t.face[i].id == "")
          && (t.looked[i].Fault? <==> t.face[i].id != "" && !t.acked[i])
          && (t.looked[i].Found? ==> t.face[i].id in w.store.identities
                                     && w.store.identities[t.face[i].id] == t.looked[i].meta)
          && (t.looked[i].Absent? ==> t.face[i].id !in Enrolled(w.done[..t.since])))
  }

  /** The identities that the given responses announced as new. */
  ghost function Enrolled(done: seq<Done>): set<string> {
    set d | d in done && d.resp.decision == NewUser :: d.resp.id
  }

  ghost predicate AnswerSound(cfg: Config, w: World, t: Task, resp: Response) {
    && TaskSound(w, t) && |t.looked| == |t.face|
    && resp.decision == DecisionOf(cfg, t) && NamesStored(w, resp)
    && (if resp.decision == NewUser then
          resp.id != "" && t.job.typ == Enroll && resp == NewResponse(cfg, t, resp.id)
          && w.store.identities[resp.id].demographicHash == DemoHash(cfg, t.job)
        else
          resp == MatchResponse(cfg, t, resp.did))
  }

  /** The identity a process is in the middle of storing. */
  function Pending(p: Proc): Option<string> {
    if p.PuttingFace? || p.PuttingName? || p.PuttingMeta? then Some(p.id) else None
  }

  ghost predicate PendingSound(cfg: Config, w: World, p: Proc) {
    Pending(p).Some? ==>
      && p.id != "" && p.id in w.ids && p.id !in w.store.identities
      && |p.task.looked| == |p.task.face| && p.task.job.typ == Enroll && DecisionOf(cfg, p.task) == NewUser
      && (!p.PuttingFace? ==> p.id in w.faces)
      && (p.PuttingMeta? ==> p.id in w.names)
  }

  ghost predicate ProcSound(cfg: Config, w: World, p: Proc) {
    match p
    case Completing(t, resp) => AnswerSound(cfg, w, t, resp)
    case Calling(t, resp) => AnswerSound(cfg, w, t, resp)
    case Describing(t) => TaskSound(w, t) && |t.looked| == |t.face| && DecisionOf(cfg, t) != NewUser && BestOf(cfg, t).id != ""
    case Accepting(_) => true
    case Publishing(_) => true
    case Refusing(_, _) => true
    case Opening(_) => true
    case Failing(_, _, _) => true
    case _ => TaskSound(w, p.task) && PendingSound(cfg, w, p)
  }

  ghost predicate Inv(cfg: Config, w: World) {
    && Nested(w) && "" !in w.store.identities
    && (forall pid | pid in w.procs :: ProcSound(cfg, w, w.procs[pid]))
    && (forall p, q | p in w.procs && q in w.procs && p != q && Pending(w.procs[p]).Some? ::
          Pending(w.procs[p]) != Pending(w.procs[q]))
    && (forall d | d in w.done :: AnswerSound(cfg, w, d.task, d.resp))
    && (forall i | 0 <= i < |w.done| :: w.done[i].task.since <= i)
    && (forall rec | rec in w.writes :: ResultStored(w, rec))
  }

  /** The identity a response names is stored, and its DID is the stored one. */
  predicate NamesStored(w: World, resp: Response) {
    && (resp.id != "" ==> resp.id in w.store.identities)
    && (resp.did != "" ==> resp.id in w.store.identities && w.store.identities[resp.id].did == resp.did)
  }

  predicate ResultStored(w: World, rec: StatusRecord) {
    rec.result.Some? ==> NamesStored(w, rec.result.value)
  }

  /** What only grows: vectors and identities are never removed and stored metadata never altered. */
  ghost predicate Grows(w: World, w': World) {
    && w.faces <= w'.faces && w.names <= w'.names && w.ids <= w'.ids
    && w.store.identities.Keys <= w'.store.identities.Keys
    && (forall id | id in w.store.identities :: w'.store.identities[id] == w.store.identities[id])
    && w.done <= w'.done
  }

  // ---------- one step ----------

  /** Only a process with a pending identity writes to the identity stores. */
  lemma OnlyPendingWrites(cfg: Config, w: World, l: Label)
    requires Enabled(cfg, w, l) && (l.Advance? ==> Pending(w.procs[l.pid]).None?)
    ensures var w' := Next(cfg, w, l);
            && w'.faces == w.faces && w'.names == w.names && w'.store.identities == w.store.identities
            && w.ids <= w'.ids && w.done <= w'.done
  {
    hide P.ValidateInput, MatchResponse, NewResponse, DecisionOf, BestOf;
  }

  lemma StepGrows(cfg: Config, w: World, l: Label)
    requires Inv(cfg, w) && Enabled(cfg, w, l)
    ensures Grows(w, Next(cfg, w, l))
  {
    hide P.ValidateInput, MatchResponse, NewResponse, DecisionOf, BestOf, AnswerSound, TaskSound;
    if l.Advance? && Pending(w.procs[l.pid]).Some? {
      assert ProcSound(cfg, w, w.procs[l.pid]);
    } else {
      OnlyPendingWrites(cfg, w, l);
    }
  }

  lemma TaskGrows(w: World, w': World, t: Task)
    requires TaskSound(w, t) && Grows(w, w')
    ensures TaskSound(w', t)
  {
    assert w'.done[..t.since] == w.done[..t.since];
  }

  lemma AnswerGrows(cfg: Config, w: World, w': World, t: Task, resp: Response)
    requires AnswerSound(cfg, w, t, resp) && Grows(w, w')
    ensures AnswerSound(cfg, w', t, resp)
  {
    TaskGrows(w, w', t);
  }

  /** The only identity a step can add is the one its process was storing. */
  lemma OnlyPendingIsAdded(cfg: Config, w: World, l: Label, id: string)
    requires Enabled(cfg, w, l) && id in Next(cfg, w, l).store.identities && id !in w.store.identities
    ensures l.Advance? && Pending(w.procs[l.pid]) == Some(id)
  {
    if !l.Advance? || Pending(w.procs[l.pid]).None? {
      OnlyPendingWrites(cfg, w, l);
    }
  }

  /** A process that does not move stays sound: no other process stores its pending identity. */
  lemma OthersStaySound(cfg: Config, w: World, l: Label, pid: nat)
    requires Inv(cfg, w) && Enabled(cfg, w, l) && pid in w.procs && (l.Foreign? || pid != l.pid)
    ensures ProcSound(cfg, Next(cfg, w, l), w.procs[pid])
  {
    hide Next, BestOf, AnswerSound, TaskSound, P.ValidateInput;
    StepGrows(cfg, w, l);
    var p, w' := w.procs[pid], Next(cfg, w, l);
    assert ProcSound(cfg, w, p);
    if p.Completing? || p.Calling? {
      AnswerGrows(cfg, w, w', p.task, p.resp);
    } else if !(p.Accepting? || p.Publishing? || p.Refusing? || p.Opening? || p.Failing?) {
      TaskGrows(w, w', p.task);
      if Pending(p).Some? && p.id in w'.store.identities {
        OnlyPendingIsAdded(cfg, w, l, p.id);
        assert false;
      }
    }
  }

  /** The lookups of a complete, sound task only show metadata that is stored. */
  lemma BestIsStored(cfg: Config, w: World, t: Task)
    requires TaskSound(w, t) && |t.looked| == |t.face|
    ensures BestOf(cfg, t).id != "" ==> BestOf(cfg, t).id in w.store.identities
  {
    var i := BestIsEarliest(Lookups(t), t.names, DemoHash(cfg, t.job));
  }

  lemma ReadSound(w: World, t: Task, ans: Answer)
    requires TaskSound(w, t) && |t.looked| < |t.face|
    requires forall d | d in w.done && d.resp.decision == NewUser :: d.resp.id in w.store.identities
    requires ans.Ack? || ans.Nack?
    ensures TaskSound(w, t.(looked := t.looked + [ReadOf(w.store, t.face[|t.looked|].id, ans)], acked := t.acked + [ans.Ack?]))
  {
    assert forall d | d in w.done[..t.since] :: d in w.done;
  }

  /** Arriving soundly: the mover, if it goes on, is sound in the new world. */
  ghost predicate Arrives(cfg: Config, w: World, l: Label)
    requires Enabled(cfg, w, l) && l.Advance?
  {
    var w' := Next(cfg, w, l);
    l.pid in w'.procs ==> ProcSound(cfg, w', w'.procs[l.pid])
  }

  lemma LookupArrives(cfg: Config, w: World, l: Label)
    requires Inv(cfg, w) && Enabled(cfg, w, l) && l.Advance? && w.procs[l.pid].Reading?
    requires |w.procs[l.pid].task.looked| < |w.procs[l.pid].task.face|
    ensures Arrives(cfg, w, l)
  {
    hide P.ValidateInput, BestOf, MatchResponse, NewResponse, DecisionOf;
    StepGrows(cfg, w, l);
    var t, w' := w.procs[l.pid].task, Next(cfg, w, l);
    assert ProcSound(cfg, w, w.procs[l.pid]);
    ReadSound(w, t, l.ans);
    TaskGrows(w, w', w'.procs[l.pid].task);
  }

  lemma DecisionArrives(cfg: Config, w: World, l: Label)
    requires Inv(cfg, w) && Enabled(cfg, w, l) && l.Advance? && w.procs[l.pid].Reading?
    requires |w.procs[l.pid].task.looked| == |w.procs[l.pid].task.face|
    ensures Arrives(cfg, w, l)
  {
    hide P.ValidateInput, BestOf, NewResponse, SaveStatus, SaveIdentity;
    StepGrows(cfg, w, l);
    var t, w' := w.procs[l.pid].task, Next(cfg, w, l);
    assert ProcSound(cfg, w, w.procs[l.pid]);
    BestIsStored(cfg, w, t);
    TaskGrows(w, w', t);
  }

  lemma PuttingArrives(cfg: Config, w: World, l: Label)
    requires Inv(cfg, w) && Enabled(cfg, w, l) && l.Advance? && Pending(w.procs[l.pid]).Some?
    ensures Arrives(cfg, w, l)
  {
    hide P.ValidateInput, BestOf, MatchResponse, DecisionOf, Lookups;
    StepGrows(cfg, w, l);
    assert ProcSound(cfg, w, w.procs[l.pid]);
    TaskGrows(w, Next(cfg, w, l), w.procs[l.pid].task);
  }

  lemma RespondingArrives(cfg: Config, w: World, l: Label)
    requires Inv(cfg, w) && Enabled(cfg, w, l) && l.Advance?
    requires w.procs[l.pid].Describing? || w.procs[l.pid].Completing? || w.procs[l.pid].Calling?
    ensures Arrives(cfg, w, l)
  {
    StepGrows(cfg, w, l);
    var p, w' := w.procs[l.pid], Next(cfg, w, l);
    assert ProcSound(cfg, w, p);
    TaskGrows(w, w', p.task);
    if p.Describing? {
      BestIsStored(cfg, w, p.task);
    } else {
      AnswerGrows(cfg, w, w', p.task, p.resp);
    }
  }

  lemma SearchingArrives(cfg: Config, w: World, l: Label)
    requires Inv(cfg, w) && Enabled(cfg, w, l) && l.Advance?
    requires var p := w.procs[l.pid];
             p.Starting? || p.Embedding? || p.SearchingFace? || p.SearchingName? || p.Erring?
    ensures Arrives(cfg, w, l)
  {
    hide P.ValidateInput, BestOf, MatchResponse, NewResponse, NewIdentity, SaveStatus;
    StepGrows(cfg, w, l);
    assert ProcSound(cfg, w, w.procs[l.pid]);
    TaskGrows(w, Next(cfg, w, l), w.procs[l.pid].task);
  }

  lemma OtherArrives(cfg: Config, w: World, l: Label)
    requires Inv(cfg, w) && Enabled(cfg, w, l) && l.Advance?
    requires var p := w.procs[l.pid];
             p.Accepting? || p.Publishing? || p.Refusing? || p.Opening? || p.Failing?
    ensures Arrives(cfg, w, l)
  {
    hide P.ValidateInput, BestOf, MatchResponse, NewResponse, AnswerSound;
  }

  /** The process that moves is sound where it arrives. */
  lemma MoverArrives(cfg: Config, w: World, l: Label)
    requires Inv(cfg, w) && Enabled(cfg, w, l) && l.Advance?
    ensures Arrives(cfg, w, l)
  {
    hide Next, P.ValidateInput, AnswerSound, Arrives;
    var p := w.procs[l.pid];
    if p.Reading? {
      assert ProcSound(cfg, w, p);
      if |p.task.looked| < |p.task.face| {
        LookupArrives(cfg, w, l);
      } else {
        DecisionArrives(cfg, w, l);
      }
    } else if Pending(p).Some? {
      PuttingArrives(cfg, w, l);
    } else if p.Describing? || p.Completing? || p.Calling? {
      RespondingArrives(cfg, w, l);
    } else if p.Accepting? || p.Publishing? || p.Refusing? || p.Opening? || p.Failing? {
      OtherArrives(cfg, w, l);
    } else {
      SearchingArrives(cfg, w, l);
    }
  }

  lemma ProcsStaySound(cfg: Config, w: World, l: Label)
    requires Inv(cfg, w) && Enabled(cfg, w, l)
    ensures forall pid | pid in Next(cfg, w, l).procs :: ProcSound(cfg, Next(cfg, w, l), Next(cfg, w, l).procs[pid])
  {
    forall pid | pid in Next(cfg, w, l).procs
      ensures ProcSound(cfg, Next(cfg, w, l), Next(cfg, w, l).procs[pid])
    {
      if l.Foreign? || pid != l.pid {
        OthersStaySound(cfg, w, l, pid);
      } else if l.Advance? {
        MoverArrives(cfg, w, l);
      }
    }
  }

  lemma DoneStaysSound(cfg: Config, w: World, l: Label)
    requires Inv(cfg, w) && Enabled(cfg, w, l)
    ensures forall d | d in Next(cfg, w, l).done :: AnswerSound(cfg, Next(cfg, w, l), d.task, d.resp)
    ensures forall i | 0 <= i < |Next(cfg, w, l).done| :: Next(cfg, w, l).done[i].task.since <= i
  {
    StepGrows(cfg, w, l);
    var w' := Next(cfg, w, l);
    if l.Advance? {
      assert ProcSound(cfg, w, w.procs[l.pid]);
    }
    forall d | d in w'.done ensures AnswerSound(cfg, w', d.task, d.resp) {
      assert AnswerSound(cfg, w, d.task, d.resp);
      AnswerGrows(cfg, w, w', d.task, d.resp);
    }
  }

  /** A process comes to store an identity only by drawing it, and goes on storing the same one. */
  lemma PendingOfMove(cfg: Config, w: World, p: Proc, ans: Answer, now: Time)
    requires Fits(p, ans)
    ensures var q := Move(cfg, w, p, ans, now).0;
            q.Some? && Pending(q.value).Some? ==>
              Pending(q.value) == if ans.Chosen? then Some(ans.id) else Pending(p)
  {
  }

  lemma PendingStaysDistinct(cfg: Config, w: World, l: Label)
    requires Inv(cfg, w) && Enabled(cfg, w, l)
    ensures forall p, q | p in Next(cfg, w, l).procs && q in Next(cfg, w, l).procs && p != q
                          && Pending(Next(cfg, w, l).procs[p]).Some? ::
              Pending(Next(cfg, w, l).procs[p]) != Pending(Next(cfg, w, l).procs[q])
  {
    hide P.ValidateInput, BestOf, AnswerSound, TaskSound, Apply, Move;
    var w' := Next(cfg, w, l);
    forall p, q | p in w'.procs && q in w'.procs && p != q && Pending(w'.procs[p]).Some?
      ensures Pending(w'.procs[p]) != Pending(w'.procs[q])
    {
      assert p in w.procs ==> ProcSound(cfg, w, w.procs[p]);
      assert q in w.procs ==> ProcSound(cfg, w, w.procs[q]);
      if l.Advance? {
        PendingOfMove(cfg, w, w.procs[l.pid], l.ans, l.now);
      }
    }
  }

  lemma StepKeepsNested(cfg: Config, w: World, l: Label)
    requires Inv(cfg, w) && Enabled(cfg, w, l)
    ensures Nested(Next(cfg, w, l)) && "" !in Next(cfg, w, l).store.identities
  {
    hide P.ValidateInput, MatchResponse, NewResponse, AnswerSound, TaskSound, DecisionOf, BestOf;
    if l.Advance? && Pending(w.procs[l.pid]).Some? {
      var p, w' := w.procs[l.pid], Next(cfg, w, l);
      assert ProcSound(cfg, w, p);
      if p.PuttingMeta? {
        assert w'.store.identities.Keys <= w.store.identities.Keys + {p.id};
        assert w'.names == w.names && w'.faces == w.faces && w'.ids == w.ids;
      } else {
        assert w'.store.identities == w.store.identities;
      }
    } else {
      OnlyPendingWrites(cfg, w, l);
    }
  }

  lemma WritesStaySound(cfg: Config, w: World, l: Label)
    requires Inv(cfg, w) && Enabled(cfg, w, l)
    ensures forall rec | rec in Next(cfg, w, l).writes :: ResultStored(Next(cfg, w, l), rec)
  {
    StepGrows(cfg, w, l);
    if l.Advance? {
      assert ProcSound(cfg, w, w.procs[l.pid]);
    }
    var w' := Next(cfg, w, l);
    forall rec | rec in w'.writes ensures ResultStored(w', rec) {
      if rec in w.writes {
        assert ResultStored(w, rec);
      }
    }
  }

  lemma StepKeepsInv(cfg: Config, w: World, l: Label)
    requires Inv(cfg, w) && Enabled(cfg, w, l)
    ensures Inv(cfg, Next(cfg, w, l))
  {
    StepKeepsNested(cfg, w, l);
    ProcsStaySound(cfg, w, l);
    PendingStaysDistinct(cfg, w, l);
    DoneStaysSound(cfg, w, l);
    WritesStaySound(cfg, w, l);
  }

  // ---------- every run ----------

  lemma {:induction false} RunKeepsInv(cfg: Config, ws: seq<World>, ls: seq<Label>, i: nat)
    requires Run(cfg, ws, ls) && i < |ws|
    ensures Inv(cfg, ws[i])
  {
    if i > 0 {
      RunKeepsInv(cfg, ws, ls, i - 1);
      StepKeepsInv(cfg, ws[i - 1], ls[i - 1]);
    }
  }

  lemma RunStepGrows(cfg: Config, ws: seq<World>, ls: seq<Label>, i: nat)
    requires Run(cfg, ws, ls) && i < |ls|
    ensures Grows(ws[i], ws[i + 1])
  {
    RunKeepsInv(cfg, ws, ls, i);
    StepGrows(cfg, ws[i], ls[i]);
  }

  lemma GrowsTransitive(a: World, b: World, c: World)
    requires Grows(a, b) && Grows(b, c)
    ensures Grows(a, c)
  {
  }

  /** Over any stretch of any run nothing stored about an identity is lost or altered. */
  lemma {:induction false} IdentitiesArePermanent(cfg: Config, ws: seq<World>, ls: seq<Label>, i: nat, j: nat)
    requires Run(cfg, ws, ls) && i <= j < |ws|
    ensures Grows(ws[i], ws[j])
  {
    hide Next, Enabled, Inv;
    if i < j {
      IdentitiesArePermanent(cfg, ws, ls, i, j - 1);
      RunStepGrows(cfg, ws, ls, j - 1);
      GrowsTransitive(ws[i], ws[j - 1], ws[j]);
    }
  }

  /** At every point of every run, whatever fails and wherever a process crashes, metadata
      implies a name vector and a name vector implies a face vector, and neither a response nor the result of a
      status record ever names an identity without metadata or a DID other than that of its identity. */
  lemma StoresAlwaysNested(cfg: Config, ws: seq<World>, ls: seq<Label>, i: nat)
    requires Run(cfg, ws, ls) && i < |ws|
    ensures ws[i].store.identities.Keys <= ws[i].names <= ws[i].faces
    ensures forall d | d in ws[i].done :: NamesStored(ws[i], d.resp)
    ensures forall rec | rec in ws[i].writes && rec.result.Some? :: NamesStored(ws[i], rec.result.value)
  {
    RunKeepsInv(cfg, ws, ls, i);
    assert forall d | d in ws[i].done :: AnswerSound(cfg, ws[i], d.task, d.resp);
    assert forall rec | rec in ws[i].writes :: ResultStored(ws[i], rec);
  }

  predicate OnVerifyTask(p: Proc) {
    && !p.Accepting? && !p.Publishing? && !p.Refusing? && !p.Opening? && !p.Failing?
    && p.task.job.typ == Verify
  }

  /** A worker on a verify job changes no vector and no identity. */
  lemma VerifyIsReadOnly(cfg: Config, ws: seq<World>, ls: seq<Label>, i: nat)
    requires Run(cfg, ws, ls) && i < |ls| && ls[i].Advance? && OnVerifyTask(ws[i].procs[ls[i].pid])
    ensures ws[i + 1].faces == ws[i].faces && ws[i + 1].names == ws[i].names
    ensures ws[i + 1].store.identities == ws[i].store.identities
  {
    RunKeepsInv(cfg, ws, ls, i);
    assert ProcSound(cfg, ws[i], ws[i].procs[ls[i].pid]);
    OnlyPendingWrites(cfg, ws[i], ls[i]);
  }

  /** The searches of a task returned the identity with score 1 and the lookup of one such face hit was answered. */
  ghost predicate SeesPerfectly(t: Task, id: string) {
    && |t.acked| == |t.face| && Hit(id, 1.0) in t.names
    && (forall h | h in t.face || h in t.names :: h.score <= 1.0)
    && exists k :: 0 <= k < |t.face| && t.face[k] == Hit(id, 1.0) && t.acked[k]
  }

  /** A task that has found a person perfectly decides for that person or one that cannot be told apart. */
  lemma FoundIsRecognised(cfg: Config, t: Task, k: nat)
    requires |t.looked| == |t.face| && k < |t.face| && t.face[k].id != "" && t.face[k].score == 1.0 && t.face[k] in t.names
    requires forall h | h in t.face || h in t.names :: h.score <= 1.0
    requires t.looked[k].Found? && t.looked[k].meta.demographicHash == DemoHash(cfg, t.job)
    requires cfg.th.nameMatch <= NAME_SLACK
    ensures t.job.typ == Enroll && cfg.th.faceDup <= FACE_SLACK ==> DecisionOf(cfg, t) == AlreadyExists
    ensures t.job.typ != Enroll && t.live.passed && cfg.th.faceMatch <= FACE_SLACK ==> DecisionOf(cfg, t) == Matched
  {
    hide Best, P.DemographicHash;
    var lookups, hash, id := Lookups(t), DemoHash(cfg, t.job), t.face[k].id;
    assert lookups[k] in lookups && t.face[k] == Hit(id, 1.0);
    assert AtMostOne(lookups, t.names) by {
      assert forall l | l in lookups :: l.hit in t.face;
    }
    assert Perfect(lookups, t.names, hash, id);
    PerfectHitWins(lookups, t.names, hash, id);
  }

  /** In every run, once an enrolment has announced a new identity, a job picked up later with
      the same demographics whose searches see that identity perfectly is recognised: an enrolment
      as ALREADY_EXISTS, a live verification as MATCHED, whatever other hits, orphan vectors
      and failures of other lookups there are. */
  lemma EnrolmentIsRecognised(cfg: Config, ws: seq<World>, ls: seq<Label>, i: nat, a: nat, b: nat)
    requires Run(cfg, ws, ls) && i < |ws| && a < |ws[i].done| && b < |ws[i].done|
    requires ws[i].done[a].resp.decision == NewUser && a < ws[i].done[b].task.since
    requires DemoHash(cfg, ws[i].done[b].task.job) == DemoHash(cfg, ws[i].done[a].task.job)
    requires SeesPerfectly(ws[i].done[b].task, ws[i].done[a].resp.id)
    requires cfg.th.nameMatch <= NAME_SLACK
    ensures ws[i].done[b].task.job.typ == Enroll && cfg.th.faceDup <= FACE_SLACK ==>
              ws[i].done[b].resp.decision == AlreadyExists
    ensures ws[i].done[b].task.job.typ != Enroll && ws[i].done[b].task.live.passed && cfg.th.faceMatch <= FACE_SLACK ==>
              ws[i].done[b].resp.decision == Matched
  {
    hide Run, Best, Nested, Pending, PendingSound, ProcSound;
    RunKeepsInv(cfg, ws, ls, i);
    var w := ws[i];
    var id, t := w.done[a].resp.id, w.done[b].task;
    assert w.done[a] in w.done && AnswerSound(cfg, w, w.done[a].task, w.done[a].resp);
    assert w.done[b] in w.done && AnswerSound(cfg, w, t, w.done[b].resp);
    assert w.done[..t.since][a] in w.done[..t.since];
    assert id in Enrolled(w.done[..t.since]);
    var k :| 0 <= k < |t.face| && t.face[k] == Hit(id, 1.0) && t.acked[k];
    assert t.looked[k] == Found(w.store.identities[id]);
    FoundIsRecognised(cfg, t, k);
  }

  /** In every run every response is the decision its search results call for, and one that names
      a stored person has at least the confidence its thresholds stand for. */
  lemma ResponsesAreConfident(cfg: Config, ws: seq<World>, ls: seq<Label>, i: nat, d: Done)
    requires Run(cfg, ws, ls) && i < |ws| && d in ws[i].done
    requires 0.0 <= cfg.th.faceDup <= 1.0 && 0.0 <= cfg.th.faceMatch <= 1.0 && 0.0 <= cfg.th.nameMatch <= 1.0
    ensures |d.task.looked| == |d.task.face| && d.resp.decision == DecisionOf(cfg, d.task)
    ensures d.resp.decision == Matched ==>
              d.resp.confidence >= Round4(0.65 * cfg.th.faceMatch + 0.25 * cfg.th.nameMatch + 0.10)
    ensures d.task.job.typ == Enroll ==> d.resp.confidence >= Round4(0.65 * cfg.th.faceDup)
  {
    hide Run, Best, Nested, Pending, PendingSound, ProcSound, TaskSound, ResultStored, Round4;
    RunKeepsInv(cfg, ws, ls, i);
    assert AnswerSound(cfg, ws[i], d.task, d.resp);
    DecisionConfidenceFloor(cfg.th, Lookups(d.task), d.task.names, DemoHash(cfg, d.task.job), d.task.live.passed);
    Round4Monotone(0.65 * cfg.th.faceDup, 1.0);
    RoundOne();
  }

  lemma RoundOne()
    ensures Round4(1.0) == 1.0
  {
  }
}
