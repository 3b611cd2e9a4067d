/**
 What the answer to a job means, said in terms of the search results, the stored
 identities and the thresholds alone, and what a MATCHED verification says about
 the person.
 */
module PipelineAnswers {
  import opened Domain
  import opened Metadata
  import opened Scoring
  import opened Candidates
  import opened Decisions
  import opened Pipeline
  import opened PipelineStores
  import opened PipelineStatus
  import P = Preimage
  import Text

  // ---------- the meaning of an answer ----------

  /** What the searches and the store say about a person: its face score, the better of 0 and its best name score, and whether the
      demographics are those of the job. Nobody has no scores. */
  ghost predicate Evidence(ids: map<string, IdentityMetadata>, hash: string, face: seq<Hit>, names: seq<Hit>, c: Candidate) {
    if c.id == "" then c == Candidate("", 0.0, 0.0, false)
    else
      && Hit(c.id, c.face) in face && c.id in ids
      && c.name >= 0.0 && (forall h | h in names && h.id == c.id :: h.score <= c.name)
      && (c.name == 0.0 || Hit(c.id, c.name) in names)
      && (c.demo <==> ids[c.id].demographicHash == hash)
  }

  /** The verdict of an enrolment on the evidence. */
  ghost predicate EnrolVerdict(th: Thresholds, c: Candidate, d: Decision) {
    var duplicate, named := c.id != "" && c.face >= th.faceDup, c.name >= th.nameMatch;
    && (d == NewUser <==> !duplicate)
    && (d == AlreadyExists <==> duplicate && (named <==> c.demo))
    && (d == PotentialFraud <==> duplicate && named && !c.demo)
    && (d == PartialMatch <==> duplicate && !named && c.demo)
  }

  /** The verdict of a verification on the evidence. */
  ghost predicate VerifyVerdict(th: Thresholds, live: bool, c: Candidate, d: Decision) {
    var matched := live && c.id != "" && c.demo && c.face >= th.faceMatch && c.name >= th.nameMatch;
    var partial := live && c.id != "" && c.face >= th.partialFace && (c.name >= 0.55 || c.demo);
    && (d == Matched <==> matched)
    && (d == PartialMatch <==> partial && !matched)
    && (d == NoMatch <==> !matched && !partial)
  }

  /** To the nearest multiple of 1/10000, ties up, a negative value half a place nearer to zero. */
  predicate Rounded(v: real, r: FourPlaces) {
    if v >= 0.0 then -0.00005 < r - v <= 0.00005
    else r <= 0.0 && (r == 0.0 <==> v > -0.00015) && (r < 0.0 ==> 0.00005 <= r - v < 0.00015)
  }

  /** The weights of the confidence. */
  predicate Confident(c: Candidate, r: FourPlaces) {
    var sum := 0.65 * c.face + 0.25 * c.name + (if c.demo then 0.10 else 0.0);
    && 0.0 <= r <= 1.0 && (sum <= 0.0 ==> r == 0.0) && (sum >= 1.0 ==> r == 1.0)
    && (0.0 <= sum <= 1.0 ==> -0.00005 < r - sum <= 0.00005)
  }

  /** The response to a job on the evidence: the verdict of its kind, its numbers, and whom it names. */
  ghost predicate Explained(cfg: Config, ids: map<string, IdentityMetadata>, job: Job, live: Liveness,
                            face: seq<Hit>, names: seq<Hit>, c: Candidate, resp: Response) {
    && Evidence(ids, cfg.mac(P.Joined(cfg.unicode, [job.dob, job.gender])), face, names, c)
    && (if job.typ == Enroll then EnrolVerdict(cfg.th, c, resp.decision) else VerifyVerdict(cfg.th, live.passed, c, resp.decision))
    && resp.txn == job.txn && resp.live.passed == live.passed && Rounded(live.score, resp.live.score)
    && Rounded(c.face, resp.faceSimilarity) && Rounded(c.name, resp.nameSimilarity) && resp.demographicMatch == c.demo
    && (resp.did != "" ==> resp.id in ids && ids[resp.id].did == resp.did)
    && (if resp.decision == NewUser then
          resp.id in ids && resp.id != "" && resp.did == cfg.did(resp.id) && resp.candidate == "" && resp.confidence == 1.0
        else
          resp.id == c.id && resp.candidate == c.id && Confident(c, resp.confidence))
  }

  /** The face hit at `k` is evidence of somebody, and that has no higher confidence than the evidence chosen. */
  ghost predicate Outdone(ids: map<string, IdentityMetadata>, hash: string, face: seq<Hit>, names: seq<Hit>, k: nat, c: Candidate)
    requires k < |face|
  {
    c.id != "" && exists x ::
      Evidence(ids, hash, face, names, x) && face[k] == Hit(x.id, x.face) && ConfidenceOf(x) <= ConfidenceOf(c)
  }

  lemma IsRounded(v: real)
    ensures Rounded(v, Round4(v))
  {
    if v >= 0.0 {
      var k := Round4Nearest(v);
    } else {
      var k := Round4Negative(v);
    }
  }

  lemma IsConfident(c: Candidate)
    ensures Confident(c, ConfidenceOf(c))
  {
    var k := ConfidenceIs(c.face, c.name, c.demo);
  }

  /** The candidate of a complete task is evidenced by what is stored. */
  lemma BestIsEvident(cfg: Config, w: World, t: Task)
    requires TaskSound(w, t) && |t.looked| == |t.face|
    ensures Evidence(w.store.identities, DemoHash(cfg, t.job), t.face, t.names, BestOf(cfg, t))
  {
    var hash, best := DemoHash(cfg, t.job), BestOf(cfg, t);
    var i := BestIsEarliest(Lookups(t), t.names, hash);
    NameScoreIsMax(t.names, best.id);
    if best.id != "" {
      var l := Lookups(t)[i];
      assert l.hit == t.face[i] && t.looked[i].Found?;
      assert t.face[i] == Hit(best.id, best.face);
    }
  }

  lemma VerdictOnEvidence(cfg: Config, t: Task)
    requires |t.looked| == |t.face|
    ensures var c, d := BestOf(cfg, t), DecisionOf(cfg, t);
            if t.job.typ == Enroll then EnrolVerdict(cfg.th, c, d) else VerifyVerdict(cfg.th, t.live.passed, c, d)
  {
    hide Best;
    EnrollTable(cfg.th, BestOf(cfg, t));
    VerifyTable(cfg.th, BestOf(cfg, t), t.live.passed);
  }

  /** A sound answer is explained by the searches and the store. */
  lemma AnswerIsExplained(cfg: Config, w: World, t: Task, resp: Response) returns (c: Candidate)
    requires AnswerSound(cfg, w, t, resp)
    ensures Explained(cfg, w.store.identities, t.job, t.live, t.face, t.names, c, resp)
    ensures c == BestOf(cfg, t)
  {
    c := BestOf(cfg, t);
    BestIsEvident(cfg, w, t);
    VerdictOnEvidence(cfg, t);
    IsRounded(c.face);
    IsRounded(c.name);
    IsRounded(t.live.score);
    IsConfident(c);
    hide Best, Round4, TaskSound, Evidence, Confidence;
  }

  /** In every run every response is explained by the search results of its job, the stored identities and the
      thresholds, and no other face hit whose identity was found has a higher confidence than its person. */
  lemma ResponsesAreExplained(cfg: Config, ws: seq<World>, ls: seq<Label>, i: nat, d: Done) returns (c: Candidate)
    requires Run(cfg, ws, ls) && i < |ws| && d in ws[i].done
    ensures Explained(cfg, ws[i].store.identities, d.task.job, d.task.live, d.task.face, d.task.names, c, d.resp)
    ensures |d.task.acked| == |d.task.looked| == |d.task.face| && d.task.since <= |ws[i].done|
    ensures forall k | 0 <= k < |d.task.face| && d.task.face[k].id in Enrolled(ws[i].done[..d.task.since]) && d.task.acked[k] ::
              Outdone(ws[i].store.identities, DemoHash(cfg, d.task.job), d.task.face, d.task.names, k, c)
  {
    RunKeepsInv(cfg, ws, ls, i);
    assert AnswerSound(cfg, ws[i], d.task, d.resp);
    c := AnswerIsExplained(cfg, ws[i], d.task, d.resp);
    forall k | 0 <= k < |d.task.face| && d.task.face[k].id in Enrolled(ws[i].done[..d.task.since]) && d.task.acked[k]
      ensures Outdone(ws[i].store.identities, DemoHash(cfg, d.task.job), d.task.face, d.task.names, k, c)
    {
      KnownIsOutdone(cfg, ws[i], d.task, d.resp, k);
    }
  }

  /** A face hit of an enrolled identity whose lookup was answered is a candidate, and not a better one than the chosen. */
  lemma KnownIsOutdone(cfg: Config, w: World, t: Task, resp: Response, k: nat)
    requires Inv(cfg, w) && AnswerSound(cfg, w, t, resp) && k < |t.face| && t.acked[k]
    requires t.face[k].id in Enrolled(w.done[..t.since])
    ensures Outdone(w.store.identities, DemoHash(cfg, t.job), t.face, t.names, k, BestOf(cfg, t))
  {
    EnrolledIsStored(cfg, w, t.since, t.face[k].id);
    assert t.looked[k].Found?;
    var hash := DemoHash(cfg, t.job);
    var i := BestIsEarliest(Lookups(t), t.names, hash);
    assert Eligible(Lookups(t)[k]);
    var x := CandidateOf(Lookups(t)[k], t.names, hash);
    NameScoreIsMax(t.names, x.id);
    assert t.face[k] == Hit(x.id, x.face);
  }

  lemma EnrolledIsStored(cfg: Config, w: World, since: nat, id: string)
    requires Inv(cfg, w) && since <= |w.done| && id in Enrolled(w.done[..since])
    ensures id != "" && id in w.store.identities
  {
    hide Nested, ProcSound, Pending, ResultStored, TaskSound, BestOf, DecisionOf;
    var d :| d in w.done[..since] && d.resp.decision == NewUser && d.resp.id == id;
    assert d in w.done && AnswerSound(cfg, w, d.task, d.resp);
  }

  // ---------- lookups and recorded results ----------

  /** In every run a lookup that is answered finds the metadata stored for the hit's identity, or that there is none; one that
      fails finds nothing, and without an identity none is made. */
  lemma LookupsAreAnswered(cfg: Config, ws: seq<World>, ls: seq<Label>, i: nat)
    requires Run(cfg, ws, ls) && i < |ls| && ls[i].Advance? && ws[i].procs[ls[i].pid].Reading?
    requires |ws[i].procs[ls[i].pid].task.looked| < |ws[i].procs[ls[i].pid].task.face|
    ensures var t, k := ws[i].procs[ls[i].pid].task, |ws[i].procs[ls[i].pid].task.looked|;
            var id, ids := t.face[k].id, ws[i].store.identities;
            && ls[i].pid in ws[i + 1].procs && ws[i + 1].procs[ls[i].pid].Reading?
            && var t' := ws[i + 1].procs[ls[i].pid].task;
              && |t'.looked| == k + 1 && t'.looked[..k] == t.looked && t' == t.(looked := t'.looked, acked := t'.acked)
              && (id == "" ==> t'.looked[k] == Skipped)
              && (id != "" && ls[i].ans.Nack? ==> t'.looked[k] == Fault)
              && (id != "" && !ls[i].ans.Nack? ==> t'.looked[k] == if id in ids then Found(ids[id]) else Absent)
  {
    hide P.ValidateInput, BestOf, MatchResponse, NewResponse, DecisionOf;
    assert Enabled(cfg, ws[i], ls[i]);
  }

  /** The results of the status records are responses given to their jobs. */
  ghost predicate ResultsGiven(w: World) {
    forall rec | rec in w.writes && rec.result.Some? ::
      exists d :: d in w.done && d.resp == rec.result.value && d.task.job.txn == rec.txn
  }

  lemma StepKeepsResultsGiven(cfg: Config, w: World, l: Label)
    requires ResultsGiven(w) && WritesInv(w) && Enabled(cfg, w, l)
    ensures ResultsGiven(Next(cfg, w, l))
  {
    hide P.ValidateInput, BestOf, MatchResponse, NewResponse, DecisionOf, WritesInv;
    var w' := Next(cfg, w, l);
    forall rec | rec in w'.writes && rec.result.Some?
      ensures exists d :: d in w'.done && d.resp == rec.result.value && d.task.job.txn == rec.txn
    {
      if rec in w.writes {
        var d :| d in w.done && d.resp == rec.result.value && d.task.job.txn == rec.txn;
        assert d in w'.done;
      } else {
        var p := w.procs[l.pid];
        assert p.Completing? && Done(p.task, p.resp) in w'.done;
      }
    }
  }

  lemma {:induction false} RunKeepsResultsGiven(cfg: Config, ws: seq<World>, ls: seq<Label>, i: nat)
    requires Run(cfg, ws, ls) && i < |ws|
    ensures ResultsGiven(ws[i])
  {
    if i > 0 {
      hide JobsInv, WritesInv, Submitted, ResultsGiven, Enabled, Next;
      RunKeepsResultsGiven(cfg, ws, ls, i - 1);
      RunKeepsStatusInv(cfg, ws, ls, i - 1);
      StepKeepsResultsGiven(cfg, ws[i - 1], ls[i - 1]);
    }
  }

  /** In every run the stored result of a transaction is the explained response to the job submitted under it. */
  lemma StoredResultsAreExplained(cfg: Config, ws: seq<World>, ls: seq<Label>, i: nat, t: string) returns (d: Done, c: Candidate)
    requires Run(cfg, ws, ls) && i < |ws| && t in ws[i].store.statuses && ws[i].store.statuses[t].result.Some?
    ensures d in ws[i].done && d.resp == ws[i].store.statuses[t].result.value
    ensures t in ws[i].jobs && d.task.job == ws[i].jobs[t]
    ensures Explained(cfg, ws[i].store.identities, d.task.job, d.task.live, d.task.face, d.task.names, c, d.resp)
  {
    hide Run, Explained, ResultsGiven;
    StoredRecordsAreShaped(cfg, ws, ls, i, t);
    LastWriteIn(ws[i].writes, t);
    RunKeepsResultsGiven(cfg, ws, ls, i);
    d := GivenResult(ws[i], ws[i].store.statuses[t]);
    AnsweredJobsWereSubmitted(cfg, ws, ls, i, d);
    c := ResponsesAreExplained(cfg, ws, ls, i, d);
  }

  lemma GivenResult(w: World, rec: StatusRecord) returns (d: Done)
    requires ResultsGiven(w) && rec in w.writes && rec.result.Some?
    ensures d in w.done && d.resp == rec.result.value && d.task.job.txn == rec.txn
  {
    d :| d in w.done && d.resp == rec.result.value && d.task.job.txn == rec.txn;
  }

  // ---------- where identities come from ----------

  /** The metadata is that of an enrolment job. */
  predicate FromJob(cfg: Config, id: string, m: IdentityMetadata, job: Job) {
    && job.typ == Enroll && m.id == id && m.did == cfg.did(id) && m.status == "ACTIVE"
    && m.demographicHash == cfg.mac(P.Joined(cfg.unicode, [job.dob, job.gender]))
    && m.nameHash == cfg.mac(P.Joined(cfg.unicode, [job.name]))
  }

  ghost predicate Sourced(cfg: Config, w: World) {
    forall id | id in w.store.identities :: exists t :: t in w.jobs && FromJob(cfg, id, w.store.identities[id], w.jobs[t])
  }

  lemma NewIdentityIsFromJob(cfg: Config, t: Task, id: string, now: Time)
    requires t.job.typ == Enroll
    ensures FromJob(cfg, id, StampIdentity(NewIdentity(cfg, t, id, now), now), t.job)
  {
  }

  lemma StepKeepsSourced(cfg: Config, w: World, l: Label)
    requires Inv(cfg, w) && JobsInv(w) && Sourced(cfg, w) && Enabled(cfg, w, l)
    ensures Sourced(cfg, Next(cfg, w, l))
  {
    hide P.ValidateInput, FromJob, Nested, AnswerSound, TaskSound, BestOf, DecisionOf, MatchResponse, NewResponse;
    JobsArePermanent(cfg, w, l);
    StepGrows(cfg, w, l);
    var w' := Next(cfg, w, l);
    forall id | id in w'.store.identities
      ensures exists t :: t in w'.jobs && FromJob(cfg, id, w'.store.identities[id], w'.jobs[t])
    {
      if id in w.store.identities {
        var t :| t in w.jobs && FromJob(cfg, id, w.store.identities[id], w.jobs[t]);
        assert t in w'.jobs && w'.jobs[t] == w.jobs[t];
      } else {
        AddedIsFromJob(cfg, w, l, id);
      }
    }
  }

  lemma AddedIsFromJob(cfg: Config, w: World, l: Label, id: string)
    requires Inv(cfg, w) && JobsInv(w) && Enabled(cfg, w, l)
    requires id in Next(cfg, w, l).store.identities && id !in w.store.identities
    ensures exists t :: t in Next(cfg, w, l).jobs && FromJob(cfg, id, Next(cfg, w, l).store.identities[id], Next(cfg, w, l).jobs[t])
  {
    hide P.ValidateInput, FromJob, Nested, AnswerSound, TaskSound, BestOf, DecisionOf, MatchResponse, NewResponse,
      NewIdentity, StampIdentity;
    OnlyPendingIsAdded(cfg, w, l, id);
    JobsArePermanent(cfg, w, l);
    var p, w' := w.procs[l.pid], Next(cfg, w, l);
    assert ProcSound(cfg, w, p) && ProcKnown(w, p);
    NewIdentityIsFromJob(cfg, p.task, id, l.now);
    assert p.PuttingMeta? && p.task.job.txn in w'.jobs;
  }

  lemma {:induction false} RunKeepsSourced(cfg: Config, ws: seq<World>, ls: seq<Label>, i: nat)
    requires Run(cfg, ws, ls) && i < |ws|
    ensures Sourced(cfg, ws[i])
  {
    hide Inv, JobsInv, WritesInv, Submitted, Enabled, Next, FromJob;
    if i > 0 {
      RunKeepsSourced(cfg, ws, ls, i - 1);
      RunKeepsInv(cfg, ws, ls, i - 1);
      RunKeepsStatusInv(cfg, ws, ls, i - 1);
      StepKeepsSourced(cfg, ws[i - 1], ls[i - 1]);
    }
  }

  /** In every run every stored identity carries the hashes and the DID of an enrolment that was validated and submitted. */
  lemma IdentitiesAreEnrolled(cfg: Config, ws: seq<World>, ls: seq<Label>, i: nat, id: string) returns (job: Job)
    requires Run(cfg, ws, ls) && i < |ws| && id in ws[i].store.identities
    ensures job.txn in ws[i].jobs && ws[i].jobs[job.txn] == job && Validated(cfg, job)
    ensures FromJob(cfg, id, ws[i].store.identities[id], job)
  {
    hide FromJob, JobsInv, WritesInv, P.ValidateInput;
    RunKeepsSourced(cfg, ws, ls, i);
    RunKeepsStatusInv(cfg, ws, ls, i);
    var t :| t in ws[i].jobs && FromJob(cfg, id, ws[i].store.identities[id], ws[i].jobs[t]);
    job := ws[i].jobs[t];
  }

  // ---------- what MATCHED means ----------

  /** The keyed hash does not collide on the demographics of the submitted jobs. */
  ghost predicate NoCollision(cfg: Config, w: World) {
    forall a, b | a in w.jobs && b in w.jobs ::
      var x := P.Joined(cfg.unicode, [w.jobs[a].dob, w.jobs[a].gender]);
      var y := P.Joined(cfg.unicode, [w.jobs[b].dob, w.jobs[b].gender]);
      cfg.mac(x) == cfg.mac(y) ==> x == y
  }

  /** In every run a verification that is anything more than NO_MATCH was of a live person, and one that is MATCHED names a stored
      identity that was enrolled with the same date of birth and, up to outer white space and case, the same gender, of
      which the searches returned a face and a name at or above the thresholds. */
  lemma MatchedIsTheSamePerson(cfg: Config, ws: seq<World>, ls: seq<Label>, i: nat, d: Done) returns (enrolled: Job)
    requires Run(cfg, ws, ls) && i < |ws| && d in ws[i].done && d.task.job.typ == Verify && NoCollision(cfg, ws[i])
    ensures d.resp.decision != NoMatch ==> d.task.live.passed
    ensures d.resp.decision == Matched ==>
              && d.resp.id in ws[i].store.identities && FromJob(cfg, d.resp.id, ws[i].store.identities[d.resp.id], enrolled)
              && enrolled.txn in ws[i].jobs && ws[i].jobs[enrolled.txn] == enrolled
              && enrolled.dob == d.task.job.dob && Text.SameText(cfg.unicode, enrolled.gender, d.task.job.gender)
              && (exists h :: h in d.task.face && h.id == d.resp.id && h.score >= cfg.th.faceMatch)
              && (cfg.th.nameMatch > 0.0 ==> exists h :: h in d.task.names && h.id == d.resp.id && h.score >= cfg.th.nameMatch)
  {
    hide Run, P.ValidateInput, Explained, NoCollision, Enrolled, Outdone, Text.SameText, P.Joined;
    var c := ResponsesAreExplained(cfg, ws, ls, i, d);
    MatchedEvidence(cfg, ws[i].store.identities, d.task.job, d.task.live, d.task.face, d.task.names, c, d.resp);
    if d.resp.decision == Matched {
      enrolled := IdentitiesAreEnrolled(cfg, ws, ls, i, d.resp.id);
      SameHashSamePerson(cfg, ws, ls, i, d, enrolled);
    } else {
      enrolled := d.task.job;
    }
  }

  lemma MatchedEvidence(cfg: Config, ids: map<string, IdentityMetadata>, job: Job, live: Liveness,
                        face: seq<Hit>, names: seq<Hit>, c: Candidate, resp: Response)
    requires Explained(cfg, ids, job, live, face, names, c, resp) && job.typ == Verify
    ensures resp.decision != NoMatch ==> live.passed
    ensures resp.decision == Matched ==>
              && resp.id in ids && ids[resp.id].demographicHash == cfg.mac(P.Joined(cfg.unicode, [job.dob, job.gender]))
              && (exists h :: h in face && h.id == resp.id && h.score >= cfg.th.faceMatch)
              && (cfg.th.nameMatch > 0.0 ==> exists h :: h in names && h.id == resp.id && h.score >= cfg.th.nameMatch)
  {
    if resp.decision == Matched {
      assert Hit(c.id, c.face) in face;
      assert c.name == 0.0 || Hit(c.id, c.name) in names;
    }
  }

  lemma SameHashSamePerson(cfg: Config, ws: seq<World>, ls: seq<Label>, i: nat, d: Done, enrolled: Job)
    requires Run(cfg, ws, ls) && i < |ws| && d in ws[i].done && NoCollision(cfg, ws[i])
    requires enrolled.txn in ws[i].jobs && ws[i].jobs[enrolled.txn] == enrolled && Validated(cfg, enrolled)
    requires cfg.mac(P.Joined(cfg.unicode, [enrolled.dob, enrolled.gender])) == DemoHash(cfg, d.task.job)
    ensures enrolled.dob == d.task.job.dob && Text.SameText(cfg.unicode, enrolled.gender, d.task.job.gender)
  {
    AnsweredJobsWereSubmitted(cfg, ws, ls, i, d);
    var x, y := enrolled, d.task.job;
    hide Run, P.Joined, P.ValidateInput, Text.SameText;
    P.DemographicPreimagesEqualIff(cfg.unicode,
      P.Input(x.image, x.name, x.dob, x.gender), P.Input(y.image, y.name, y.dob, y.gender));
  }
}
