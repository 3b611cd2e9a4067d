/**
 What every run of the pipeline keeps about the status of a transaction: the
 order of its writes, the shape of its records, and the job behind it.
 */
module PipelineStatus {
  import opened Domain
  import opened Metadata
  import opened Decisions
  import opened Pipeline
  import P = Preimage
  import Text
  import S = PipelineStores

  // ---------- all runs ----------

  /** The transaction a process works for. */
  function TxnOf(p: Proc): string {
    match p
    case Accepting(job) => job.txn
    case Publishing(job) => job.txn
    case Refusing(job, _) => job.txn
    case Opening(evt) => evt.txn
    case Failing(txn, _, _) => txn
    case _ => p.task.job.txn
  }

  predicate Known(w: World, job: Job) {
    job.txn in w.jobs && w.jobs[job.txn] == job
  }

  predicate EventKnown(w: World, evt: Event) {
    evt.kind == JOB_SUBMITTED ==> Known(w, evt.job) && evt.txn == evt.job.txn && evt.topic == evt.job.typ
  }

  predicate ProcKnown(w: World, p: Proc) {
    match p
    case Accepting(job) => Known(w, job)
    case Publishing(job) => Known(w, job)
    case Refusing(job, _) => Known(w, job)
    case Opening(evt) => evt.kind == JOB_SUBMITTED && EventKnown(w, evt)
    case Failing(txn, typ, _) => txn in w.jobs && w.jobs[txn].typ == typ
    case _ => Known(w, p.task.job)
  }

  ghost predicate JobsInv(w: World) {
    && (forall k | 0 <= k < |w.log| :: EventKnown(w, w.log[k]))
    && (forall pid | pid in w.procs :: ProcKnown(w, w.procs[pid]))
    && (forall d | d in w.done :: Known(w, d.task.job))
    && (forall rec | rec in w.writes :: RecordKnown(w, rec))
  }

  /** A record is of the submitted type and keeps the callback address, which only the worker's last resort leaves out. */
  predicate RecordKnown(w: World, rec: StatusRecord) {
    && rec.txn in w.jobs && rec.typ == w.jobs[rec.txn].typ
    && (rec.callback == w.jobs[rec.txn].callback || (rec.callback == "" && rec.status == Failed))
  }

  ghost predicate Submitted(cfg: Config, w: World) {
    forall t | t in w.jobs :: w.jobs[t].txn == t && !w.jobs[t].typ.Other? && Validated(cfg, w.jobs[t])
  }

  predicate Validated(cfg: Config, job: Job) {
    P.ValidateInput(cfg.unicode, P.Input(job.image, job.name, job.dob, job.gender)) == P.Valid
  }

  /** Submitted jobs are never altered, so whatever was known stays known. */
  lemma JobsArePermanent(cfg: Config, w: World, l: Label)
    requires Enabled(cfg, w, l)
    ensures forall t | t in w.jobs :: t in Next(cfg, w, l).jobs && Next(cfg, w, l).jobs[t] == w.jobs[t]
  {
  }

  /** A process keeps working for its transaction and on its job. */
  lemma MoveKeepsJob(cfg: Config, w: World, p: Proc, ans: Answer, now: Time)
    requires JobsInv(w) && ProcKnown(w, p) && Fits(p, ans)
    ensures var q := Move(cfg, w, p, ans, now).0;
            q.Some? ==> TxnOf(q.value) == TxnOf(p) && ProcKnown(w, q.value) && !q.value.Accepting?
  {
  }

  lemma OthersStayKnown(cfg: Config, w: World, l: Label, pid: nat)
    requires JobsInv(w) && Enabled(cfg, w, l) && pid in w.procs
    ensures ProcKnown(Next(cfg, w, l), w.procs[pid])
  {
    JobsArePermanent(cfg, w, l);
    assert ProcKnown(w, w.procs[pid]);
  }

  lemma StepKeepsProcsKnown(cfg: Config, w: World, l: Label)
    requires JobsInv(w) && Enabled(cfg, w, l)
    ensures forall pid | pid in Next(cfg, w, l).procs :: ProcKnown(Next(cfg, w, l), Next(cfg, w, l).procs[pid])
  {
    var w' := Next(cfg, w, l);
    forall pid | pid in w'.procs ensures ProcKnown(w', w'.procs[pid]) {
      if l.Foreign? || pid != l.pid {
        OthersStayKnown(cfg, w, l, pid);
      } else if l.Advance? {
        MoverStaysKnown(cfg, w, l);
      } else if l.Deliver? {
        assert EventKnown(w, w.log[l.offset]);
      }
    }
  }

  lemma MoverStaysKnown(cfg: Config, w: World, l: Label)
    requires JobsInv(w) && Enabled(cfg, w, l) && l.Advance? && l.pid in Next(cfg, w, l).procs
    ensures ProcKnown(Next(cfg, w, l), Next(cfg, w, l).procs[l.pid])
  {
    JobsArePermanent(cfg, w, l);
    assert ProcKnown(w, w.procs[l.pid]);
    MoveKeepsJob(cfg, w, w.procs[l.pid], l.ans, l.now);
  }

  lemma StepKeepsLogKnown(cfg: Config, w: World, l: Label)
    requires JobsInv(w) && Enabled(cfg, w, l)
    ensures forall k | 0 <= k < |Next(cfg, w, l).log| :: EventKnown(Next(cfg, w, l), Next(cfg, w, l).log[k])
  {
    hide P.ValidateInput, BestOf, MatchResponse, NewResponse, DecisionOf, SaveStatus, SaveIdentity;
    JobsArePermanent(cfg, w, l);
    if l.Advance? {
      assert ProcKnown(w, w.procs[l.pid]);
    }
    var w' := Next(cfg, w, l);
    forall k | 0 <= k < |w'.log| ensures EventKnown(w', w'.log[k]) {
      if k < |w.log| {
        assert EventKnown(w, w.log[k]);
      }
    }
  }

  lemma StepKeepsDoneKnown(cfg: Config, w: World, l: Label)
    requires JobsInv(w) && Enabled(cfg, w, l)
    ensures forall d | d in Next(cfg, w, l).done :: Known(Next(cfg, w, l), d.task.job)
  {
    hide P.ValidateInput, Move, Apply, RecordKnown, EventKnown;
    JobsArePermanent(cfg, w, l);
    if l.Advance? {
      EffectOnHistory(w, Move(cfg, w, w.procs[l.pid], l.ans, l.now).1, l.now);
      assert ProcKnown(w, w.procs[l.pid]);
    }
  }

  /** An effect adds to the writes at most the record it is. */
  lemma EffectOnHistory(w: World, e: Effect, now: Time)
    ensures var w' := Apply(w, e, now);
            && w'.jobs == w.jobs && w'.done == w.done
            && w'.writes == w.writes + if e.PutStatus? then [StampStatus(e.rec, now)] else []
  {
  }

  lemma MoveWritesKnown(cfg: Config, w: World, p: Proc, ans: Answer, now: Time)
    requires ProcKnown(w, p) && Fits(p, ans) && Move(cfg, w, p, ans, now).1.PutStatus?
    ensures RecordKnown(w, StampStatus(Move(cfg, w, p, ans, now).1.rec, now))
  {
    hide BestOf, MatchResponse, NewResponse, DecisionOf;
  }

  lemma StepKeepsWritesKnown(cfg: Config, w: World, l: Label)
    requires JobsInv(w) && Enabled(cfg, w, l)
    ensures forall rec | rec in Next(cfg, w, l).writes :: RecordKnown(Next(cfg, w, l), rec)
  {
    hide P.ValidateInput, Move, Apply, StampStatus, EventKnown;
    JobsArePermanent(cfg, w, l);
    if l.Advance? {
      var e := Move(cfg, w, w.procs[l.pid], l.ans, l.now).1;
      EffectOnHistory(w, e, l.now);
      assert ProcKnown(w, w.procs[l.pid]);
      if e.PutStatus? {
        MoveWritesKnown(cfg, w, w.procs[l.pid], l.ans, l.now);
      }
    }
    var w' := Next(cfg, w, l);
    forall rec | rec in w'.writes ensures RecordKnown(w', rec) {
      if rec in w.writes {
        assert RecordKnown(w, rec);
      }
    }
  }

  lemma StepKeepsJobs(cfg: Config, w: World, l: Label)
    requires JobsInv(w) && Enabled(cfg, w, l)
    ensures JobsInv(Next(cfg, w, l))
  {
    StepKeepsProcsKnown(cfg, w, l);
    StepKeepsLogKnown(cfg, w, l);
    StepKeepsDoneKnown(cfg, w, l);
    StepKeepsWritesKnown(cfg, w, l);
  }

  ghost predicate Written(writes: seq<StatusRecord>, t: string) {
    exists i :: 0 <= i < |writes| && writes[i].txn == t
  }

  /** The writes of ACCEPTED are exactly the first writes of the transactions. */
  ghost predicate AcceptedFirst(writes: seq<StatusRecord>) {
    forall j | 0 <= j < |writes| :: writes[j].status == Accepted <==> !Written(writes[..j], writes[j].txn)
  }

  /** A result exactly when COMPLETED, an error only when FAILED. */
  predicate Shaped(rec: StatusRecord) {
    (rec.result.Some? <==> rec.status == Completed) && (rec.error != "" ==> rec.status == Failed)
  }

  function LastWrite(writes: seq<StatusRecord>, t: string): Option<StatusRecord> {
    if writes == [] then None
    else if writes[|writes| - 1].txn == t then Some(writes[|writes| - 1])
    else LastWrite(writes[..|writes| - 1], t)
  }

  function Stored(w: World, t: string): Option<StatusRecord> {
    if t in w.store.statuses then Some(w.store.statuses[t]) else None
  }

  /** A transaction that is about to be accepted has left no trace yet; any other has been written. */
  ghost predicate Untouched(w: World, pid: nat)
    requires pid in w.procs
  {
    var t := TxnOf(w.procs[pid]);
    && !Written(w.writes, t)
    && (forall k | 0 <= k < |w.log| :: w.log[k].kind == JOB_SUBMITTED ==> w.log[k].txn != t)
    && (forall q | q in w.procs && q != pid :: TxnOf(w.procs[q]) != t)
  }

  ghost predicate WritesInv(w: World) {
    && AcceptedFirst(w.writes)
    && (forall rec | rec in w.writes :: Shaped(rec))
    && (forall t :: Stored(w, t) == LastWrite(w.writes, t))
    && (forall pid | pid in w.procs ::
          if w.procs[pid].Accepting? then Untouched(w, pid) else Written(w.writes, TxnOf(w.procs[pid])))
    && (forall k | 0 <= k < |w.log| && w.log[k].kind == JOB_SUBMITTED :: Written(w.writes, w.log[k].txn))
  }

  lemma AppendWrite(writes: seq<StatusRecord>, rec: StatusRecord)
    requires AcceptedFirst(writes) && (rec.status == Accepted <==> !Written(writes, rec.txn))
    ensures AcceptedFirst(writes + [rec])
    ensures forall t :: Written(writes + [rec], t) <==> Written(writes, t) || t == rec.txn
    ensures forall t :: LastWrite(writes + [rec], t) == if t == rec.txn then Some(rec) else LastWrite(writes, t)
  {
    var more := writes + [rec];
    assert more[..|writes|] == writes;
    AppendKeepsFirst(writes, rec);
    hide AcceptedFirst;
    forall t ensures Written(more, t) <==> Written(writes, t) || t == rec.txn {
      if Written(writes, t) {
        var i :| 0 <= i < |writes| && writes[i].txn == t;
        assert more[i].txn == t;
      }
      assert more[|writes|] == rec;
    }
  }

  lemma AppendKeepsFirst(writes: seq<StatusRecord>, rec: StatusRecord)
    requires AcceptedFirst(writes) && (rec.status == Accepted <==> !Written(writes, rec.txn))
    ensures AcceptedFirst(writes + [rec])
  {
    hide Written;
    var more := writes + [rec];
    forall j | 0 <= j < |more| ensures more[j].status == Accepted <==> !Written(more[..j], more[j].txn) {
      if j < |writes| {
        assert more[..j] == writes[..j];
      } else {
        assert more[..j] == writes;
      }
    }
  }

  /** The status record a process is about to write. */
  function AboutToWrite(cfg: Config, w: World, p: Proc, ans: Answer, now: Time): Option<StatusRecord>
    requires Fits(p, ans)
  {
    match Move(cfg, w, p, ans, now).1
    case PutStatus(rec) => Some(StampStatus(rec, now))
    case _ => None
  }

  /** Records are well shaped, belong to the process's transaction, and only the acceptance writes ACCEPTED. */
  lemma RecordWritten(cfg: Config, w: World, p: Proc, ans: Answer, now: Time)
    requires Fits(p, ans) && AboutToWrite(cfg, w, p, ans, now).Some?
    ensures var rec := AboutToWrite(cfg, w, p, ans, now).value;
            Shaped(rec) && rec.txn == TxnOf(p) && (rec.status == Accepted <==> p.Accepting?)
  {
  }

  /** A step leaves the writes alone or appends the moving process's record. */
  lemma StepWrites(cfg: Config, w: World, l: Label)
    requires WritesInv(w) && Enabled(cfg, w, l)
    ensures var w' := Next(cfg, w, l);
            || (w'.writes == w.writes && w'.store.statuses == w.store.statuses)
            || (l.Advance? && AboutToWrite(cfg, w, w.procs[l.pid], l.ans, l.now).Some?
                && var rec := AboutToWrite(cfg, w, w.procs[l.pid], l.ans, l.now).value;
                  w'.writes == w.writes + [rec] && w'.store.statuses == w.store.statuses[rec.txn := rec])
  {
    hide P.ValidateInput, BestOf, MatchResponse, NewResponse, DecisionOf, WritesInv;
  }

  lemma StepKeepsRecords(cfg: Config, w: World, l: Label)
    requires WritesInv(w) && Enabled(cfg, w, l)
    ensures var w' := Next(cfg, w, l);
            && AcceptedFirst(w'.writes)
            && (forall rec | rec in w'.writes :: Shaped(rec))
            && (forall t :: Stored(w', t) == LastWrite(w'.writes, t))
            && (forall t :: Written(w.writes, t) ==> Written(w'.writes, t))
  {
    StepWrites(cfg, w, l);
    var w' := Next(cfg, w, l);
    if w'.writes != w.writes {
      var p := w.procs[l.pid];
      var rec := AboutToWrite(cfg, w, p, l.ans, l.now).value;
      RecordWritten(cfg, w, p, l.ans, l.now);
      AppendWrite(w.writes, rec);
    }
  }

  /** A process on its way to being accepted is left alone by everybody else's steps. */
  lemma UntouchedStays(cfg: Config, w: World, l: Label, pid: nat)
    requires JobsInv(w) && WritesInv(w) && Enabled(cfg, w, l)
    requires pid in w.procs && w.procs[pid].Accepting? && (l.Foreign? || l.pid != pid)
    ensures pid in Next(cfg, w, l).procs && Untouched(Next(cfg, w, l), pid)
  {
    hide P.ValidateInput, AcceptedFirst, Stored, LastWrite, Move, Apply;
    var w', t := Next(cfg, w, l), TxnOf(w.procs[pid]);
    assert ProcKnown(w, w.procs[pid]) && Untouched(w, pid);
    StepWrites(cfg, w, l);
    if w'.writes != w.writes {
      AppendedElsewhere(cfg, w, l);
    }
    LogStaysClear(cfg, w, l, pid);
    forall q | q in w'.procs && q != pid ensures TxnOf(w'.procs[q]) != t {
      if l.Advance? && q == l.pid {
        assert ProcKnown(w, w.procs[q]);
        MoveKeepsJob(cfg, w, w.procs[q], l.ans, l.now);
      }
    }
  }

  lemma LogStaysClear(cfg: Config, w: World, l: Label, pid: nat)
    requires JobsInv(w) && WritesInv(w) && Enabled(cfg, w, l)
    requires pid in w.procs && w.procs[pid].Accepting? && (l.Foreign? || l.pid != pid)
    ensures var w' := Next(cfg, w, l);
            forall k | 0 <= k < |w'.log| && w'.log[k].kind == JOB_SUBMITTED :: w'.log[k].txn != TxnOf(w.procs[pid])
  {
    hide P.ValidateInput, BestOf, MatchResponse, NewResponse, DecisionOf, AcceptedFirst, Stored, LastWrite,
      JobsInv, Shaped, SaveStatus, SaveIdentity, NewIdentity, Record;
    assert Untouched(w, pid);
  }

  lemma AppendedElsewhere(cfg: Config, w: World, l: Label)
    requires WritesInv(w) && Enabled(cfg, w, l) && l.Advance? && Next(cfg, w, l).writes != w.writes
    ensures forall t :: Written(Next(cfg, w, l).writes, t) <==> Written(w.writes, t) || t == TxnOf(w.procs[l.pid])
  {
    StepWrites(cfg, w, l);
    var p := w.procs[l.pid];
    RecordWritten(cfg, w, p, l.ans, l.now);
    AppendWrite(w.writes, AboutToWrite(cfg, w, p, l.ans, l.now).value);
  }

  lemma SubmittedIsUntouched(cfg: Config, w: World, l: Label)
    requires JobsInv(w) && WritesInv(w) && Enabled(cfg, w, l) && l.Submit?
    ensures Untouched(Next(cfg, w, l), l.pid)
  {
    forall j | 0 <= j < |w.writes| ensures w.writes[j].txn != l.job.txn {
      assert w.writes[j] in w.writes && RecordKnown(w, w.writes[j]);
    }
    forall k | 0 <= k < |w.log| && w.log[k].kind == JOB_SUBMITTED ensures w.log[k].txn != l.job.txn {
      assert EventKnown(w, w.log[k]);
    }
    forall q | q in w.procs ensures TxnOf(w.procs[q]) != l.job.txn {
      assert ProcKnown(w, w.procs[q]);
    }
  }

  lemma StepKeepsProgress(cfg: Config, w: World, l: Label)
    requires JobsInv(w) && WritesInv(w) && Enabled(cfg, w, l)
    ensures var w' := Next(cfg, w, l);
            forall pid | pid in w'.procs ::
              if w'.procs[pid].Accepting? then Untouched(w', pid) else Written(w'.writes, TxnOf(w'.procs[pid]))
  {
    var w' := Next(cfg, w, l);
    StepKeepsRecords(cfg, w, l);
    forall pid | pid in w'.procs
      ensures if w'.procs[pid].Accepting? then Untouched(w', pid) else Written(w'.writes, TxnOf(w'.procs[pid]))
    {
      if l.Foreign? || pid != l.pid {
        if w.procs[pid].Accepting? {
          UntouchedStays(cfg, w, l, pid);
        } else {
          assert Written(w.writes, TxnOf(w.procs[pid]));
        }
      } else if l.Submit? {
        SubmittedIsUntouched(cfg, w, l);
      } else if l.Advance? {
        assert ProcKnown(w, w.procs[pid]);
        MoveKeepsJob(cfg, w, w.procs[pid], l.ans, l.now);
        if w.procs[pid].Accepting? {
          assert w'.writes != w.writes;
          AppendedElsewhere(cfg, w, l);
        }
      }
    }
  }

  lemma StepKeepsLogWritten(cfg: Config, w: World, l: Label)
    requires JobsInv(w) && WritesInv(w) && Enabled(cfg, w, l)
    ensures var w' := Next(cfg, w, l);
            forall k | 0 <= k < |w'.log| && w'.log[k].kind == JOB_SUBMITTED :: Written(w'.writes, w'.log[k].txn)
  {
    hide P.ValidateInput, BestOf, MatchResponse, NewResponse, DecisionOf, AcceptedFirst, Stored, LastWrite, JobsInv;
    StepKeepsRecords(cfg, w, l);
    if l.Advance? {
      assert !w.procs[l.pid].Accepting? ==> Written(w.writes, TxnOf(w.procs[l.pid]));
    }
  }

  lemma StepKeepsWrites(cfg: Config, w: World, l: Label)
    requires JobsInv(w) && WritesInv(w) && Enabled(cfg, w, l)
    ensures WritesInv(Next(cfg, w, l))
  {
    StepKeepsRecords(cfg, w, l);
    StepKeepsProgress(cfg, w, l);
    StepKeepsLogWritten(cfg, w, l);
  }

  // ---------- theorems of all runs ----------

  lemma StepKeepsSubmitted(cfg: Config, w: World, l: Label)
    requires Submitted(cfg, w) && Enabled(cfg, w, l)
    ensures Submitted(cfg, Next(cfg, w, l))
  {
    hide P.ValidateInput, Move, Apply, Fits;
    var w' := Next(cfg, w, l);
    if l.Advance? {
      EffectOnHistory(w, Move(cfg, w, w.procs[l.pid], l.ans, l.now).1, l.now);
    }
    forall t | t in w'.jobs
      ensures w'.jobs[t].txn == t && !w'.jobs[t].typ.Other? && Validated(cfg, w'.jobs[t])
    {
      if !l.Submit? || t != l.job.txn {
        assert Validated(cfg, w.jobs[t]);
      }
    }
  }

  lemma {:induction false} RunKeepsStatusInv(cfg: Config, ws: seq<World>, ls: seq<Label>, i: nat)
    requires Run(cfg, ws, ls) && i < |ws|
    ensures Submitted(cfg, ws[i]) && JobsInv(ws[i]) && WritesInv(ws[i])
  {
    if i > 0 {
      RunKeepsStatusInv(cfg, ws, ls, i - 1);
      StepKeepsSubmitted(cfg, ws[i - 1], ls[i - 1]);
      StepKeepsJobs(cfg, ws[i - 1], ls[i - 1]);
      StepKeepsWrites(cfg, ws[i - 1], ls[i - 1]);
    }
  }

  /** In every run, redelivery and lost writes included, ACCEPTED is the first status written
      for a transaction and is never written again. */
  lemma AcceptedOnceAndFirst(cfg: Config, ws: seq<World>, ls: seq<Label>, i: nat, j: nat)
    requires Run(cfg, ws, ls) && i < |ws| && j < |ws[i].writes|
    ensures ws[i].writes[j].status == Accepted <==>
            forall k | 0 <= k < j :: ws[i].writes[k].txn != ws[i].writes[j].txn
  {
    RunKeepsStatusInv(cfg, ws, ls, i);
    var writes, t := ws[i].writes, ws[i].writes[j].txn;
    assert forall k | 0 <= k < j :: writes[..j][k] == writes[k];
  }

  /** In every run a job is on the queue only after its ACCEPTED has been written. */
  lemma QueuedJobsWereAccepted(cfg: Config, ws: seq<World>, ls: seq<Label>, i: nat, k: nat)
    requires Run(cfg, ws, ls) && i < |ws| && k < |ws[i].log| && ws[i].log[k].kind == JOB_SUBMITTED
    ensures exists j :: 0 <= j < |ws[i].writes| && ws[i].writes[j].txn == ws[i].log[k].txn
                        && ws[i].writes[j].status == Accepted
  {
    RunKeepsStatusInv(cfg, ws, ls, i);
    var writes := ws[i].writes;
    assert writes[..|writes|] == writes;
    FirstWriteAccepts(writes, |writes|, ws[i].log[k].txn);
  }

  lemma {:induction false} FirstWriteAccepts(writes: seq<StatusRecord>, n: nat, t: string)
    requires AcceptedFirst(writes) && n <= |writes| && Written(writes[..n], t)
    ensures exists j :: 0 <= j < |writes| && writes[j].txn == t && writes[j].status == Accepted
  {
    var j :| 0 <= j < n && writes[..n][j].txn == t;
    if Written(writes[..j], t) {
      FirstWriteAccepts(writes, j, t);
    } else {
      assert writes[j].status == Accepted;
    }
  }

  /** In every run the stored record of a transaction is its last write, of the submitted type and with its callback
      address unless the worker has failed it, with a result exactly when COMPLETED and an error only when FAILED. */
  lemma StoredRecordsAreShaped(cfg: Config, ws: seq<World>, ls: seq<Label>, i: nat, t: string)
    requires Run(cfg, ws, ls) && i < |ws| && t in ws[i].store.statuses
    ensures var rec := ws[i].store.statuses[t];
            && LastWrite(ws[i].writes, t) == Some(rec) && rec.txn == t
            && (rec.result.Some? <==> rec.status == Completed)
            && (rec.error != "" ==> rec.status == Failed)
            && t in ws[i].jobs && rec.typ == ws[i].jobs[t].typ
            && (rec.callback == ws[i].jobs[t].callback || (rec.callback == "" && rec.status == Failed))
  {
    RunKeepsStatusInv(cfg, ws, ls, i);
    assert Stored(ws[i], t) == LastWrite(ws[i].writes, t);
    LastWriteIn(ws[i].writes, t);
  }

  lemma {:induction false} LastWriteIn(writes: seq<StatusRecord>, t: string)
    requires LastWrite(writes, t).Some?
    ensures LastWrite(writes, t).value in writes && LastWrite(writes, t).value.txn == t
  {
    if writes[|writes| - 1].txn != t {
      LastWriteIn(writes[..|writes| - 1], t);
    }
  }

  /** In every run a worker answers exactly the job that was validated and submitted under the transaction. */
  lemma AnsweredJobsWereSubmitted(cfg: Config, ws: seq<World>, ls: seq<Label>, i: nat, d: Done)
    requires Run(cfg, ws, ls) && i < |ws| && d in ws[i].done
    ensures d.task.job.txn in ws[i].jobs && ws[i].jobs[d.task.job.txn] == d.task.job
    ensures Validated(cfg, d.task.job)
  {
    RunKeepsStatusInv(cfg, ws, ls, i);
    assert Known(ws[i], d.task.job);
  }

  /** The recognition theorem in terms of the submitted demographics: the same date of birth, and the same
      gender up to white space and case, make a later enrolment ALREADY_EXISTS and a later live verification MATCHED. */
  lemma SamePersonIsRecognised(cfg: Config, ws: seq<World>, ls: seq<Label>, i: nat, a: nat, b: nat)
    requires Run(cfg, ws, ls) && i < |ws| && a < |ws[i].done| && b < |ws[i].done|
    requires ws[i].done[a].resp.decision == NewUser && a < ws[i].done[b].task.since
    requires ws[i].done[a].task.job.dob == ws[i].done[b].task.job.dob
    requires Text.SameText(cfg.unicode, ws[i].done[a].task.job.gender, ws[i].done[b].task.job.gender)
    requires S.SeesPerfectly(ws[i].done[b].task, ws[i].done[a].resp.id)
    requires cfg.th.nameMatch <= NAME_SLACK
    ensures ws[i].done[b].task.job.typ == Enroll && cfg.th.faceDup <= FACE_SLACK ==>
              ws[i].done[b].resp.decision == AlreadyExists
    ensures ws[i].done[b].task.job.typ != Enroll && ws[i].done[b].task.live.passed && cfg.th.faceMatch <= FACE_SLACK ==>
              ws[i].done[b].resp.decision == Matched
  {
    var x, y := ws[i].done[a].task.job, ws[i].done[b].task.job;
    AnsweredJobsWereSubmitted(cfg, ws, ls, i, ws[i].done[a]);
    AnsweredJobsWereSubmitted(cfg, ws, ls, i, ws[i].done[b]);
    P.DemographicPreimagesEqualIff(cfg.unicode,
      P.Input(x.image, x.name, x.dob, x.gender), P.Input(y.image, y.name, y.dob, y.gender));
    S.EnrolmentIsRecognised(cfg, ws, ls, i, a, b);
  }
}
