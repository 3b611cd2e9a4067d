/**
 The order of the statuses of one transaction when every event is delivered at
 most once, a publish queues at most one record and a publish that reports
 failure has queued none: ACCEPTED, PROCESSING, then one of COMPLETED and FAILED
 for good.
 */
module PipelineOrder {
  import opened Domain
  import opened Metadata
  import opened Pipeline
  import opened PipelineStatus

  function Rank(s: Status): nat {
    match s
    case Accepted => 0
    case Processing => 1
    case Completed => 2
    case Failed => 2
  }

  /** Later in the life of a transaction, or unchanged; the two final statuses exclude each other. */
  predicate NotBefore(s: Status, s': Status) {
    s == s' || Rank(s) < Rank(s')
  }

  predicate Publishes(w: World, l: Label) {
    l.Advance? && l.pid in w.procs && w.procs[l.pid].Publishing?
  }

  /** No record is delivered a second time. */
  predicate SingleDelivery(w: World, l: Label) {
    l.Deliver? ==> l.offset !in w.delivered
  }

  /** A publish that reports failure has not queued its record. */
  predicate CleanFailure(w: World, l: Label) {
    Publishes(w, l) && l.ans.Nack? ==> !l.ans.applied
  }

  /** A post that is repeated has not queued its record, so one publish queues one record. */
  predicate OneRecord(w: World, l: Label) {
    Publishes(w, l) ==> !l.ans.Again?
  }

  /** None of the three disorders of the message queue. */
  predicate Orderly(w: World, l: Label) {
    SingleDelivery(w, l) && CleanFailure(w, l) && OneRecord(w, l)
  }

  ghost predicate OrderlyRun(cfg: Config, ws: seq<World>, ls: seq<Label>) {
    Run(cfg, ws, ls) && forall i | 0 <= i < |ls| :: Orderly(ws[i], ls[i])
  }

  predicate InApi(p: Proc) {
    p.Accepting? || p.Publishing? || p.Refusing?
  }

  /** What may be stored for the transaction of a process that stands at `p`. */
  predicate MayHave(p: Proc, s: Status) {
    match p
    case Accepting(_) => false
    case Publishing(_) => s == Accepted
    case Refusing(_, _) => s == Accepted
    case Opening(_) => s == Accepted
    case Starting(_) => s == Accepted
    case Failing(_, _, _) => s != Completed
    case Calling(_, _) => true
    case _ => s == Accepted || s == Processing
  }

  predicate IsJob(w: World, k: nat)
    requires k < |w.log|
  {
    w.log[k].kind == JOB_SUBMITTED
  }

  /** One holder per transaction: the request, then one queued event, then one worker. */
  ghost predicate ProcsDistinct(w: World) {
    forall p, q | p in w.procs && q in w.procs && p != q :: TxnOf(w.procs[p]) != TxnOf(w.procs[q])
  }

  ghost predicate EventsDistinct(w: World) {
    forall j, k | 0 <= j < k < |w.log| && IsJob(w, j) && IsJob(w, k) :: w.log[j].txn != w.log[k].txn
  }

  ghost predicate HoldersApart(w: World) {
    forall pid, k | pid in w.procs && 0 <= k < |w.log| && IsJob(w, k) && w.log[k].txn == TxnOf(w.procs[pid]) ::
      !InApi(w.procs[pid]) && k in w.delivered
  }

  ghost predicate ProcsInOrder(w: World) {
    forall pid, t | pid in w.procs && t in w.store.statuses && t == TxnOf(w.procs[pid]) ::
      MayHave(w.procs[pid], w.store.statuses[t].status)
  }

  ghost predicate QueueInOrder(w: World) {
    forall k, t | 0 <= k < |w.log| && IsJob(w, k) && k !in w.delivered && t in w.store.statuses && t == w.log[k].txn ::
      w.store.statuses[t].status == Accepted
  }

  ghost predicate OrderInv(w: World) {
    && JobsInv(w) && WritesInv(w)
    && ProcsDistinct(w) && EventsDistinct(w) && HoldersApart(w)
    && ProcsInOrder(w) && QueueInOrder(w)
  }

  /** A record may follow whatever is stored, and the process may have it stored where it arrives. */
  lemma RecordInOrder(cfg: Config, w: World, p: Proc, ans: Answer, now: Time, s: Status)
    requires Fits(p, ans) && AboutToWrite(cfg, w, p, ans, now).Some?
    ensures var rec := AboutToWrite(cfg, w, p, ans, now).value;
            var q := Move(cfg, w, p, ans, now).0;
            && (MayHave(p, s) ==> NotBefore(s, rec.status))
            && (q.Some? ==> MayHave(q.value, rec.status))
  {
  }

  /** A process that moves without writing may keep what is stored. */
  lemma MoveKeepsBound(cfg: Config, w: World, p: Proc, ans: Answer, now: Time, s: Status)
    requires JobsInv(w) && ProcKnown(w, p) && Fits(p, ans) && MayHave(p, s)
    requires AboutToWrite(cfg, w, p, ans, now).None? || (ans.Nack? && !ans.applied)
    ensures var q := Move(cfg, w, p, ans, now).0;
            q.Some? ==> MayHave(q.value, s)
  {
  }

  /** The status of a transaction never falls in one orderly step. */
  ghost predicate Rises(w: World, w': World) {
    forall t | t in w.store.statuses ::
      t in w'.store.statuses && NotBefore(w.store.statuses[t].status, w'.store.statuses[t].status)
  }

  lemma StepRises(cfg: Config, w: World, l: Label)
    requires OrderInv(w) && Enabled(cfg, w, l)
    ensures Rises(w, Next(cfg, w, l))
  {
    StepWrites(cfg, w, l);
    if l.Advance? {
      var p := w.procs[l.pid];
      if AboutToWrite(cfg, w, p, l.ans, l.now).Some? {
        RecordWritten(cfg, w, p, l.ans, l.now);
        var t := TxnOf(p);
        if t in w.store.statuses {
          RecordInOrder(cfg, w, p, l.ans, l.now, w.store.statuses[t].status);
        }
      }
    }
  }

  lemma MoverInOrder(cfg: Config, w: World, l: Label)
    requires OrderInv(w) && Enabled(cfg, w, l) && l.Advance?
    ensures var w' := Next(cfg, w, l);
            l.pid in w'.procs && TxnOf(w'.procs[l.pid]) in w'.store.statuses ==>
              MayHave(w'.procs[l.pid], w'.store.statuses[TxnOf(w'.procs[l.pid])].status)
  {
    StepWrites(cfg, w, l);
    var p := w.procs[l.pid];
    assert ProcKnown(w, p);
    MoveKeepsJob(cfg, w, p, l.ans, l.now);
    var t, w' := TxnOf(p), Next(cfg, w, l);
    if w'.writes != w.writes {
      RecordWritten(cfg, w, p, l.ans, l.now);
      RecordInOrder(cfg, w, p, l.ans, l.now, Accepted);
    } else if t in w.store.statuses {
      MoveKeepsBound(cfg, w, p, l.ans, l.now, w.store.statuses[t].status);
    }
  }

  lemma OthersInOrder(cfg: Config, w: World, l: Label, pid: nat)
    requires OrderInv(w) && Enabled(cfg, w, l) && Orderly(w, l)
    requires pid in w.procs && (l.Foreign? || l.pid != pid)
    ensures var w' := Next(cfg, w, l);
            pid in w'.procs && (TxnOf(w.procs[pid]) in w'.store.statuses ==>
              MayHave(w.procs[pid], w'.store.statuses[TxnOf(w.procs[pid])].status))
  {
    hide Move, P.ValidateInput, JobsInv, WritesInv;
    StepWrites(cfg, w, l);
    if l.Advance? && AboutToWrite(cfg, w, w.procs[l.pid], l.ans, l.now).Some? {
      RecordWritten(cfg, w, w.procs[l.pid], l.ans, l.now);
    }
  }

  lemma DeliveredInOrder(cfg: Config, w: World, l: Label)
    requires OrderInv(w) && Enabled(cfg, w, l) && Orderly(w, l) && l.Deliver? && IsJob(w, l.offset)
    ensures w.log[l.offset].txn in w.store.statuses ==>
              MayHave(Opening(w.log[l.offset]), w.store.statuses[w.log[l.offset].txn].status)
  {
  }

  lemma ProcsStayInOrder(cfg: Config, w: World, l: Label)
    requires OrderInv(w) && Enabled(cfg, w, l) && Orderly(w, l)
    ensures ProcsInOrder(Next(cfg, w, l))
  {
    var w' := Next(cfg, w, l);
    forall pid, t | pid in w'.procs && t in w'.store.statuses && t == TxnOf(w'.procs[pid])
      ensures MayHave(w'.procs[pid], w'.store.statuses[t].status)
    {
      if l.Foreign? || l.pid != pid {
        OthersInOrder(cfg, w, l, pid);
      } else if l.Advance? {
        MoverInOrder(cfg, w, l);
      } else if l.Deliver? {
        DeliveredInOrder(cfg, w, l);
      } else if l.Submit? {
        StepKeepsWrites(cfg, w, l);
        assert Untouched(w', pid);
        NeverWritten(w', t);
      }
    }
  }

  lemma NeverWritten(w: World, t: string)
    requires WritesInv(w) && !Written(w.writes, t)
    ensures t !in w.store.statuses
  {
    assert Stored(w, t) == LastWrite(w.writes, t);
    if LastWrite(w.writes, t).Some? {
      LastWriteIn(w.writes, t);
      assert false;
    }
  }

  /** The log grows by a foreign event or by the event of a publishing process, whose transaction is not queued yet. */
  lemma LogStep(cfg: Config, w: World, l: Label)
    requires OrderInv(w) && Enabled(cfg, w, l)
    ensures var w' := Next(cfg, w, l);
            || w'.log == w.log
            || (l.Foreign? && w'.log == w.log + [l.evt] && l.evt.kind != JOB_SUBMITTED)
            || (l.Advance? && w.procs[l.pid].Publishing?
                && w'.log == w.log + [w'.log[|w.log|]] && w'.log[|w.log|].txn == TxnOf(w.procs[l.pid])
                && forall k | 0 <= k < |w.log| && IsJob(w, k) :: w.log[k].txn != TxnOf(w.procs[l.pid]))
  {
    hide P.ValidateInput, BestOf, MatchResponse, NewResponse, DecisionOf,
      JobsInv, WritesInv, ProcsInOrder, QueueInOrder, SaveStatus, SaveIdentity;
  }

  lemma DeliveredGrows(cfg: Config, w: World, l: Label)
    requires Enabled(cfg, w, l)
    ensures w.delivered <= Next(cfg, w, l).delivered
  {
  }

  lemma EventsStayDistinct(cfg: Config, w: World, l: Label)
    requires OrderInv(w) && Enabled(cfg, w, l)
    ensures EventsDistinct(Next(cfg, w, l))
  {
    LogStep(cfg, w, l);
    LogExtends(w, Next(cfg, w, l));
  }

  lemma LogExtends(w: World, w': World)
    requires EventsDistinct(w)
    requires w'.log == w.log
             || (|w'.log| == |w.log| + 1 && w'.log[..|w.log|] == w.log
                 && (IsJob(w', |w.log|) ==>
                       forall k | 0 <= k < |w.log| && IsJob(w, k) :: w.log[k].txn != w'.log[|w.log|].txn))
    ensures EventsDistinct(w')
  {
    forall j, k | 0 <= j < k < |w'.log| && IsJob(w', j) && IsJob(w', k) ensures w'.log[j].txn != w'.log[k].txn {
      assert w'.log[j] == w.log[j];
      if k < |w.log| {
        assert w'.log[k] == w.log[k];
        assert IsJob(w, j) && IsJob(w, k);
      } else {
        assert IsJob(w, j);
      }
    }
  }

  lemma QueueStaysInOrder(cfg: Config, w: World, l: Label)
    requires OrderInv(w) && Enabled(cfg, w, l) && Orderly(w, l)
    ensures QueueInOrder(Next(cfg, w, l))
  {
    hide Enabled, Move, Apply, JobsInv, WritesInv, ProcsInOrder, Orderly;
    var w' := Next(cfg, w, l);
    DeliveredGrows(cfg, w, l);
    LogStep(cfg, w, l);
    forall k, t | 0 <= k < |w'.log| && IsJob(w', k) && k !in w'.delivered && t in w'.store.statuses && t == w'.log[k].txn
      ensures w'.store.statuses[t].status == Accepted
    {
      if k < |w.log| {
        assert IsJob(w, k) && k !in w.delivered;
        QueuedIsLeftAlone(cfg, w, l, k);
      } else {
        PublishedIsAccepted(cfg, w, l);
      }
    }
  }

  /** The event a step puts on the queue finds at most ACCEPTED stored for its transaction. */
  lemma PublishedIsAccepted(cfg: Config, w: World, l: Label)
    requires OrderInv(w) && Enabled(cfg, w, l)
    requires var w' := Next(cfg, w, l); |w'.log| > |w.log| && IsJob(w', |w.log|)
    ensures var w' := Next(cfg, w, l);
            |w'.log| == |w.log| + 1 && (w'.log[|w.log|].txn in w'.store.statuses ==>
              w'.store.statuses[w'.log[|w.log|].txn].status == Accepted)
  {
    LogStep(cfg, w, l);
    var w' := Next(cfg, w, l);
    assert w'.store.statuses == w.store.statuses;
  }

  /** Nobody writes the status of a transaction whose event is still waiting. */
  lemma QueuedIsLeftAlone(cfg: Config, w: World, l: Label, k: nat)
    requires OrderInv(w) && Enabled(cfg, w, l) && k < |w.log| && IsJob(w, k) && k !in w.delivered
    ensures var t, w' := w.log[k].txn, Next(cfg, w, l);
            t in w'.store.statuses <==> t in w.store.statuses
    ensures var t, w' := w.log[k].txn, Next(cfg, w, l);
            t in w.store.statuses ==> w'.store.statuses[t] == w.store.statuses[t]
  {
    StepWrites(cfg, w, l);
    if l.Advance? {
      assert w.log[k].txn != TxnOf(w.procs[l.pid]);
      if AboutToWrite(cfg, w, w.procs[l.pid], l.ans, l.now).Some? {
        RecordWritten(cfg, w, w.procs[l.pid], l.ans, l.now);
      }
    }
  }

  lemma ProcsStayDistinct(cfg: Config, w: World, l: Label)
    requires OrderInv(w) && Enabled(cfg, w, l) && Orderly(w, l)
    ensures ProcsDistinct(Next(cfg, w, l))
  {
    var w' := Next(cfg, w, l);
    if l.Advance? {
      assert ProcKnown(w, w.procs[l.pid]);
      MoveKeepsJob(cfg, w, w.procs[l.pid], l.ans, l.now);
    } else if l.Submit? {
      SubmittedIsUntouched(cfg, w, l);
    }
  }

  /** A moving process that goes on has queued nothing, and never turns into a request. */
  lemma GoingOnQueuesNothing(cfg: Config, w: World, l: Label)
    requires Enabled(cfg, w, l) && Orderly(w, l) && l.Advance? && l.pid in Next(cfg, w, l).procs
    ensures Next(cfg, w, l).log == w.log && Next(cfg, w, l).delivered == w.delivered
    ensures InApi(Next(cfg, w, l).procs[l.pid]) ==> InApi(w.procs[l.pid])
  {
    hide P.ValidateInput, BestOf, MatchResponse, NewResponse, DecisionOf, SaveStatus, SaveIdentity;
  }

  lemma HolderAdvances(cfg: Config, w: World, l: Label, k: nat)
    requires OrderInv(w) && Enabled(cfg, w, l) && Orderly(w, l) && l.Advance? && l.pid in Next(cfg, w, l).procs
    requires k < |w.log| && IsJob(w, k) && w.log[k].txn == TxnOf(Next(cfg, w, l).procs[l.pid])
    ensures !InApi(Next(cfg, w, l).procs[l.pid]) && k in w.delivered
  {
    GoingOnQueuesNothing(cfg, w, l);
    assert ProcKnown(w, w.procs[l.pid]);
    MoveKeepsJob(cfg, w, w.procs[l.pid], l.ans, l.now);
    assert TxnOf(w.procs[l.pid]) == w.log[k].txn;
  }

  lemma HolderWaits(cfg: Config, w: World, l: Label, pid: nat, k: nat)
    requires OrderInv(w) && Enabled(cfg, w, l) && pid in w.procs && (l.Foreign? || pid != l.pid)
    requires k < |Next(cfg, w, l).log| && IsJob(Next(cfg, w, l), k) && Next(cfg, w, l).log[k].txn == TxnOf(w.procs[pid])
    ensures !InApi(w.procs[pid]) && k in w.delivered
  {
    hide Move, Apply, P.ValidateInput, JobsInv, WritesInv, ProcsInOrder, QueueInOrder;
    LogStep(cfg, w, l);
    assert k < |w.log| ==> IsJob(w, k);
  }

  lemma HolderArrives(cfg: Config, w: World, l: Label, k: nat)
    requires OrderInv(w) && Enabled(cfg, w, l) && Orderly(w, l) && l.Deliver? && l.pid in Next(cfg, w, l).procs
    requires k < |w.log| && IsJob(w, k) && w.log[k].txn == TxnOf(Next(cfg, w, l).procs[l.pid])
    ensures Next(cfg, w, l).procs[l.pid].Opening? && k == l.offset
  {
  }

  lemma SubmitterIsAlone(cfg: Config, w: World, l: Label)
    requires OrderInv(w) && Enabled(cfg, w, l) && l.Submit?
    ensures forall k | 0 <= k < |w.log| && IsJob(w, k) :: w.log[k].txn != TxnOf(Next(cfg, w, l).procs[l.pid])
  {
    SubmittedIsUntouched(cfg, w, l);
  }

  lemma HolderApart(cfg: Config, w: World, l: Label, pid: nat, k: nat)
    requires OrderInv(w) && Enabled(cfg, w, l) && Orderly(w, l) && pid in Next(cfg, w, l).procs
    requires k < |Next(cfg, w, l).log| && IsJob(Next(cfg, w, l), k)
    requires Next(cfg, w, l).log[k].txn == TxnOf(Next(cfg, w, l).procs[pid])
    ensures !InApi(Next(cfg, w, l).procs[pid]) && k in Next(cfg, w, l).delivered
  {
    hide Move, Apply, Enabled, OrderInv, Orderly;
    DeliveredGrows(cfg, w, l);
    if l.Foreign? || pid != l.pid {
      HolderWaits(cfg, w, l, pid, k);
    } else if l.Advance? {
      GoingOnQueuesNothing(cfg, w, l);
      HolderAdvances(cfg, w, l, k);
    } else if l.Submit? {
      SubmitterIsAlone(cfg, w, l);
    } else {
      HolderArrives(cfg, w, l, k);
    }
  }

  lemma HoldersStayApart(cfg: Config, w: World, l: Label)
    requires OrderInv(w) && Enabled(cfg, w, l) && Orderly(w, l)
    ensures HoldersApart(Next(cfg, w, l))
  {
    hide Next, Enabled, OrderInv, Orderly;
    var w' := Next(cfg, w, l);
    forall pid, k | pid in w'.procs && 0 <= k < |w'.log| && IsJob(w', k) && w'.log[k].txn == TxnOf(w'.procs[pid])
      ensures !InApi(w'.procs[pid]) && k in w'.delivered
    {
      HolderApart(cfg, w, l, pid, k);
    }
  }

  lemma StepKeepsOrder(cfg: Config, w: World, l: Label)
    requires OrderInv(w) && Enabled(cfg, w, l) && Orderly(w, l)
    ensures OrderInv(Next(cfg, w, l))
  {
    StepKeepsJobs(cfg, w, l);
    StepKeepsWrites(cfg, w, l);
    EventsStayDistinct(cfg, w, l);
    ProcsStayDistinct(cfg, w, l);
    HoldersStayApart(cfg, w, l);
    ProcsStayInOrder(cfg, w, l);
    QueueStaysInOrder(cfg, w, l);
  }

  lemma {:induction false} RunKeepsOrder(cfg: Config, ws: seq<World>, ls: seq<Label>, i: nat)
    requires OrderlyRun(cfg, ws, ls) && i < |ws|
    ensures OrderInv(ws[i])
  {
    if i > 0 {
      RunKeepsOrder(cfg, ws, ls, i - 1);
      StepKeepsOrder(cfg, ws[i - 1], ls[i - 1]);
    }
  }

  lemma RisesTransitive(a: World, b: World, c: World)
    requires Rises(a, b) && Rises(b, c)
    ensures Rises(a, c)
  {
  }

  /** Over any stretch of an orderly run, with any call failing, any status write lost and any process
      crashing, a stored status only moves forward along ACCEPTED, PROCESSING, final, and a final
      status never changes. */
  lemma {:induction false} StatusNeverFalls(cfg: Config, ws: seq<World>, ls: seq<Label>, i: nat, j: nat)
    requires OrderlyRun(cfg, ws, ls) && i <= j < |ws|
    ensures Rises(ws[i], ws[j])
  {
    hide Next, Enabled, OrderInv, Orderly;
    if i < j {
      StatusNeverFalls(cfg, ws, ls, i, j - 1);
      RunKeepsOrder(cfg, ws, ls, j - 1);
      StepRises(cfg, ws[j - 1], ls[j - 1]);
      RisesTransitive(ws[i], ws[j - 1], ws[j]);
    }
  }
}
