/**
 The three conditions under which module PipelineOrder proves that the status of
 a transaction never falls are needed, each one of them.
 */
module PipelineDisorder {
  import opened Domain
  import opened Candidates
  import opened Pipeline
  import opened PipelineStatus
  import opened PipelineOrder
  import P = Preimage
  import Text
  import Decimal

  /** Wherever a queued job is delivered, three steps later its transaction stands at PROCESSING, whatever it stood at before. */
  lemma AnyDeliveryRestarts(cfg: Config, w: World, pid: nat, k: nat, now: Time)
    requires pid !in w.procs && k < |w.log| && IsJob(w, k) && !w.log[k].job.typ.Other?
    ensures var l1, l2 := Deliver(pid, k), Advance(pid, Ack, now);
            && Enabled(cfg, w, l1) && var w1 := Next(cfg, w, l1);
            && Enabled(cfg, w1, l2) && w1.procs[pid].Opening? && var w2 := Next(cfg, w1, l2);
            && Enabled(cfg, w2, l2) && w2.procs[pid].Starting? && var w3 := Next(cfg, w2, l2);
              w.log[k].job.txn in w3.store.statuses && w3.store.statuses[w.log[k].job.txn].status == Processing
  {
    var w1 := Next(cfg, w, Deliver(pid, k));
    assert w1.procs[pid] == Opening(w.log[k]);
    var w2 := Next(cfg, w1, Advance(pid, Ack, now));
    assert w2.procs[pid].Starting?;
  }

  lemma RunOneMore(cfg: Config, ws: seq<World>, ls: seq<Label>, l: Label) returns (ws': seq<World>, ls': seq<Label>, w: World)
    requires Run(cfg, ws, ls) && Enabled(cfg, ws[|ls|], l)
    ensures Run(cfg, ws', ls') && ws' == ws + [w] && ls' == ls + [l] && w == ws'[|ls'|] == Next(cfg, ws[|ls|], l)
  {
    hide Next, Enabled;
    w := Next(cfg, ws[|ls|], l);
    ws', ls' := ws + [w], ls + [l];
  }

  lemma QueuedJobIsKnown(cfg: Config, ws: seq<World>, ls: seq<Label>, k: nat)
    requires Run(cfg, ws, ls) && k < |ws[|ls|].log| && IsJob(ws[|ls|], k)
    ensures var evt := ws[|ls|].log[k]; evt.txn == evt.job.txn && !evt.job.typ.Other?
  {
    RunKeepsStatusInv(cfg, ws, ls, |ls|);
    assert EventKnown(ws[|ls|], ws[|ls|].log[k]);
  }

  predicate Stands(w: World, t: string, statuses: set<Status>) {
    t in w.store.statuses && w.store.statuses[t].status in statuses
  }

  /** Every run in which a transaction has come to its final status and some record of its job can still be
      delivered, by a second delivery or because there is a second record, goes on to one in which the status falls. */
  lemma FinalStatusCanFall(cfg: Config, ws: seq<World>, ls: seq<Label>, pid: nat, k: nat, now: Time)
    returns (ws': seq<World>, ls': seq<Label>)
    requires Run(cfg, ws, ls)
    requires var w := ws[|ls|];
             pid !in w.procs && k < |w.log| && IsJob(w, k) && Stands(w, w.log[k].txn, {Completed, Failed})
    ensures Run(cfg, ws', ls') && ws < ws' && ls' == ls + [Deliver(pid, k), Advance(pid, Ack, now), Advance(pid, Ack, now)]
    ensures Stands(ws'[|ls'|], ws[|ls|].log[k].txn, {Processing}) && !Rises(ws[|ls|], ws'[|ls'|])
    ensures !Publishes(ws'[|ls| + 1], ls'[|ls| + 1]) && !Publishes(ws'[|ls| + 2], ls'[|ls| + 2])
  {
    assert |ws| == |ls| + 1;
    hide Next, Enabled, Run;
    var w, l := ws[|ls|], Advance(pid, Ack, now);
    QueuedJobIsKnown(cfg, ws, ls, k);
    AnyDeliveryRestarts(cfg, w, pid, k, now);
    var w1, w2, w3;
    ws', ls', w1 := RunOneMore(cfg, ws, ls, Deliver(pid, k));
    ws', ls', w2 := RunOneMore(cfg, ws', ls', l);
    ws', ls', w3 := RunOneMore(cfg, ws', ls', l);
  }

  datatype Disorder = SecondDelivery | QueuedFailure | SecondRecord

  /** A step that respects the two conditions other than the one a disorder breaks. */
  predicate OnlyDisorder(d: Disorder, w: World, l: Label) {
    && (d == SecondDelivery || SingleDelivery(w, l))
    && (d == QueuedFailure || CleanFailure(w, l))
    && (d == SecondRecord || OneRecord(w, l))
  }

  ghost predicate DisorderedRun(cfg: Config, d: Disorder, ws: seq<World>, ls: seq<Label>) {
    Run(cfg, ws, ls) && forall i | 0 <= i < |ls| :: OnlyDisorder(d, ws[i], ls[i])
  }

  const EXAMPLE := Job("t", Verify, "i", "n", "2000-01-01", "M", "")
  const EXAMPLE_EVENT := Event(Verify, "t", JOB_SUBMITTED, EXAMPLE)

  lemma ExampleIsValid(cfg: Config)
    ensures Validated(cfg, EXAMPLE)
  {
    var u := cfg.unicode;
    hide Text.Trim, P.IsDate;
    AlreadyTrimmed(u, "n");
    AlreadyTrimmed(u, "2000-01-01");
    AlreadyTrimmed(u, "M");
    assert Text.ToUpper(u, "M") == "M";
    ExampleDate();
  }

  lemma AlreadyTrimmed(u: Text.Unicode, s: string)
    requires s in {"n", "2000-01-01", "M"}
    ensures Text.TrimSpace(u, s) == s
  {
    var space := c => Text.IsSpace(u, c);
    assert Text.Trimmed(space, s);
    Text.TrimTrimmed(space, s);
  }

  lemma ExampleDate()
    ensures P.IsDate("2000-01-01")
  {
    var dob := "2000-01-01";
    assert |dob| == 10 && dob[5] == '0' && dob[6] == '1' && dob[8] == '0' && dob[9] == '1';
    assert forall i | 0 <= i < 10 && i != 4 && i != 7 :: Decimal.IsDigit(dob[i]);
    assert dob[5..7] == [dob[5], dob[6]] && dob[8..] == [dob[8], dob[9]];
    ValueOfOne();
  }

  lemma ValueOfOne()
    ensures Decimal.AllDigits(['0', '1']) && Decimal.Value(['0', '1']) == 1
  {
    assert ['0', '1'][..1] == ['0'] && ['0'][..0] == [];
    assert Decimal.Value(['0']) == 0;
  }

  /** One more step of a run with a given disorder. */
  lemma GoOn(cfg: Config, d: Disorder, ws: seq<World>, ls: seq<Label>, l: Label)
    returns (ws': seq<World>, ls': seq<Label>, w: World)
    requires DisorderedRun(cfg, d, ws, ls) && Enabled(cfg, ws[|ls|], l) && OnlyDisorder(d, ws[|ls|], l)
    ensures DisorderedRun(cfg, d, ws', ls') && |ws'| == |ls'| + 1 && ls' == ls + [l] && w == ws'[|ls'|] == Next(cfg, ws[|ls|], l)
  {
    hide Next, Enabled, OnlyDisorder;
    ws', ls', w := RunOneMore(cfg, ws, ls, l);
    forall i | 0 <= i < |ls'| ensures OnlyDisorder(d, ws'[i], ls'[i]) {
      assert ws'[i] == ws[i];
    }
  }

  lemma ExampleAccepted(cfg: Config, d: Disorder) returns (ws: seq<World>, ls: seq<Label>, w: World)
    ensures DisorderedRun(cfg, d, ws, ls) && |ws| == |ls| + 1 && w == ws[|ls|]
    ensures w.log == [] && w.delivered == {} && w.ids == {} && w.procs == map[0 := Publishing(EXAMPLE)]
  {
    ExampleIsValid(cfg);
    hide P.ValidateInput, BestOf, MatchResponse, NewResponse, DecisionOf;
    ws, ls, w := [INIT], [], INIT;
    assert DisorderedRun(cfg, d, ws, ls);
    hide Run, DisorderedRun;
    ws, ls, w := GoOn(cfg, d, ws, ls, Submit(0, EXAMPLE));
    ws, ls, w := GoOn(cfg, d, ws, ls, Advance(0, Ack, 1));
  }

  /** A request is accepted; its publish answers as given. */
  lemma ExamplePublished(cfg: Config, d: Disorder, ans: Answer) returns (ws: seq<World>, ls: seq<Label>, w: World)
    requires ans == Ack || (d == SecondRecord && ans == Again) || (d == QueuedFailure && ans == Nack("", true))
    ensures DisorderedRun(cfg, d, ws, ls) && w == ws[|ls|]
    ensures w.log == [EXAMPLE_EVENT] && w.delivered == {} && w.ids == {}
    ensures w.procs == if ans == Ack then map[] else if ans == Again then map[0 := Publishing(EXAMPLE)]
                       else map[0 := Refusing(EXAMPLE, "")]
  {
    hide P.ValidateInput, BestOf, MatchResponse, NewResponse, DecisionOf, Run, DisorderedRun;
    ws, ls, w := ExampleAccepted(cfg, d);
    ws, ls, w := GoOn(cfg, d, ws, ls, Advance(0, ans, 2));
  }

  /** The example's worker stands at `p` with the given records on the queue, the first one delivered. */
  predicate AtWork(w: World, log: seq<Event>, p: Proc) {
    w.log == log && w.delivered == {0} && w.ids == {} && w.procs == map[0 := p]
  }

  /** One step of the example's worker. */
  lemma WorkOn(cfg: Config, d: Disorder, ws0: seq<World>, ls0: seq<Label>, log: seq<Event>, p: Proc, ans: Answer)
    returns (ws: seq<World>, ls: seq<Label>, q: Proc)
    requires DisorderedRun(cfg, d, ws0, ls0) && AtWork(ws0[|ls0|], log, p)
    requires !p.Publishing? && Fits(p, ans) && !ans.Chosen? && Move(cfg, ws0[|ls0|], p, ans, 1).0.Some?
    ensures DisorderedRun(cfg, d, ws, ls) && |ws| == |ls| + 1 && AtWork(ws[|ls|], log, q)
    ensures q == Move(cfg, ws0[|ls0|], p, ans, 1).0.value
  {
    assert |ws0| == |ls0| + 1;
    hide P.ValidateInput, BestOf, MatchResponse, NewResponse, DecisionOf, Run;
    q := Move(cfg, ws0[|ls0|], p, ans, 1).0.value;
    var w;
    ws, ls, w := GoOn(cfg, d, ws0, ls0, Advance(0, ans, 1));
  }

  /** The delivery of the first record and the beginning of its job. */
  lemma ExampleStarted(cfg: Config, d: Disorder, ws0: seq<World>, ls0: seq<Label>) returns (ws: seq<World>, ls: seq<Label>, t: Task)
    requires DisorderedRun(cfg, d, ws0, ls0)
    requires var w := ws0[|ls0|]; w.procs == map[] && w.log != [] && w.log[0] == EXAMPLE_EVENT && w.delivered == {} && w.ids == {}
    ensures DisorderedRun(cfg, d, ws, ls) && AtWork(ws[|ls|], ws0[|ls0|].log, Embedding(t)) && t.job == EXAMPLE
  {
    var log, w, p := ws0[|ls0|].log, ws0[|ls0|], Opening(EXAMPLE_EVENT);
    ws, ls, w := GoOn(cfg, d, ws0, ls0, Deliver(0, 0));
    assert AtWork(w, log, p);
    hide Next, Enabled, Run, DisorderedRun, AtWork, BestOf, MatchResponse, NewResponse, DecisionOf, NewIdentity, Record;
    ws, ls, p := WorkOn(cfg, d, ws, ls, log, p, Ack);
    ws, ls, p := WorkOn(cfg, d, ws, ls, log, p, Ack);
    t := p.task;
  }

  /** The searches find nobody. */
  lemma ExampleSearched(cfg: Config, d: Disorder, ws0: seq<World>, ls0: seq<Label>, log: seq<Event>, t0: Task)
    returns (ws: seq<World>, ls: seq<Label>, t: Task)
    requires DisorderedRun(cfg, d, ws0, ls0) && AtWork(ws0[|ls0|], log, Embedding(t0))
    ensures DisorderedRun(cfg, d, ws, ls) && AtWork(ws[|ls|], log, Reading(t))
    ensures t.job == t0.job && t.face == [] && t.looked == []
  {
    assert |ws0| == |ls0| + 1;
    hide Next, Enabled, Run, DisorderedRun, AtWork, BestOf, MatchResponse, NewResponse, DecisionOf, NewIdentity, Record;
    var p;
    ws, ls, p := WorkOn(cfg, d, ws0, ls0, log, Embedding(t0), Embedded(Liveness(true, 1.0)));
    ws, ls, p := WorkOn(cfg, d, ws, ls, log, p, Hits([]));
    ws, ls, p := WorkOn(cfg, d, ws, ls, log, p, Hits([]));
    t := p.task;
  }

  /** The verification is answered. */
  lemma ExampleAnswered(cfg: Config, d: Disorder, ws0: seq<World>, ls0: seq<Label>, log: seq<Event>, t: Task)
    returns (ws: seq<World>, ls: seq<Label>, resp: Response)
    requires DisorderedRun(cfg, d, ws0, ls0) && AtWork(ws0[|ls0|], log, Reading(t))
    requires t.job == EXAMPLE && t.face == [] && t.looked == []
    ensures DisorderedRun(cfg, d, ws, ls)
    ensures var w := ws[|ls|]; w.log == log && w.delivered == {0} && w.procs == map[0 := Completing(t, resp)]
  {
    assert BestOf(cfg, t) == NOBODY by {
      assert Lookups(t) == [];
    }
    hide P.ValidateInput, MatchResponse, NewResponse, BestOf, Run;
    resp := MatchResponse(cfg, t, "");
    var w;
    ws, ls, w := GoOn(cfg, d, ws0, ls0, Advance(0, Chosen("x"), 1));
  }

  /** The answer is recorded. */
  lemma ExampleCompleted(cfg: Config, d: Disorder, ws0: seq<World>, ls0: seq<Label>, t: Task, resp: Response)
    returns (ws: seq<World>, ls: seq<Label>)
    requires DisorderedRun(cfg, d, ws0, ls0) && ws0[|ls0|].procs == map[0 := Completing(t, resp)] && t.job == EXAMPLE
    ensures DisorderedRun(cfg, d, ws, ls)
    ensures var w, w0 := ws[|ls|], ws0[|ls0|];
            w.log == w0.log && w.delivered == w0.delivered && 1 !in w.procs && Stands(w, "t", {Completed})
  {
    hide P.ValidateInput, MatchResponse, NewResponse, BestOf, Run;
    var w;
    ws, ls, w := GoOn(cfg, d, ws0, ls0, Advance(0, Ack, 1));
  }

  function FinalOf(d: Disorder): set<Status> {
    if d == QueuedFailure then {Failed} else {Completed}
  }

  /** A run with a given disorder that ends in a final status while record `k` can be delivered. */
  lemma ExampleFinal(cfg: Config, d: Disorder) returns (ws: seq<World>, ls: seq<Label>, k: nat)
    ensures DisorderedRun(cfg, d, ws, ls)
    ensures var w := ws[|ls|];
            && 1 !in w.procs && k < |w.log| && w.log[k] == EXAMPLE_EVENT && Stands(w, "t", FinalOf(d))
            && (d != SecondDelivery ==> k !in w.delivered)
  {
    hide Next, Enabled, OnlyDisorder;
    var w;
    if d == QueuedFailure {
      ws, ls, w := ExamplePublished(cfg, d, Nack("", true));
      ws, ls := ExampleRefused(cfg, d, ws, ls);
      k := 0;
    } else {
      ws, ls, w := ExamplePublished(cfg, d, if d == SecondRecord then Again else Ack);
      if d == SecondRecord {
        ws, ls := ExamplePostedAgain(cfg, d, ws, ls);
      }
      var log := ws[|ls|].log;
      var t, resp;
      ws, ls, t := ExampleStarted(cfg, d, ws, ls);
      ws, ls, t := ExampleSearched(cfg, d, ws, ls, log, t);
      ws, ls, resp := ExampleAnswered(cfg, d, ws, ls, log, t);
      ws, ls := ExampleCompleted(cfg, d, ws, ls, t, resp);
      k := if d == SecondRecord then 1 else 0;
      assert ws[|ls|].log == log;
    }
  }

  lemma ExampleRefused(cfg: Config, d: Disorder, ws0: seq<World>, ls0: seq<Label>) returns (ws: seq<World>, ls: seq<Label>)
    requires DisorderedRun(cfg, d, ws0, ls0) && ws0[|ls0|].procs == map[0 := Refusing(EXAMPLE, "")]
    ensures DisorderedRun(cfg, d, ws, ls)
    ensures var w, w0 := ws[|ls|], ws0[|ls0|];
            w.procs == map[] && w.log == w0.log && w.delivered == w0.delivered && Stands(w, "t", {Failed})
  {
    var w;
    ws, ls, w := GoOn(cfg, d, ws0, ls0, Advance(0, Ack, 3));
  }

  lemma ExamplePostedAgain(cfg: Config, d: Disorder, ws0: seq<World>, ls0: seq<Label>) returns (ws: seq<World>, ls: seq<Label>)
    requires DisorderedRun(cfg, d, ws0, ls0) && ws0[|ls0|].procs == map[0 := Publishing(EXAMPLE)]
    ensures DisorderedRun(cfg, d, ws, ls)
    ensures var w, w0 := ws[|ls|], ws0[|ls0|];
            w.procs == map[] && w.log == w0.log + [EXAMPLE_EVENT] && w.delivered == w0.delivered && w.ids == w0.ids
  {
    var w;
    ws, ls, w := GoOn(cfg, d, ws0, ls0, Advance(0, Ack, 2));
  }

  /** Each of the three disorders of the message queue is enough for a status to fall, without the other two: a
      COMPLETED transaction, or one failed by its publish, stands at PROCESSING again. */
  lemma EachConditionIsNeeded(cfg: Config, d: Disorder) returns (ws: seq<World>, ls: seq<Label>, i: nat)
    ensures DisorderedRun(cfg, d, ws, ls) && i < |ws| && !Rises(ws[i], ws[|ls|])
    ensures Stands(ws[i], "t", FinalOf(d)) && Stands(ws[|ls|], "t", {Processing})
  {
    hide Next, Enabled, Rises;
    var k;
    ws, ls, k := ExampleFinal(cfg, d);
    i := |ls|;
    var ws', ls' := FinalStatusCanFall(cfg, ws, ls, 1, k, 10);
    forall j | 0 <= j < |ls'| ensures OnlyDisorder(d, ws'[j], ls'[j]) {
      if j < i {
        assert ws'[j] == ws[j] && ls'[j] == ls[j];
      } else if j == i {
        assert ws'[j] == ws[i] && ls'[j] == Deliver(1, k);
      }
    }
    ws, ls := ws', ls';
  }
}
