/**
 * One beacon cycle of an agent against the dispatcher, with the transport
 * reduced to two facts: whether the task fetch got through, and for each
 * report whether its upload reached the server (and when). The check-in that
 * opens a cycle and the sleep that closes it change no state and are absent.
 */
module Beacon {
  import opened Wrappers
  import opened Store
  import opened Server
  import opened Agent

  /** The fate of one result upload: lost in transport, or received at a timestamp. */
  datatype Delivery = Lost | Delivered(received: string)

  /** The server's reply to a task fetch: a JSON object holding the agent's pending list. */
  function Serve(d: Disk, agent: AgentId): (reply: FetchReply)
    ensures ClientFetch(reply) == FetchTasks(d, agent)
  {
    Body(Some(FetchTasks(d, agent)))
  }

  /** The tasks the agent works on this cycle: its pending list, or nothing if the fetch failed. */
  function Fetched(d: Disk, agent: AgentId, reachable: bool): (ts: seq<TaskRecord>)
    ensures reachable ==> ts == FetchTasks(d, agent)
    ensures !reachable ==> ts == []
  {
    ClientFetch(if reachable then Serve(d, agent) else TransportFailure)
  }

  /** One upload: a lost one leaves the server as it was; a received one is recorded. */
  function Send(d: Disk, agent: AgentId, rep: Report, del: Delivery): (d': Disk)
    ensures del.Lost? ==> d' == d
    ensures del.Delivered? ==>
      ResultsOf(d', agent) == ResultsOf(d, agent) + [ResultRecord(rep.taskId, rep.output, del.received)]
    ensures forall a :: a != agent ==> ResultsOf(d', a) == ResultsOf(d, a)
    ensures d'.taskFile == d.taskFile
  {
    match del
    case Lost => d
    case Delivered(received) => UploadResults(d, agent, rep.taskId, rep.output, received)
  }

  /** The result records that the received uploads create, in report order. */
  function Recorded(reps: seq<Report>, dels: seq<Delivery>): (rs: seq<ResultRecord>)
    requires |dels| == |reps|
    ensures |rs| <= |reps|
    decreases |reps|
  {
    if |reps| == 0 then []
    else
      var n := |reps| - 1;
      var tail := match dels[n]
        case Lost => []
        case Delivered(received) => [ResultRecord(reps[n].taskId, reps[n].output, received)];
      Recorded(reps[..n], dels[..n]) + tail
  }

  /** Every upload was received. */
  predicate AllDelivered(dels: seq<Delivery>)
  {
    forall i :: 0 <= i < |dels| ==> dels[i].Delivered?
  }

  /**
   * Uploads the reports one after another; a lost upload does not stop the
   * ones after it. The task document is never touched.
   */
  function Deliver(d: Disk, agent: AgentId, reps: seq<Report>, dels: seq<Delivery>): (d': Disk)
    requires |dels| == |reps|
    ensures d'.taskFile == d.taskFile
    decreases |reps|
  {
    if |reps| == 0 then d
    else
      var n := |reps| - 1;
      Send(Deliver(d, agent, reps[..n], dels[..n]), agent, reps[n], dels[n])
  }

  /**
   * Delivering reports appends exactly the received ones, in report order,
   * to the agent's result log, and leaves every other agent's log alone.
   */
  lemma {:induction false} DeliverRecords(d: Disk, agent: AgentId, reps: seq<Report>, dels: seq<Delivery>)
    requires |dels| == |reps|
    ensures ResultsOf(Deliver(d, agent, reps, dels), agent) == ResultsOf(d, agent) + Recorded(reps, dels)
    ensures forall a :: a != agent ==> ResultsOf(Deliver(d, agent, reps, dels), a) == ResultsOf(d, a)
    decreases |reps|
  {
    if |reps| > 0 {
      var n := |reps| - 1;
      DeliverRecords(d, agent, reps[..n], dels[..n]);
      var prev := Recorded(reps[..n], dels[..n]);
      var tail := Recorded(reps, dels)[|prev|..];
      assert Recorded(reps, dels) == prev + tail;
      assert ResultsOf(d, agent) + prev + tail == ResultsOf(d, agent) + (prev + tail);
    }
  }

  /** With every upload received, each report becomes exactly one result record, in order. */
  lemma {:induction false} RecordedAllDelivered(reps: seq<Report>, dels: seq<Delivery>)
    requires |dels| == |reps|
    requires AllDelivered(dels)
    ensures |Recorded(reps, dels)| == |reps|
    ensures forall i :: 0 <= i < |reps| ==>
      Recorded(reps, dels)[i] == ResultRecord(reps[i].taskId, reps[i].output, dels[i].received)
    decreases |reps|
  {
    if |reps| > 0 {
      var n := |reps| - 1;
      assert AllDelivered(dels[..n]) by {
        forall i | 0 <= i < n ensures dels[..n][i].Delivered? {
          assert dels[..n][i] == dels[i];
        }
      }
      RecordedAllDelivered(reps[..n], dels[..n]);
      forall i | 0 <= i < n
        ensures Recorded(reps, dels)[i] == ResultRecord(reps[i].taskId, reps[i].output, dels[i].received)
      {
        assert reps[..n][i] == reps[i] && dels[..n][i] == dels[i];
      }
    }
  }

  /**
   * One cycle: fetch the pending list (empty if the fetch fails), run each
   * task, and upload one report per task in fetched order.
   */
  function Cycle(d: Disk, agent: AgentId, reachable: bool, clock: seq<string>, dels: seq<Delivery>): (d': Disk)
    requires |clock| == |Fetched(d, agent, reachable)| && |dels| == |clock|
    ensures d'.taskFile == d.taskFile
    ensures forall a :: FetchTasks(d', a) == FetchTasks(d, a)
    ensures ResultsOf(d', agent) == ResultsOf(d, agent) + Recorded(Reports(Fetched(d, agent, reachable), clock), dels)
    ensures forall a :: a != agent ==> ResultsOf(d', a) == ResultsOf(d, a)
  {
    var reps := Reports(Fetched(d, agent, reachable), clock);
    DeliverRecords(d, agent, reps, dels);
    Deliver(d, agent, reps, dels)
  }

  /**
   * A cycle whose fetch succeeds and whose uploads are all received appends
   * to the agent's result log exactly one record per pending task, in
   * pending order: task `i`'s identifier with its output and receipt time.
   */
  lemma CycleRecordsEachPendingTask(d: Disk, agent: AgentId, clock: seq<string>, dels: seq<Delivery>)
    requires |clock| == |FetchTasks(d, agent)| && |dels| == |clock|
    requires AllDelivered(dels)
    ensures var ts := FetchTasks(d, agent);
      var added := ResultsOf(Cycle(d, agent, true, clock, dels), agent)[|ResultsOf(d, agent)|..];
      && |added| == |ts|
      && forall i :: 0 <= i < |ts| ==>
           added[i] == ResultRecord(ts[i].taskId, PerformTask(ts[i].task, clock[i]), dels[i].received)
  {
    var reps := Reports(FetchTasks(d, agent), clock);
    RecordedAllDelivered(reps, dels);
    var d' := Cycle(d, agent, true, clock, dels);
    assert ResultsOf(d', agent) == ResultsOf(d, agent) + Recorded(reps, dels);
    assert ResultsOf(d', agent)[|ResultsOf(d, agent)|..] == Recorded(reps, dels);
  }

  /** A cycle that fetches nothing (a failed fetch, or no pending task) sends nothing. */
  lemma EmptyFetchNoReports(d: Disk, agent: AgentId, reachable: bool)
    requires Fetched(d, agent, reachable) == []
    ensures Reports(Fetched(d, agent, reachable), []) == []
    ensures Cycle(d, agent, reachable, [], []) == d
  {
  }

  /**
   * Because fetching is a peek and not a dequeue, two complete cycles with
   * no enqueue between them record a result for every pending task twice:
   * the agent's result log grows by the pending identifiers, then by the
   * same identifiers again.
   */
  lemma TwoCyclesRecordTwice(d: Disk, agent: AgentId, clock1: seq<string>, dels1: seq<Delivery>,
                             clock2: seq<string>, dels2: seq<Delivery>)
    requires |clock1| == |FetchTasks(d, agent)| && |dels1| == |clock1| && AllDelivered(dels1)
    requires |clock2| == |FetchTasks(d, agent)| && |dels2| == |clock2| && AllDelivered(dels2)
    ensures var d1 := Cycle(d, agent, true, clock1, dels1);
      var d2 := Cycle(d1, agent, true, clock2, dels2);
      var ids := IdsOf(FetchTasks(d, agent), TaskIdOf);
      && FetchTasks(d2, agent) == FetchTasks(d, agent)
      && IdsOf(ResultsOf(d2, agent), ResultIdOf) == IdsOf(ResultsOf(d, agent), ResultIdOf) + ids + ids
  {
    var ts := FetchTasks(d, agent);
    var ids := IdsOf(ts, TaskIdOf);
    var d1 := Cycle(d, agent, true, clock1, dels1);
    var d2 := Cycle(d1, agent, true, clock2, dels2);
    AddedIds(d, agent, clock1, dels1);
    AddedIds(d1, agent, clock2, dels2);
    IdsOfAppend(ResultsOf(d, agent), Recorded(Reports(ts, clock1), dels1), ResultIdOf);
    IdsOfAppend(ResultsOf(d1, agent), Recorded(Reports(ts, clock2), dels2), ResultIdOf);
  }

  /**
   * The identifiers a fully delivered cycle adds are the pending identifiers,
   * in order. The first clause repeats the contract of `Cycle` so that the
   * second can be stated about the same appended records.
   */
  lemma AddedIds(d: Disk, agent: AgentId, clock: seq<string>, dels: seq<Delivery>)
    requires |clock| == |FetchTasks(d, agent)| && |dels| == |clock|
    requires AllDelivered(dels)
    ensures ResultsOf(Cycle(d, agent, true, clock, dels), agent)
         == ResultsOf(d, agent) + Recorded(Reports(FetchTasks(d, agent), clock), dels)
    ensures IdsOf(Recorded(Reports(FetchTasks(d, agent), clock), dels), ResultIdOf) == IdsOf(FetchTasks(d, agent), TaskIdOf)
  {
    var reps := Reports(FetchTasks(d, agent), clock);
    RecordedAllDelivered(reps, dels);
  }

  /** Delivering one more report is one more upload after the earlier ones. */
  lemma DeliverSnoc(d: Disk, agent: AgentId, reps: seq<Report>, dels: seq<Delivery>, rep: Report, i: nat)
    requires |reps| == i < |dels|
    ensures Deliver(d, agent, reps + [rep], dels[..i + 1]) == Send(Deliver(d, agent, reps, dels[..i]), agent, rep, dels[i])
  {
    assert (reps + [rep])[..i] == reps && dels[..i + 1][..i] == dels[..i];
  }

  /** Running one more task extends the report list by that task's report. */
  lemma ReportsSnoc(tasks: seq<TaskRecord>, clock: seq<string>, i: nat)
    requires |clock| == |tasks| && i < |tasks|
    ensures Reports(tasks[..i + 1], clock[..i + 1])
         == Reports(tasks[..i], clock[..i]) + [Report(tasks[i].taskId, PerformTask(tasks[i].task, clock[i]))]
  {
    assert tasks[..i + 1][..i] == tasks[..i] && clock[..i + 1][..i] == clock[..i];
  }

  /**
   * The agent's loop body as the client runs it: fetch, then for each task
   * compute its output and send it at once. It yields the reports of
   * `Reports` and the state of `Cycle`.
   */
  method RunCycle(d: Disk, agent: AgentId, reachable: bool, clock: seq<string>, dels: seq<Delivery>)
    returns (d': Disk, sent: seq<Report>)
    requires |clock| == |Fetched(d, agent, reachable)| && |dels| == |clock|
    ensures sent == Reports(Fetched(d, agent, reachable), clock)
    ensures d' == Cycle(d, agent, reachable, clock, dels)
  {
    var tasks := Fetched(d, agent, reachable);
    d', sent := d, [];
    var i := 0;
    while i < |tasks|
      invariant 0 <= i <= |tasks|
      invariant sent == Reports(tasks[..i], clock[..i])
      invariant d' == Deliver(d, agent, sent, dels[..i])
    {
      var output := PerformTask(tasks[i].task, clock[i]);
      var rep := Report(tasks[i].taskId, output);
      DeliverSnoc(d, agent, sent, dels, rep, i);
      ReportsSnoc(tasks, clock, i);
      d' := Send(d', agent, rep, dels[i]);
      sent := sent + [rep];
      i := i + 1;
    }
    assert tasks[..i] == tasks && clock[..i] == clock;
    assert dels[..i] == dels;
  }
}
