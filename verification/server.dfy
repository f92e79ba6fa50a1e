/**
 * The dispatcher's task queue and result log. Each handler loads the
 * document it needs. The two writing handlers, `AddTask` and `UploadResults`,
 * change the mapping in memory and save it back whole; `FetchTasks` only
 * reads. The fresh task identifier (a random UUID in the server) and the
 * wall-clock timestamps are parameters here.
 */
module Server {
  import opened Store

  /** A task queued for an agent; never removed once created. */
  datatype TaskRecord = TaskRecord(taskId: string, task: string, issued: string)

  /** An outcome reported by an agent; nothing ties `taskId` to a queued task. */
  datatype ResultRecord = ResultRecord(taskId: string, output: string, received: string)

  /** The two JSON documents the server persists, each read and written independently. */
  datatype Disk = Disk(taskFile: StoreFile<TaskRecord>, resultFile: StoreFile<ResultRecord>)

  /** The answer to an enqueue request: the new state and the identifier handed back. */
  datatype Enqueued = Enqueued(disk: Disk, taskId: string)

  /** The task mapping as the server sees it after loading. */
  function Tasks(d: Disk): Log<TaskRecord>
  {
    Load(d.taskFile)
  }

  /** The result mapping as the server sees it after loading. */
  function Results(d: Disk): Log<ResultRecord>
  {
    Load(d.resultFile)
  }

  /** The result log of one agent, as loaded from the result document. */
  function ResultsOf(d: Disk, agent: AgentId): seq<ResultRecord>
  {
    Entries(Results(d), agent)
  }

  // ---------------------------------------------------------------------------
  // Request handlers
  // ---------------------------------------------------------------------------

  /**
   * GET of an agent's tasks: the agent's whole list, oldest first, or the
   * empty list for an agent that has never been given one. Nothing is
   * consumed; the handler only reads.
   */
  function FetchTasks(d: Disk, agent: AgentId): (ts: seq<TaskRecord>)
    ensures agent !in Tasks(d) ==> ts == []
    ensures d.taskFile.Missing? || d.taskFile.Corrupt? ==> ts == []
    ensures agent in Tasks(d) ==> ts == Tasks(d)[agent]
  {
    Entries(Tasks(d), agent)
  }

  /**
   * POST of a new task: appends `{freshId, text, issued}` to the agent's queue
   * (creating the queue if absent), saves the whole task document and
   * returns the identifier.
   */
  function AddTask(d: Disk, agent: AgentId, text: string, freshId: string, issued: string): (r: Enqueued)
    ensures r.taskId == freshId
    ensures FetchTasks(r.disk, agent) == FetchTasks(d, agent) + [TaskRecord(freshId, text, issued)]
    ensures agent !in Tasks(d) ==> FetchTasks(r.disk, agent) == [TaskRecord(freshId, text, issued)]
    ensures forall a :: a != agent ==> FetchTasks(r.disk, a) == FetchTasks(d, a)
    ensures Tasks(r.disk).Keys == Tasks(d).Keys + {agent}
    ensures r.disk.resultFile == d.resultFile
  {
    var tasks := Append(Tasks(d), agent, TaskRecord(freshId, text, issued));
    Enqueued(d.(taskFile := Save(tasks)), freshId)
  }

  /**
   * POST of a result: appends `{taskId, output, received}` to the agent's
   * result log (creating it if absent) and saves the whole result document.
   * There is no check that `taskId` was ever queued.
   */
  function UploadResults(d: Disk, agent: AgentId, taskId: string, output: string, received: string): (d': Disk)
    ensures ResultsOf(d', agent) == ResultsOf(d, agent) + [ResultRecord(taskId, output, received)]
    ensures forall a :: a != agent ==> ResultsOf(d', a) == ResultsOf(d, a)
    ensures Results(d').Keys == Results(d).Keys + {agent}
    ensures d'.taskFile == d.taskFile
  {
    var results := Append(Results(d), agent, ResultRecord(taskId, output, received));
    d.(resultFile := Save(results))
  }

  /**
   * An enqueue against a task file that is missing or cannot be parsed
   * starts from the empty mapping, so the file saved afterwards holds the
   * new record alone: whatever an unparseable file held is silently lost.
   */
  lemma AddTaskOnUnreadableFile(d: Disk, agent: AgentId, text: string, freshId: string, issued: string)
    requires d.taskFile.Missing? || d.taskFile.Corrupt?
    ensures AddTask(d, agent, text, freshId, issued).disk.taskFile
         == Parsed(map[agent := [TaskRecord(freshId, text, issued)]])
  {
  }

  // ---------------------------------------------------------------------------
  // Task identity
  // ---------------------------------------------------------------------------

  /** Every task identifier present anywhere in a task mapping. */
  ghost function TaskIds(m: Log<TaskRecord>): set<string>
  {
    set a, i | a in m && 0 <= i < |m[a]| :: m[a][i].taskId
  }

  /** No two positions in the task mapping, in one agent's list or in two, share an identifier. */
  ghost predicate IdsDistinct(m: Log<TaskRecord>)
  {
    forall a, i, b, j ::
      a in m && b in m && 0 <= i < |m[a]| && 0 <= j < |m[b]| && m[a][i].taskId == m[b][j].taskId
      ==> a == b && i == j
  }

  /** Appending one record adds exactly its identifier to the identifiers present. */
  lemma AppendTaskIds(m: Log<TaskRecord>, agent: AgentId, rec: TaskRecord)
    ensures TaskIds(Append(m, agent, rec)) == TaskIds(m) + {rec.taskId}
  {
    var m' := Append(m, agent, rec);
    forall id | id in TaskIds(m') ensures id in TaskIds(m) + {rec.taskId} {
      var a, i :| a in m' && 0 <= i < |m'[a]| && m'[a][i].taskId == id;
      assert m'[a] == Entries(m', a);
      if a == agent && i == |Entries(m, agent)| {
        assert id == rec.taskId;
      } else {
        assert a in m && m[a][i] == m'[a][i];
      }
    }
    forall id | id in TaskIds(m) + {rec.taskId} ensures id in TaskIds(m') {
      if id == rec.taskId {
        assert m'[agent] == Entries(m, agent) + [rec];
        assert m'[agent][|Entries(m, agent)|].taskId == id;
      } else {
        var a, i :| a in m && 0 <= i < |m[a]| && m[a][i].taskId == id;
        assert m'[a] == Entries(m', a) && Entries(m, a) == m[a];
        assert m'[a][i] == m[a][i];
      }
    }
  }

  /**
   * With an identifier not yet present in the loaded task mapping, enqueue
   * keeps all identifiers pairwise distinct, and the new identifier is then
   * present.
   */
  lemma AddTaskKeepsIdsDistinct(d: Disk, agent: AgentId, text: string, freshId: string, issued: string)
    requires IdsDistinct(Tasks(d))
    requires freshId !in TaskIds(Tasks(d))
    ensures IdsDistinct(Tasks(AddTask(d, agent, text, freshId, issued).disk))
    ensures TaskIds(Tasks(AddTask(d, agent, text, freshId, issued).disk)) == TaskIds(Tasks(d)) + {freshId}
  {
    var m := Tasks(d);
    var rec := TaskRecord(freshId, text, issued);
    var m' := Append(m, agent, rec);
    assert Tasks(AddTask(d, agent, text, freshId, issued).disk) == m';
    AppendTaskIds(m, agent, rec);
    // Every position of m' holds either the new record or the record m had there.
    forall a, i | a in m' && 0 <= i < |m'[a]|
      ensures (a == agent && i == |Entries(m, agent)| && m'[a][i] == rec)
           || (a in m && i < |m[a]| && m'[a][i] == m[a][i])
    {
      assert m'[a] == Entries(m', a);
    }
  }

  // ---------------------------------------------------------------------------
  // Runs of enqueue requests
  // ---------------------------------------------------------------------------

  /** One operator request to enqueue `text` for `agent`, with its fresh identifier and timestamp. */
  datatype Request = Request(agent: AgentId, text: string, freshId: string, issued: string)

  /** The task record a request creates. */
  function Issue(q: Request): TaskRecord
  {
    TaskRecord(q.freshId, q.text, q.issued)
  }

  /** The state and the returned identifiers after serving `reqs` in order. */
  datatype Batch = Batch(disk: Disk, ids: seq<string>)

  /** Serves enqueue requests one after another, collecting the identifiers returned. */
  function RunEnqueues(d: Disk, reqs: seq<Request>): (b: Batch)
    ensures |b.ids| == |reqs|
    ensures b.disk.resultFile == d.resultFile
    decreases |reqs|
  {
    if |reqs| == 0 then Batch(d, [])
    else
      var last := reqs[|reqs| - 1];
      var b := RunEnqueues(d, reqs[..|reqs| - 1]);
      var e := AddTask(b.disk, last.agent, last.text, last.freshId, last.issued);
      Batch(e.disk, b.ids + [e.taskId])
  }

  /** Each request's identifier is absent from the task mapping it is served against. */
  ghost predicate FreshRun(d: Disk, reqs: seq<Request>)
    decreases |reqs|
  {
    |reqs| == 0 ||
    (FreshRun(d, reqs[..|reqs| - 1]) &&
     reqs[|reqs| - 1].freshId !in TaskIds(Tasks(RunEnqueues(d, reqs[..|reqs| - 1]).disk)))
  }

  /** The records, in request order, that the requests for `agent` create. */
  function IssuedFor(reqs: seq<Request>, agent: AgentId): (ts: seq<TaskRecord>)
    ensures |ts| <= |reqs|
    decreases |reqs|
  {
    if |reqs| == 0 then []
    else
      var last := reqs[|reqs| - 1];
      IssuedFor(reqs[..|reqs| - 1], agent) + (if last.agent == agent then [Issue(last)] else [])
  }

  /** The fresh identifiers supplied by a run of requests. */
  function FreshIds(reqs: seq<Request>): (ids: set<string>)
    ensures forall k :: 0 <= k < |reqs| ==> reqs[k].freshId in ids
    decreases |reqs|
  {
    if |reqs| == 0 then {}
    else
      var n := |reqs| - 1;
      assert forall k :: 0 <= k < n ==> reqs[..n][k] == reqs[k];
      FreshIds(reqs[..n]) + {reqs[n].freshId}
  }

  /** The identifier returned for each request is the fresh identifier it was given. */
  lemma {:induction false} RunEnqueuesReturnsIds(d: Disk, reqs: seq<Request>)
    ensures forall k :: 0 <= k < |reqs| ==> RunEnqueues(d, reqs).ids[k] == reqs[k].freshId
    decreases |reqs|
  {
    if |reqs| > 0 {
      var n := |reqs| - 1;
      RunEnqueuesReturnsIds(d, reqs[..n]);
      var ids := RunEnqueues(d, reqs).ids;
      assert ids == RunEnqueues(d, reqs[..n]).ids + [reqs[n].freshId];
      forall k | 0 <= k < n ensures ids[k] == reqs[k].freshId {
        assert reqs[..n][k] == reqs[k];
      }
    }
  }

  /**
   * When each request's identifier is fresh at its turn, all identifiers in
   * the task mapping stay pairwise distinct.
   */
  lemma {:induction false} RunEnqueuesKeepsIdsDistinct(d: Disk, reqs: seq<Request>)
    requires IdsDistinct(Tasks(d))
    requires FreshRun(d, reqs)
    ensures IdsDistinct(Tasks(RunEnqueues(d, reqs).disk))
    decreases |reqs|
  {
    if |reqs| > 0 {
      var n := |reqs| - 1;
      var last := reqs[n];
      var b := RunEnqueues(d, reqs[..n]);
      RunEnqueuesKeepsIdsDistinct(d, reqs[..n]);
      AddTaskKeepsIdsDistinct(b.disk, last.agent, last.text, last.freshId, last.issued);
    }
  }

  /** The identifiers present after a run are the earlier ones plus the supplied ones. */
  lemma {:induction false} RunEnqueuesTaskIds(d: Disk, reqs: seq<Request>)
    ensures TaskIds(Tasks(RunEnqueues(d, reqs).disk)) == TaskIds(Tasks(d)) + FreshIds(reqs)
    decreases |reqs|
  {
    if |reqs| > 0 {
      var n := |reqs| - 1;
      var last := reqs[n];
      var b := RunEnqueues(d, reqs[..n]);
      var before := TaskIds(Tasks(b.disk));
      var after := TaskIds(Tasks(RunEnqueues(d, reqs).disk));
      assert before == TaskIds(Tasks(d)) + FreshIds(reqs[..n]) by {
        RunEnqueuesTaskIds(d, reqs[..n]);
      }
      assert after == before + {last.freshId} by {
        var m := Tasks(b.disk);
        AppendTaskIds(m, last.agent, Issue(last));
        assert Tasks(RunEnqueues(d, reqs).disk) == Append(m, last.agent, Issue(last));
      }
      assert FreshIds(reqs) == FreshIds(reqs[..n]) + {last.freshId};
    }
  }

  /**
   * When each request's identifier is fresh at its turn, the identifiers
   * handed back for a run of enqueues are pairwise distinct.
   */
  lemma {:induction false} RunEnqueuesIdsDistinct(d: Disk, reqs: seq<Request>)
    requires FreshRun(d, reqs)
    ensures forall k, l :: 0 <= k < l < |reqs| ==> RunEnqueues(d, reqs).ids[k] != RunEnqueues(d, reqs).ids[l]
    decreases |reqs|
  {
    RunEnqueuesReturnsIds(d, reqs);
    FreshIdsDistinct(d, reqs);
  }

  /** Under a fresh run, the supplied identifiers themselves are pairwise distinct. */
  lemma {:induction false} FreshIdsDistinct(d: Disk, reqs: seq<Request>)
    requires FreshRun(d, reqs)
    ensures forall k, l :: 0 <= k < l < |reqs| ==> reqs[k].freshId != reqs[l].freshId
    decreases |reqs|
  {
    if |reqs| > 0 {
      var n := |reqs| - 1;
      FreshIdsDistinct(d, reqs[..n]);
      RunEnqueuesTaskIds(d, reqs[..n]);
      forall k, l | 0 <= k < l < |reqs| ensures reqs[k].freshId != reqs[l].freshId {
        assert reqs[..n][k] == reqs[k];
        if l < n {
          assert reqs[..n][l] == reqs[l];
        } else {
          assert reqs[k].freshId in FreshIds(reqs[..n]);
        }
      }
    }
  }

  /**
   * After a run of enqueues, an agent's pending list is its old list followed
   * by exactly the records of the requests addressed to it, in request order.
   */
  lemma {:induction false} RunEnqueuesPending(d: Disk, reqs: seq<Request>, agent: AgentId)
    ensures FetchTasks(RunEnqueues(d, reqs).disk, agent) == FetchTasks(d, agent) + IssuedFor(reqs, agent)
    decreases |reqs|
  {
    if |reqs| > 0 {
      var n := |reqs| - 1;
      RunEnqueuesPending(d, reqs[..n], agent);
      var tail := if reqs[n].agent == agent then [Issue(reqs[n])] else [];
      assert FetchTasks(d, agent) + IssuedFor(reqs[..n], agent) + tail
          == FetchTasks(d, agent) + (IssuedFor(reqs[..n], agent) + tail);
    }
  }

  /**
   * N enqueues for one agent, starting from no entry, leave that agent with
   * exactly N pending records: the requests' records in enqueue order.
   */
  lemma {:induction false} EnqueueNForNewAgent(d: Disk, reqs: seq<Request>, agent: AgentId)
    requires agent !in Tasks(d)
    requires forall k :: 0 <= k < |reqs| ==> reqs[k].agent == agent
    ensures var ts := FetchTasks(RunEnqueues(d, reqs).disk, agent);
      |ts| == |reqs| && forall k :: 0 <= k < |reqs| ==> ts[k] == Issue(reqs[k])
    decreases |reqs|
  {
    RunEnqueuesPending(d, reqs, agent);
    IssuedForOneAgent(reqs, agent);
  }

  /** When every request is for `agent`, its issued records are the requests' records, one each. */
  lemma {:induction false} IssuedForOneAgent(reqs: seq<Request>, agent: AgentId)
    requires forall k :: 0 <= k < |reqs| ==> reqs[k].agent == agent
    ensures |IssuedFor(reqs, agent)| == |reqs|
    ensures forall k :: 0 <= k < |reqs| ==> IssuedFor(reqs, agent)[k] == Issue(reqs[k])
    decreases |reqs|
  {
    if |reqs| > 0 {
      var n := |reqs| - 1;
      IssuedForOneAgent(reqs[..n], agent);
      forall k | 0 <= k < n ensures IssuedFor(reqs, agent)[k] == Issue(reqs[k]) {
        assert reqs[..n][k] == reqs[k];
      }
    }
  }

  // ---------------------------------------------------------------------------
  // Independence of the two documents
  // ---------------------------------------------------------------------------

  /**
   * Recording a result accepts any task identifier, queued or not, and
   * leaves every agent's pending tasks as they were. A corollary of the
   * contract of `UploadResults`, stated in terms of `FetchTasks`.
   */
  lemma UploadKeepsPending(d: Disk, agent: AgentId, taskId: string, output: string, received: string, other: AgentId)
    ensures var d' := UploadResults(d, agent, taskId, output, received);
      FetchTasks(d', other) == FetchTasks(d, other)
      && ResultsOf(d', agent)[|ResultsOf(d, agent)|] == ResultRecord(taskId, output, received)
  {
  }

  /**
   * Enqueueing leaves every agent's result log as it was, so the two
   * documents only interact through what the agents report. A corollary of
   * the `resultFile` clause of `AddTask`, stated per agent.
   */
  lemma AddTaskKeepsResults(d: Disk, agent: AgentId, text: string, freshId: string, issued: string, other: AgentId)
    ensures ResultsOf(AddTask(d, agent, text, freshId, issued).disk, other) == ResultsOf(d, other)
  {
  }
}
