/**
 * The agent side of one beacon cycle, without its transport: the toy task
 * interpreter, the reading of the fetch reply, and the list of reports an
 * agent produces for the tasks it fetched.
 */
module Agent {
  import opened Wrappers
  import opened Server

  /** Output for the `"hello"` task. */
  const HelloOutput: string := "world"

  /** Prefix of the output for the `"time"` task; the clock reading follows it. */
  const TimePrefix: string := "Current time: "

  /** Prefix of the output for any other task; the task text follows it. */
  const UnknownPrefix: string := "Unknown task: "

  /** `p` is a prefix of `s`. */
  predicate HasPrefix(p: string, s: string)
  {
    |p| <= |s| && s[..|p|] == p
  }

  /**
   * The agent's simulated command interpreter. `now` is the wall-clock
   * reading taken when a `"time"` task runs. Which of the three branches
   * produced an output can be read back from the output alone.
   */
  function PerformTask(text: string, now: string): (out: string)
    ensures text == "time" ==> out == TimePrefix + now
    ensures text != "hello" && text != "time" ==> out == UnknownPrefix + text
    ensures out == HelloOutput <==> text == "hello"
    ensures HasPrefix(TimePrefix, out) <==> text == "time"
    ensures HasPrefix(UnknownPrefix, out) <==> text != "hello" && text != "time"
  {
    if text == "hello" then
      HelloOutput
    else if text == "time" then
      assert (TimePrefix + now)[..|TimePrefix|] == TimePrefix;
      assert (TimePrefix + now)[0] == 'C' != UnknownPrefix[0];
      TimePrefix + now
    else
      assert (UnknownPrefix + text)[..|UnknownPrefix|] == UnknownPrefix;
      assert (UnknownPrefix + text)[0] == 'U' != TimePrefix[0];
      UnknownPrefix + text
  }

  /** For a task the agent does not know, the task text is recoverable from the output. */
  lemma UnknownTaskEchoed(text: string, now: string)
    requires text != "hello" && text != "time"
    ensures PerformTask(text, now)[|UnknownPrefix|..] == text
  {
  }

  /**
   * What the agent's GET for its tasks can yield: a transport failure
   * (connection error, timeout, a body that is not JSON), or a JSON object
   * whose `"tasks"` member may be absent.
   */
  datatype FetchReply = TransportFailure | Body(tasks: Option<seq<TaskRecord>>)

  /** The agent's task fetch: the `"tasks"` list, or the empty list on any failure. */
  function ClientFetch(reply: FetchReply): (ts: seq<TaskRecord>)
    ensures reply.Body? && reply.tasks.Some? ==> ts == reply.tasks.value
    ensures ts != [] <==> reply.Body? && reply.tasks.Some? && reply.tasks.value != []
  {
    match reply
    case Body(Some(tasks)) => tasks
    case _ => []
  }

  /** What the agent sends back for one task. */
  datatype Report = Report(taskId: string, output: string)

  /**
   * The reports of one cycle, one per fetched task and in fetched order;
   * `clock[i]` is the clock reading while task `i` runs.
   */
  function Reports(tasks: seq<TaskRecord>, clock: seq<string>): (rs: seq<Report>)
    requires |clock| == |tasks|
    ensures |rs| == |tasks|
    ensures forall i :: 0 <= i < |tasks| ==>
      rs[i] == Report(tasks[i].taskId, PerformTask(tasks[i].task, clock[i]))
    decreases |tasks|
  {
    if |tasks| == 0 then []
    else
      var n := |tasks| - 1;
      assert forall i :: 0 <= i < n ==> tasks[..n][i] == tasks[i] && clock[..n][i] == clock[i];
      Reports(tasks[..n], clock[..n]) + [Report(tasks[n].taskId, PerformTask(tasks[n].task, clock[n]))]
  }

  /** The identifiers of a list of records, in order, read with the accessor `id`. */
  function IdsOf<T>(s: seq<T>, id: T -> string): (ids: seq<string>)
    ensures |ids| == |s|
    ensures forall i :: 0 <= i < |s| ==> ids[i] == id(s[i])
  {
    seq(|s|, i requires 0 <= i < |s| => id(s[i]))
  }

  /** The identifier list of a concatenation is the concatenation of the identifier lists. */
  lemma IdsOfAppend<T>(a: seq<T>, b: seq<T>, id: T -> string)
    ensures IdsOf(a + b, id) == IdsOf(a, id) + IdsOf(b, id)
  {
    var l, r := IdsOf(a + b, id), IdsOf(a, id) + IdsOf(b, id);
    assert |l| == |r|;
    forall i | 0 <= i < |l| ensures l[i] == r[i] {
      if i < |a| { assert (a + b)[i] == a[i]; } else { assert (a + b)[i] == b[i - |a|]; }
    }
  }

  /** The identifier of a queued task. */
  function TaskIdOf(t: TaskRecord): string { t.taskId }

  /** The identifier a report names. */
  function ReportIdOf(r: Report): string { r.taskId }

  /** The identifier a result record names. */
  function ResultIdOf(r: ResultRecord): string { r.taskId }

  /** A cycle reports on exactly the fetched tasks, in fetched order. */
  lemma ReportsCoverFetched(tasks: seq<TaskRecord>, clock: seq<string>)
    requires |clock| == |tasks|
    ensures IdsOf(Reports(tasks, clock), ReportIdOf) == IdsOf(tasks, TaskIdOf)
  {
  }
}
