/** A job's whole life: `submit_batch_task` creates its entry and starts its poller,
    and `poll_batch_job` runs until the job ends. */
module Lifecycle {
  import opened Wrappers
  import opened Json
  import opened JobStore
  import opened Poller
  import opened Assistant

  /** A poller run on a store where its job is `processing` with no result: the entry
      is terminal exactly when the poller stopped, keeps its description, every other
      entry is untouched, and the invariant holds. While the job is in flight, asking
      for its result says it is still processing. */
  lemma PollFromProcessing(disk: Disk, batchId: string, description: string,
                           views: seq<RemoteView>, parse: string -> Option<Json>)
    requires batchId in Load(disk).entries
    requires Load(disk).entries[batchId] == JobRecord(description, Processing, JNull)
    requires DiskInvariant(disk)
    ensures var run := RunPoller(disk, batchId, description, views, parse);
      && batchId in Load(run.disk).entries
      && Load(run.disk).entries[batchId].description == description
      && (run.stopped <==> Load(run.disk).entries[batchId].status.IsTerminal())
      && (forall k :: k != batchId && k in Load(disk).entries ==>
            k in Load(run.disk).entries && Load(run.disk).entries[k] == Load(disk).entries[k])
      && DiskInvariant(run.disk)
      && (!run.stopped ==>
            GetTaskResult(run.disk, batchId) == StillRunningReply(description, "processing"))
  {
    var run := RunPoller(disk, batchId, description, views, parse);
    if run.stopped {
      assert Load(run.disk).entries == Load(disk).entries[batchId := run.writes[0].rec];
    } else {
      assert run.disk == disk;
      InFlightReply(disk, batchId, description, JNull);
    }
  }

  /** After an accepted submission that created batch `batchId`, the entry is
      `processing` with no result and every other entry is as before; then its poller's
      run behaves as `PollFromProcessing` says, so entries other than the job's own are
      still those from before the submission. */
  lemma SubmitThenPoll(gate: Gate, disk: Disk, description: string, prompt: string, now: int,
                       batchId: string, cleanup: Option<string>, hasSession: bool,
                       views: seq<RemoteView>, parse: string -> Option<Json>)
    requires Admits(gate, now)
    requires DiskInvariant(disk)
    ensures var sub := Submit(gate, disk, description, prompt, now, Created(batchId, cleanup), hasSession);
            var run := RunPoller(sub.disk, batchId, description, views, parse);
      && Load(sub.disk).entries == Load(disk).entries[batchId := JobRecord(description, Processing, JNull)]
      && batchId in Load(run.disk).entries
      && (run.stopped <==> Load(run.disk).entries[batchId].status.IsTerminal())
      && (forall k :: k != batchId && k in Load(disk).entries ==>
            k in Load(run.disk).entries && Load(run.disk).entries[k] == Load(disk).entries[k])
      && DiskInvariant(run.disk)
  {
    var sub := Submit(gate, disk, description, prompt, now, Created(batchId, cleanup), hasSession);
    var before := Load(disk).entries;
    var created := Load(sub.disk).entries;
    assert created == before[batchId := JobRecord(description, Processing, JNull)];
    assert batchId in created && created[batchId] == JobRecord(description, Processing, JNull);
    assert DiskInvariant(sub.disk);
    var run := RunPoller(sub.disk, batchId, description, views, parse);
    PollFromProcessing(sub.disk, batchId, description, views, parse);
    var after := Load(run.disk).entries;
    forall k | k != batchId && k in before
      ensures k in after && after[k] == before[k]
    {
      assert k in created && created[k] == before[k];
    }
  }

  const Description := "coffee shop business plan"
  const PlanText := "Plan: ..."
  const OutputLine := "{\"response\": {\"body\": {\"choices\": [{\"message\": {\"content\": \"Plan: ...\"}}]}}}"

  /** What `json.loads` makes of the first line of `OutputLine`. */
  const OutputRecord: Json :=
    JObj([("response", JObj([("body", JObj([("choices", JArr([
      JObj([("message", JObj([("content", JStr(PlanText))]))])]))]))]))])

  function ParseOutput(line: string): Option<Json> {
    if line == FirstLine(OutputLine) then Some(OutputRecord) else None
  }

  /** The one-line output reads as "Plan: ...". */
  lemma OutputLineExtracts()
    ensures ExtractResult(OutputLine, ParseOutput) == Ok(JStr(PlanText))
  {
    var f4 := [("content", JStr(PlanText))];
    var f3 := [("message", JObj(f4))];
    var f2 := [("choices", JArr([JObj(f3)]))];
    var f1 := [("body", JObj(f2))];
    var f0 := [("response", JObj(f1))];
    assert OutputRecord == JObj(f0);
    var none: seq<Json> := [];
    assert [JObj(f3)] + none == [JObj(f3)];
    ExtractFullPath(f0, f1, f2, f3, f4, none, JStr(PlanText));
  }

  /** The business-plan scenario: a first poll sees the job in flight, the second sees it
      completed with a one-line output. The poller stops after two polls with the entry
      completed and holding "Plan: ...", says "ready" once, and the user can read the plan. */
  lemma CoffeeShopScenario(disk: Disk, batchId: string)
    ensures var run := RunPoller(disk, batchId, Description,
                                 [Reported("in_progress", FetchRaised), Reported("completed", Fetched(OutputLine))],
                                 ParseOutput);
      && run.stopped
      && run.polls == 2
      && Load(run.disk).entries[batchId] == JobRecord(Description, Completed, JStr(PlanText))
      && run.notices == [Interrupt, Say(ReadyMessage(Description))]
      && GetTaskResult(run.disk, batchId) == "Results for '" + Description + "':\n\n" + PlanText
  {
    var first := Reported("in_progress", FetchRaised);
    var second := Reported("completed", Fetched(OutputLine));
    var views := [first, second];
    assert Classify("in_progress") == InFlight;
    assert PollStep(disk, batchId, Description, first, ParseOutput).control == KeepPolling;
    OutputLineExtracts();
    PollCompleted(disk, batchId, Description, OutputLine, ParseOutput, JStr(PlanText));
    assert views[1..] == [second];
    var tail := RunPoller(disk, batchId, Description, [second], ParseOutput);
    assert tail.stopped && tail.polls == 1;
    var rec := JobRecord(Description, Completed, JStr(PlanText));
    assert tail.disk == Update(disk, batchId, rec);
    TextResultShown(tail.disk, batchId, Description, PlanText);
  }

  /** The expiry scenario: the first poll sees `expired`. The entry becomes expired with
      no result, the user hears an apology, and the poller queries the service no more. */
  lemma ExpiredScenario(disk: Disk, batchId: string, later: seq<RemoteView>, parse: string -> Option<Json>)
    ensures var run := RunPoller(disk, batchId, Description, [Reported("expired", FetchRaised)] + later, parse);
      && run.stopped
      && run.polls == 1
      && Load(run.disk).entries[batchId] == JobRecord(Description, Expired, JNull)
      && run.notices == [Interrupt, Say(SorryMessage(Description, "expired"))]
  {
    var views := [Reported("expired", FetchRaised)] + later;
    assert views[0] == Reported("expired", FetchRaised);
  }
}
