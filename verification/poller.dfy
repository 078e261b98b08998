/** One iteration of `poll_batch_job` in `src/batch.py`, and a run of iterations.
    The remote batch service is not called: each iteration is given what the service
    answered (`RemoteView`), and `json.loads` is the parameter `parse`. The session's
    `interrupt(force=True)` and `say(...)` become notices appended to a list. */
module Poller {
  import opened Wrappers
  import opened Json
  import opened JobStore
  import Text

  /** What `batch_client.files.content(...)` gave: the output text, or an exception. */
  datatype Fetch = FetchRaised | Fetched(text: string)

  /** What one iteration learns from the service: `batches.retrieve` raised, or it
      reported a status (and, when the job is completed, the output fetch). */
  datatype RemoteView = RetrieveRaised | Reported(status: string, output: Fetch)

  /** What the poller does to the live session. */
  datatype Notice = Interrupt | Say(text: string)

  datatype Control = KeepPolling | Stop

  /** One `save_tasks` of the record for `key`. */
  datatype Write = Write(key: string, rec: JobRecord)

  datatype StepResult = StepResult(disk: Disk, writes: seq<Write>, notices: seq<Notice>, control: Control)

  /** How the loop reads a remote status string. */
  datatype RemoteClass = RemoteCompleted | RemoteEnded(status: JobStatus) | InFlight

  const DefaultContent := "Task completed."
  const NoResultsText := "Task completed but no results found."

  function ReadyMessage(description: string): string {
    "Your task '" + description + "' is ready. Would you like me to read the results?"
  }

  function SorryMessage(description: string, status: string): string {
    "Sorry, your task '" + description + "' has " + status + ". Would you like me to try again?"
  }

  /** `"completed"` ends the job with a result; `"failed"`, `"expired"` and `"cancelled"`
      end it without one, and the record stores that same string; anything else is in flight. */
  function Classify(status: string): (c: RemoteClass)
    ensures c.RemoteCompleted? <==> status == "completed"
    ensures c.RemoteEnded? <==> status == "failed" || status == "expired" || status == "cancelled"
    ensures c.RemoteEnded? ==> c.status.IsTerminal() && c.status != Completed && c.status.Name() == status
  {
    if status == "completed" then RemoteCompleted
    else if status == "failed" then RemoteEnded(Failed)
    else if status == "expired" then RemoteEnded(Expired)
    else if status == "cancelled" then RemoteEnded(Cancelled)
    else InFlight
  }

  /** `text.strip().split('\n')[0]`: the stripped output up to its first newline. */
  function FirstLine(text: string): (line: string)
    ensures '\n' !in line
    ensures |line| <= |Text.Strip(text)| && line == Text.Strip(text)[..|line|]
    ensures line == Text.Strip(text) || Text.Strip(text)[|line|] == '\n'
  {
    Text.Split(Text.Strip(text), '\n')[0]
  }

  /** The lookup chain on the first output record:
      `first.get("response", {}).get("body", {}).get("choices", [{}])[0].get("message", {}).get("content", "Task completed.")`. */
  function ExtractContent(first: Json): (r: Eval)
    ensures r.Ok? ==> first.JObj?
    ensures !first.JObj? ==> r == Raised(AttributeError)
  {
    var response :- DictGet(first, "response", EmptyObject);
    var body :- DictGet(response, "body", EmptyObject);
    var choices :- DictGet(body, "choices", JArr([EmptyObject]));
    var choice :- Index0(choices);
    var message :- DictGet(choice, "message", EmptyObject);
    DictGet(message, "content", JStr(DefaultContent))
  }

  /** The result text of a completed job, as `poll_batch_job` computes it. The `else`
      branch is kept as written; `NoResultsBranchUnreachable` shows it is never taken. */
  function ExtractResult(text: string, parse: string -> Option<Json>): Eval {
    var lines := Text.Split(Text.Strip(text), '\n');
    if |lines| > 0 then
      match parse(lines[0])
      case None => Raised(DecodeError)
      case Some(first) => ExtractContent(first)
    else
      Ok(JStr(NoResultsText))
  }

  /** One loop iteration after the sleep. Any exception inside the `try` (from the
      service, from `json.loads`, or from the lookup chain) is swallowed and the loop
      goes on; a terminal status writes the record once, interrupts, speaks, and stops. */
  function PollStep(disk: Disk, batchId: string, description: string, view: RemoteView,
                    parse: string -> Option<Json>): (r: StepResult)
    ensures r.control == KeepPolling ==> r.disk == disk && r.writes == [] && r.notices == []
    ensures r.control == Stop ==>
      && |r.writes| == 1
      && r.writes[0].key == batchId
      && r.writes[0].rec.description == description
      && r.writes[0].rec.status.IsTerminal()
      && r.disk == Update(disk, batchId, r.writes[0].rec)
      && |r.notices| == 2 && r.notices[0] == Interrupt && r.notices[1].Say?
    ensures DiskInvariant(disk) ==> DiskInvariant(r.disk)
  {
    var keepPolling := StepResult(disk, [], [], KeepPolling);
    match view
    case RetrieveRaised => keepPolling
    case Reported(status, output) =>
      match Classify(status)
      case InFlight => keepPolling
      case RemoteCompleted =>
        (match output
         case FetchRaised => keepPolling
         case Fetched(text) =>
           match ExtractResult(text, parse)
           case Raised(_) => keepPolling
           case Ok(content) =>
             Finish(disk, batchId, JobRecord(description, Completed, content), ReadyMessage(description)))
      case RemoteEnded(st) =>
        Finish(disk, batchId, JobRecord(description, st, JNull), SorryMessage(description, status))
  }

  /** The end of a terminal iteration: `save_tasks` of one record, then
      `interrupt(force=True)` and `say(message)`, then `break`. */
  function Finish(disk: Disk, batchId: string, rec: JobRecord, message: string): (r: StepResult)
    requires rec.status.IsTerminal()
    requires rec.status != Completed ==> rec.result == JNull
    ensures r.control == Stop && r.writes == [Write(batchId, rec)]
    ensures r.disk == Update(disk, batchId, rec) && r.notices == [Interrupt, Say(message)]
    ensures DiskInvariant(disk) ==> DiskInvariant(r.disk)
  {
    UpdatePreservesInvariant(disk, batchId, rec);
    StepResult(Update(disk, batchId, rec), [Write(batchId, rec)], [Interrupt, Say(message)], Stop)
  }

  /** The loop over a finite sequence of observations, one per iteration, until the
      first terminal step; `polls` counts the iterations that queried the service. */
  datatype PollRun = PollRun(disk: Disk, writes: seq<Write>, notices: seq<Notice>, stopped: bool, polls: nat)

  /** The loop's control flow over the outcomes of its iterations: the first outcome that
      stops ends the loop with its effects; before it, nothing is written or said. */
  function Loop(disk: Disk, steps: seq<StepResult>): (r: PollRun)
    ensures r.polls <= |steps|
    ensures !r.stopped ==>
      && r == PollRun(disk, [], [], false, |steps|)
      && forall i :: 0 <= i < |steps| ==> steps[i].control == KeepPolling
    ensures r.stopped ==>
      && 1 <= r.polls
      && steps[r.polls - 1].control == Stop
      && r.disk == steps[r.polls - 1].disk
      && r.writes == steps[r.polls - 1].writes
      && r.notices == steps[r.polls - 1].notices
      && forall i :: 0 <= i < r.polls - 1 ==> steps[i].control == KeepPolling
    decreases |steps|
  {
    if |steps| == 0 then PollRun(disk, [], [], false, 0)
    else if steps[0].control == Stop then PollRun(steps[0].disk, steps[0].writes, steps[0].notices, true, 1)
    else
      var rest := Loop(disk, steps[1..]);
      assert steps[0].control == KeepPolling;
      assert forall i :: 1 <= i < |steps| ==> steps[1..][i - 1] == steps[i];
      assert rest.stopped ==> steps[rest.polls] == steps[1..][rest.polls - 1];
      PollRun(rest.disk, rest.writes, rest.notices, rest.stopped, rest.polls + 1)
  }

  /** A loop whose outcomes keep polling up to position `k`, where one stops, stops there. */
  lemma LoopStopsAt(disk: Disk, steps: seq<StepResult>, k: nat)
    requires k < |steps|
    requires forall i :: 0 <= i < k ==> steps[i].control == KeepPolling
    requires steps[k].control == Stop
    ensures Loop(disk, steps).stopped && Loop(disk, steps).polls == k + 1
  {
    assert steps[k].control != KeepPolling;
  }

  /** The outcome of each iteration. Every iteration reads the store the run began with:
      one that keeps polling writes nothing. */
  function Steps(disk: Disk, batchId: string, description: string, views: seq<RemoteView>,
                 parse: string -> Option<Json>): (steps: seq<StepResult>)
    ensures |steps| == |views|
    decreases |views|
  {
    if |views| == 0 then []
    else [PollStep(disk, batchId, description, views[0], parse)] + Steps(disk, batchId, description, views[1..], parse)
  }

  /** Helper: the outcome at position `i` is the step on the `i`-th observation. */
  lemma {:induction false} StepAt(disk: Disk, batchId: string, description: string, views: seq<RemoteView>,
                                  parse: string -> Option<Json>, i: nat)
    requires i < |views|
    ensures Steps(disk, batchId, description, views, parse)[i] == PollStep(disk, batchId, description, views[i], parse)
    decreases i
  {
    if i > 0 {
      StepAt(disk, batchId, description, views[1..], parse, i - 1);
      assert views[1..][i - 1] == views[i];
    }
  }

  function RunPoller(disk: Disk, batchId: string, description: string, views: seq<RemoteView>,
                     parse: string -> Option<Json>): (r: PollRun)
    ensures r.polls <= |views|
    ensures |r.writes| <= 1
    ensures r.stopped <==> |r.writes| == 1
    ensures !r.stopped ==> r.disk == disk && r.notices == [] && r.polls == |views|
    ensures r.stopped ==>
      && r.writes[0].key == batchId
      && r.writes[0].rec.description == description
      && r.writes[0].rec.status.IsTerminal()
      && r.disk == Update(disk, batchId, r.writes[0].rec)
      && |r.notices| == 2 && r.notices[0] == Interrupt && r.notices[1].Say?
    ensures DiskInvariant(disk) ==> DiskInvariant(r.disk)
    decreases |views|
  {
    if |views| == 0 then PollRun(disk, [], [], false, 0)
    else
      var step := PollStep(disk, batchId, description, views[0], parse);
      if step.control == Stop then PollRun(step.disk, step.writes, step.notices, true, 1)
      else
        var rest := RunPoller(disk, batchId, description, views[1..], parse);
        PollRun(rest.disk, rest.writes, rest.notices, rest.stopped, rest.polls + 1)
  }

  /** The run is the loop's control flow over the outcomes of its iterations. */
  lemma {:induction false} RunPollerIsLoop(disk: Disk, batchId: string, description: string,
                                           views: seq<RemoteView>, parse: string -> Option<Json>)
    ensures RunPoller(disk, batchId, description, views, parse)
         == Loop(disk, Steps(disk, batchId, description, views, parse))
    decreases |views|
  {
    if |views| > 0 {
      var steps := Steps(disk, batchId, description, views, parse);
      RunPollerIsLoop(disk, batchId, description, views[1..], parse);
      assert steps[0] == PollStep(disk, batchId, description, views[0], parse);
      assert steps[1..] == Steps(disk, batchId, description, views[1..], parse);
    }
  }

  /** A stopped run's store, write and notices are exactly those of the iteration it
      stopped at. */
  lemma RunStoppingStep(disk: Disk, batchId: string, description: string,
                        views: seq<RemoteView>, parse: string -> Option<Json>)
    ensures var r := RunPoller(disk, batchId, description, views, parse);
      r.stopped ==>
        && 1 <= r.polls
        && var s := PollStep(disk, batchId, description, views[r.polls - 1], parse);
        && r.disk == s.disk && r.writes == s.writes && r.notices == s.notices
  {
    var r := Loop(disk, Steps(disk, batchId, description, views, parse));
    RunPollerIsLoop(disk, batchId, description, views, parse);
    if r.stopped {
      StepAt(disk, batchId, description, views, parse, r.polls - 1);
    }
  }

  /** The run stops at the first terminal observation and queries the service no further;
      every iteration before it kept polling. Without a terminal observation it uses them all. */
  lemma RunStopsAtFirstTerminal(disk: Disk, batchId: string, description: string,
                                views: seq<RemoteView>, parse: string -> Option<Json>)
    ensures var r := RunPoller(disk, batchId, description, views, parse);
      && (forall i :: 0 <= i < r.polls - 1 ==>
            PollStep(disk, batchId, description, views[i], parse).control == KeepPolling)
      && (r.stopped <==> r.polls >= 1 && PollStep(disk, batchId, description, views[r.polls - 1], parse).control == Stop)
      && (!r.stopped ==> forall i :: 0 <= i < |views| ==>
            PollStep(disk, batchId, description, views[i], parse).control == KeepPolling)
  {
    var steps := Steps(disk, batchId, description, views, parse);
    var r := Loop(disk, steps);
    RunPollerIsLoop(disk, batchId, description, views, parse);
    forall i | 0 <= i < |views|
      ensures PollStep(disk, batchId, description, views[i], parse) == steps[i]
    {
      StepAt(disk, batchId, description, views, parse, i);
    }
  }

  /** Iterations that keep polling, then one that stops: the run stops there, after
      exactly that many polls, with that iteration's write and notices, whatever follows. */
  lemma RunStopsAt(disk: Disk, batchId: string, description: string,
                   pending: seq<RemoteView>, final: RemoteView, later: seq<RemoteView>,
                   parse: string -> Option<Json>)
    requires forall i :: 0 <= i < |pending| ==>
      PollStep(disk, batchId, description, pending[i], parse).control == KeepPolling
    requires PollStep(disk, batchId, description, final, parse).control == Stop
    ensures var r := RunPoller(disk, batchId, description, pending + [final] + later, parse);
            var s := PollStep(disk, batchId, description, final, parse);
      && r.stopped && r.polls == |pending| + 1
      && r.disk == s.disk && r.writes == s.writes && r.notices == s.notices
  {
    var views := pending + [final] + later;
    var steps := Steps(disk, batchId, description, views, parse);
    forall i | 0 <= i < |pending|
      ensures steps[i].control == KeepPolling
    {
      StepAt(disk, batchId, description, views, parse, i);
      assert views[i] == pending[i];
    }
    StepAt(disk, batchId, description, views, parse, |pending|);
    assert views[|pending|] == final;
    LoopStopsAt(disk, steps, |pending|);
    RunPollerIsLoop(disk, batchId, description, views, parse);
    RunStoppingStep(disk, batchId, description, views, parse);
  }

  /** A run of iterations that keep polling followed by a completed job with extractable
      content stores `{description, "completed", content}`, says "ready" once, and stops. */
  lemma RunCompletes(disk: Disk, batchId: string, description: string, pending: seq<RemoteView>,
                     text: string, later: seq<RemoteView>, parse: string -> Option<Json>, content: Json)
    requires forall i :: 0 <= i < |pending| ==>
      PollStep(disk, batchId, description, pending[i], parse).control == KeepPolling
    requires ExtractResult(text, parse) == Ok(content)
    ensures var r := RunPoller(disk, batchId, description,
                               pending + [Reported("completed", Fetched(text))] + later, parse);
      && r.stopped && r.polls == |pending| + 1
      && Load(r.disk).entries == Load(disk).entries[batchId := JobRecord(description, Completed, content)]
      && r.writes == [Write(batchId, JobRecord(description, Completed, content))]
      && r.notices == [Interrupt, Say(ReadyMessage(description))]
  {
    PollCompleted(disk, batchId, description, text, parse, content);
    RunStopsAt(disk, batchId, description, pending, Reported("completed", Fetched(text)), later, parse);
  }

  /** A run of iterations that keep polling followed by a failed, expired or cancelled
      job stores `{description, status, None}`, apologises once, and stops. */
  lemma RunEnds(disk: Disk, batchId: string, description: string, pending: seq<RemoteView>,
                status: string, output: Fetch, later: seq<RemoteView>, parse: string -> Option<Json>)
    requires forall i :: 0 <= i < |pending| ==>
      PollStep(disk, batchId, description, pending[i], parse).control == KeepPolling
    requires status == "failed" || status == "expired" || status == "cancelled"
    ensures var r := RunPoller(disk, batchId, description, pending + [Reported(status, output)] + later, parse);
      && r.stopped && r.polls == |pending| + 1
      && batchId in Load(r.disk).entries
      && Load(r.disk).entries[batchId].description == description
      && Load(r.disk).entries[batchId].status.Name() == status
      && Load(r.disk).entries[batchId].result == JNull
      && (forall k :: k != batchId ==> (k in Load(r.disk).entries <==> k in Load(disk).entries))
      && (forall k :: k != batchId && k in Load(disk).entries ==> Load(r.disk).entries[k] == Load(disk).entries[k])
      && r.notices == [Interrupt, Say(SorryMessage(description, status))]
  {
    PollEnded(disk, batchId, description, status, output, parse);
    RunStopsAt(disk, batchId, description, pending, Reported(status, output), later, parse);
  }

  /** The shape of a first output record the lookup chain accepts: each level that is
      present is a dict, and `choices`, when present, is a non-empty list whose first
      element is a dict. A missing level stands for its default. */
  ghost predicate ChainShaped(first: Json) {
    && first.JObj?
    && var response := Get(first.fields, "response").GetOr(EmptyObject);
    && response.JObj?
    && var body := Get(response.fields, "body").GetOr(EmptyObject);
    && body.JObj?
    && var choices := Get(body.fields, "choices").GetOr(JArr([EmptyObject]));
    && choices.JArr?
    && |choices.items| > 0
    && choices.items[0].JObj?
    && Get(choices.items[0].fields, "message").GetOr(EmptyObject).JObj?
  }

  /** The chain raises exactly when the record is not so shaped. */
  lemma ExtractSucceedsIff(first: Json)
    ensures ExtractContent(first).Ok? <==> ChainShaped(first)
  {
  }

  /** With every level present, the result is the `content` value as it is, JSON
      `null` included (stored as a `None` result). */
  lemma ExtractFullPath(f0: seq<(string, Json)>, f1: seq<(string, Json)>, f2: seq<(string, Json)>,
                        f3: seq<(string, Json)>, f4: seq<(string, Json)>, rest: seq<Json>, content: Json)
    requires HasField(f0, "response", JObj(f1))
    requires HasField(f1, "body", JObj(f2))
    requires HasField(f2, "choices", JArr([JObj(f3)] + rest))
    requires HasField(f3, "message", JObj(f4))
    requires HasField(f4, "content", content)
    ensures ExtractContent(JObj(f0)) == Ok(content)
  {
  }

  /** A missing `response`, `body` or `message` reads as `{}`, a missing `choices` as
      `[{}]`, and a missing `content` gives "Task completed.". */
  lemma ExtractMissingLevels(f0: seq<(string, Json)>, f1: seq<(string, Json)>, f2: seq<(string, Json)>,
                             f3: seq<(string, Json)>, f4: seq<(string, Json)>, rest: seq<Json>)
    ensures LacksField(f0, "response") ==> ExtractContent(JObj(f0)) == Ok(JStr(DefaultContent))
    ensures HasField(f0, "response", JObj(f1)) && LacksField(f1, "body") ==>
              ExtractContent(JObj(f0)) == Ok(JStr(DefaultContent))
    ensures HasField(f0, "response", JObj(f1)) && HasField(f1, "body", JObj(f2))
            && LacksField(f2, "choices") ==>
              ExtractContent(JObj(f0)) == Ok(JStr(DefaultContent))
    ensures HasField(f0, "response", JObj(f1)) && HasField(f1, "body", JObj(f2))
            && HasField(f2, "choices", JArr([JObj(f3)] + rest)) && LacksField(f3, "message") ==>
              ExtractContent(JObj(f0)) == Ok(JStr(DefaultContent))
    ensures HasField(f0, "response", JObj(f1)) && HasField(f1, "body", JObj(f2))
            && HasField(f2, "choices", JArr([JObj(f3)] + rest)) && HasField(f3, "message", JObj(f4))
            && LacksField(f4, "content") ==>
              ExtractContent(JObj(f0)) == Ok(JStr(DefaultContent))
  {
  }

  /** The failures the chain raises: a first record that is not a dict, a level present
      but not a dict, and an empty `choices` list. */
  lemma ExtractFailures(f0: seq<(string, Json)>, f1: seq<(string, Json)>, f2: seq<(string, Json)>, v: Json)
    ensures !v.JObj? ==> ExtractContent(v) == Raised(AttributeError)
    ensures HasField(f0, "response", v) && !v.JObj? ==> ExtractContent(JObj(f0)) == Raised(AttributeError)
    ensures HasField(f0, "response", JObj(f1)) && HasField(f1, "body", v) && !v.JObj? ==>
              ExtractContent(JObj(f0)) == Raised(AttributeError)
    ensures HasField(f0, "response", JObj(f1)) && HasField(f1, "body", JObj(f2))
            && HasField(f2, "choices", JArr([])) ==>
              ExtractContent(JObj(f0)) == Raised(IndexError)
    ensures HasField(f0, "response", JObj(f1)) && HasField(f1, "body", JObj(f2))
            && HasField(f2, "choices", v) && !v.JArr? ==>
              ExtractContent(JObj(f0)).Raised?
  {
  }

  /** `strip().split('\n')` is never empty, so the "no results found" branch is dead:
      the result always comes from parsing the first line. */
  lemma NoResultsBranchUnreachable(text: string, parse: string -> Option<Json>)
    ensures ExtractResult(text, parse) ==
              match parse(FirstLine(text))
              case None => Raised(DecodeError)
              case Some(first) => ExtractContent(first)
  {
  }

  /** Completed with extractable content: the job's entry becomes
      `{description, "completed", content}`, every other entry is untouched, the user
      is interrupted and told the task is ready, and polling stops. */
  lemma PollCompleted(disk: Disk, batchId: string, description: string, text: string,
                      parse: string -> Option<Json>, content: Json)
    requires ExtractResult(text, parse) == Ok(content)
    ensures var r := PollStep(disk, batchId, description, Reported("completed", Fetched(text)), parse);
      && r.control == Stop
      && Load(r.disk).entries == Load(disk).entries[batchId := JobRecord(description, Completed, content)]
      && r.writes == [Write(batchId, JobRecord(description, Completed, content))]
      && r.notices == [Interrupt, Say(ReadyMessage(description))]
  {
  }

  /** Failed, expired or cancelled: the entry becomes `{description, status, None}`,
      every other entry is untouched, the user hears an apology, and polling stops. */
  lemma PollEnded(disk: Disk, batchId: string, description: string, status: string, output: Fetch,
                  parse: string -> Option<Json>)
    requires status == "failed" || status == "expired" || status == "cancelled"
    ensures var r := PollStep(disk, batchId, description, Reported(status, output), parse);
      && r.control == Stop
      && batchId in Load(r.disk).entries
      && Load(r.disk).entries[batchId].description == description
      && Load(r.disk).entries[batchId].status.Name() == status
      && Load(r.disk).entries[batchId].result == JNull
      && (forall k :: k != batchId ==> (k in Load(r.disk).entries <==> k in Load(disk).entries))
      && (forall k :: k != batchId && k in Load(disk).entries ==> Load(r.disk).entries[k] == Load(disk).entries[k])
      && r.notices == [Interrupt, Say(SorryMessage(description, status))]
  {
  }

  /** The loop goes on, with the store untouched and nothing said, exactly when the
      service raised, the status is not terminal, or a completed job's output could not
      be fetched or read. */
  lemma PollContinuesIff(disk: Disk, batchId: string, description: string, view: RemoteView,
                         parse: string -> Option<Json>)
    ensures PollStep(disk, batchId, description, view, parse).control == KeepPolling <==>
      || view.RetrieveRaised?
      || Classify(view.status).InFlight?
      || (view.status == "completed" && view.output.FetchRaised?)
      || (view.status == "completed" && view.output.Fetched? && ExtractResult(view.output.text, parse).Raised?)
  {
  }

  /** A completed job whose output is blank is never recorded: `json.loads('')` raises
      on every iteration, so the poller keeps polling for as long as it is observed. */
  lemma {:induction false} BlankOutputPollsForever(disk: Disk, batchId: string, description: string,
                                                    text: string, parse: string -> Option<Json>, n: nat)
    requires forall i :: 0 <= i < |text| ==> Text.IsSpace(text[i])
    requires parse("") == None
    ensures var r := RunPoller(disk, batchId, description, seq(n, _ => Reported("completed", Fetched(text))), parse);
      !r.stopped && r.disk == disk && r.notices == []
  {
    var views := seq(n, _ => Reported("completed", Fetched(text)));
    assert FirstLine(text) == "";
    var view := Reported("completed", Fetched(text));
    assert PollStep(disk, batchId, description, view, parse).control == KeepPolling;
    RunStopsAtFirstTerminal(disk, batchId, description, views, parse);
  }
}
