/** The tools `VoiceAssistant` exposes in `src/assistant.py`: the submission gate and
    store update of `submit_batch_task`, and the read-only `check_task_status` and
    `get_task_result`. The clock, the remote service and the live session are inputs. */
module Assistant {
  import opened Wrappers
  import opened Json
  import opened JobStore
  import Text

  /** Seconds that must pass after an accepted submission before the next is accepted. */
  const Cooldown: int := 60

  /** `_last_submission_time`, in whole seconds. */
  datatype Gate = Gate(lastSubmission: int)

  /** The gate of a freshly constructed assistant. */
  const InitialGate: Gate := Gate(0)

  /** The check at the top of `submit_batch_task`. */
  predicate Admits(gate: Gate, now: int) {
    now - gate.lastSubmission >= Cooldown
  }

  /** What the remote calls of one submission did: the temp file, `files.create` or
      `batches.create` raised; or the batch was created with id `batchId`, after which
      removing the temp file either worked or raised `cleanupError`. */
  datatype SubmitRemote =
    | UploadRaised(error: string)
    | Created(batchId: string, cleanupError: Option<string>)

  /** The one-line batch input written for the service (its fixed model, system
      instruction and generation parameters are not modelled). */
  datatype BatchRequest = BatchRequest(customId: string, prompt: string)

  /** A poller started for a job: `poll_batch_job(batch.id, session, description)`. */
  datatype PollerStart = PollerStart(batchId: string, description: string)

  /** Everything one call of `submit_batch_task` leaves behind. */
  datatype Submission = Submission(gate: Gate, disk: Disk, reply: string,
                                   request: Option<BatchRequest>, poller: Option<PollerStart>)

  const RateLimitedReply := "A task was already submitted recently. Please wait for it to complete."

  function FailureReply(error: string): string {
    "Failed to submit task: " + error
  }

  function SuccessReply(description: string, batchId: string): string {
    "Task '" + description + "' submitted successfully. Job ID: " + batchId
      + ". The user will be notified when complete."
  }

  /** `f"task-{len(load_tasks()) + 1}"`. */
  function CustomId(size: nat): string {
    "task-" + Text.NatToString(size + 1)
  }

  /** One call of `submit_batch_task` at time `now`. A call inside the cooldown changes
      nothing. Otherwise the gate moves to `now` before any remote call, so it moves even
      when the submission then fails; a created batch gets a `processing` entry with no
      result, and a poller when a session is attached. */
  function Submit(gate: Gate, disk: Disk, description: string, prompt: string, now: int,
                  remote: SubmitRemote, hasSession: bool): (r: Submission)
    ensures !Admits(gate, now) ==> r == Submission(gate, disk, RateLimitedReply, None, None)
    ensures Admits(gate, now) ==>
      && r.gate == Gate(now)
      && r.request == Some(BatchRequest(CustomId(Size(Load(disk))), prompt))
    ensures Admits(gate, now) && remote.UploadRaised? ==>
      r.disk == disk && r.poller == None && r.reply == FailureReply(remote.error)
    ensures Admits(gate, now) && remote.Created? ==>
      && Load(r.disk).entries == Load(disk).entries[remote.batchId := JobRecord(description, Processing, JNull)]
      && (r.poller.Some? <==> hasSession)
      && (hasSession ==> r.poller == Some(PollerStart(remote.batchId, description)))
      && (remote.cleanupError.None? ==> r.reply == SuccessReply(description, remote.batchId))
      && (remote.cleanupError.Some? ==> r.reply == FailureReply(remote.cleanupError.value))
    ensures DiskInvariant(disk) ==> DiskInvariant(r.disk)
  {
    if !Admits(gate, now) then
      Submission(gate, disk, RateLimitedReply, None, None)
    else
      var gate' := Gate(now);
      var request := BatchRequest(CustomId(Size(Load(disk))), prompt);
      match remote
      case UploadRaised(error) =>
        Submission(gate', disk, FailureReply(error), Some(request), None)
      case Created(batchId, cleanupError) =>
        var rec := JobRecord(description, Processing, JNull);
        var disk' := Update(disk, batchId, rec);
        UpdatePreservesInvariant(disk, batchId, rec);
        var poller := if hasSession then Some(PollerStart(batchId, description)) else None;
        var reply := match cleanupError
          case None => SuccessReply(description, batchId)
          case Some(e) => FailureReply(e);
        Submission(gate', disk', reply, Some(request), poller)
  }

  /** The gate starts at 0, so a first call is accepted exactly when `now >= 60`. */
  lemma FirstSubmissionGate(now: int)
    ensures Admits(InitialGate, now) <==> now >= 60
  {
  }

  /** After a call accepted at `now`, whatever the service then did, every call before
      `now + 60` is turned away and leaves the store and the gate as they were: a
      second call inside the window creates no second record. */
  lemma CooldownBlocksResubmission(gate: Gate, disk: Disk, description: string, prompt: string,
                                   now: int, remote: SubmitRemote, hasSession: bool,
                                   description2: string, prompt2: string, later: int,
                                   remote2: SubmitRemote, hasSession2: bool)
    requires Admits(gate, now)
    requires later < now + Cooldown
    ensures var first := Submit(gate, disk, description, prompt, now, remote, hasSession);
      Submit(first.gate, first.disk, description2, prompt2, later, remote2, hasSession2)
        == Submission(first.gate, first.disk, RateLimitedReply, None, None)
  {
  }

  /** Different store sizes give different request ids, and the number after `task-`
      reads back as the store size plus one. */
  lemma CustomIdNumbering(a: nat, b: nat)
    ensures CustomId(a)[..5] == "task-"
    ensures Text.ParseNat(CustomId(a)[5..]) == a + 1
    ensures a != b ==> CustomId(a) != CustomId(b)
  {
    Text.ParseNatToString(a + 1);
    assert CustomId(a)[5..] == Text.NatToString(a + 1);
    if a != b {
      Text.NatToStringInjective(a + 1, b + 1);
      assert CustomId(b)[5..] == Text.NatToString(b + 1);
    }
  }

  /** `f"Job {job_id}: {task['description']} - {task['status']}"`. */
  function StatusLine(jobId: string, rec: JobRecord): string {
    "Job " + jobId + ": " + rec.description + " - " + rec.status.Name()
  }

  /** The lines of the listing, one per entry, in the store's key order. */
  function StatusLines(s: Store): (lines: seq<string>)
    ensures |lines| == |s.order|
    ensures forall i :: 0 <= i < |s.order| ==> s.order[i] in s.entries
    ensures forall i :: 0 <= i < |s.order| ==> lines[i] == StatusLine(s.order[i], s.entries[s.order[i]])
  {
    seq(|s.order|, i requires 0 <= i < |s.order| => StatusLine(s.order[i], s.entries[s.order[i]]))
  }

  const NoTasksReply := "No tasks found."
  const ListingHeader := "Tasks:"

  /** `check_task_status`: "No tasks found." for an empty store, otherwise a header
      line followed by the status lines. */
  function CheckTaskStatus(disk: Disk): (r: string)
    ensures r == NoTasksReply <==> Size(Load(disk)) == 0
    ensures Size(Load(disk)) > 0 ==> r == ListingHeader + "\n" + Text.Join(StatusLines(Load(disk)), "\n")
  {
    var tasks := Load(disk);
    if Size(tasks) == 0 then NoTasksReply
    else
      var r := ListingHeader + "\n" + Text.Join(StatusLines(tasks), "\n");
      assert r[0] == ListingHeader[0] == 'T' != NoTasksReply[0];
      r
  }

  function UnknownJobReply(jobId: string): string {
    "No task found with job ID: " + jobId
  }

  function StillRunningReply(description: string, status: string): string {
    "Task '" + description + "' is still " + status + ". Please wait."
  }

  const ResultHeader := "Results for '"

  function ResultReply(description: string, result: Json): string {
    ResultHeader + description + "':\n\n" + Str(result)
  }

  const NoSavedResultReply := "Task completed but no results were saved."

  /** `get_task_result`: an unknown id, a job not yet completed, a completed job with
      a falsy result, and otherwise the result itself. */
  function GetTaskResult(disk: Disk, jobId: string): (r: string)
    ensures jobId !in Load(disk).entries ==> r == UnknownJobReply(jobId)
    ensures jobId in Load(disk).entries && Load(disk).entries[jobId].status != Completed ==>
      r == StillRunningReply(Load(disk).entries[jobId].description, Load(disk).entries[jobId].status.Name())
    ensures jobId in Load(disk).entries && Load(disk).entries[jobId].status == Completed ==>
      r == if Truthy(Load(disk).entries[jobId].result)
           then ResultReply(Load(disk).entries[jobId].description, Load(disk).entries[jobId].result)
           else NoSavedResultReply
  {
    var tasks := Load(disk);
    if jobId !in tasks.entries then UnknownJobReply(jobId)
    else
      var rec := tasks.entries[jobId];
      if rec.status != Completed then StillRunningReply(rec.description, rec.status.Name())
      else if Truthy(rec.result) then ResultReply(rec.description, rec.result)
      else NoSavedResultReply
  }

  /** Helper: only the result reply starts with the result header. */
  lemma RepliesOtherThanResultDiffer(jobId: string, description: string, status: string)
    ensures !(ResultHeader <= UnknownJobReply(jobId))
    ensures !(ResultHeader <= StillRunningReply(description, status))
    ensures !(ResultHeader <= NoSavedResultReply)
  {
    assert ResultHeader[0] == 'R';
    assert UnknownJobReply(jobId)[0] == 'N';
    assert StillRunningReply(description, status)[0] == 'T';
    assert NoSavedResultReply[0] == 'T';
  }

  /** The reply carries stored result text exactly when the job is known, completed,
      and its result is truthy; a job still in flight never shows one. */
  lemma ResultShownIff(disk: Disk, jobId: string)
    ensures ResultHeader <= GetTaskResult(disk, jobId) <==>
      && jobId in Load(disk).entries
      && Load(disk).entries[jobId].status == Completed
      && Truthy(Load(disk).entries[jobId].result)
  {
    var tasks := Load(disk);
    if jobId in tasks.entries {
      var rec := tasks.entries[jobId];
      RepliesOtherThanResultDiffer(jobId, rec.description, rec.status.Name());
      if rec.status == Completed && Truthy(rec.result) {
        var tail := rec.description + "':\n\n" + Str(rec.result);
        assert ResultReply(rec.description, rec.result) == ResultHeader + tail;
      }
    } else {
      RepliesOtherThanResultDiffer(jobId, "", "");
    }
  }

  /** A job that is still processing is reported as such, whatever its record holds. */
  lemma InFlightReply(disk: Disk, jobId: string, description: string, result: Json)
    requires jobId in Load(disk).entries
    requires Load(disk).entries[jobId] == JobRecord(description, Processing, result)
    ensures GetTaskResult(disk, jobId) == StillRunningReply(description, "processing")
  {
  }

  /** A completed job's text result is returned verbatim at the end of the reply. */
  lemma TextResultReturned(disk: Disk, jobId: string, text: string)
    requires jobId in Load(disk).entries
    requires Load(disk).entries[jobId].status == Completed
    requires Load(disk).entries[jobId].result == JStr(text)
    requires text != ""
    ensures var r := GetTaskResult(disk, jobId);
      |text| <= |r| && r[|r| - |text|..] == text
  {
  }

  /** A completed job with non-empty text gets the result header, its description, and
      the text itself. */
  lemma TextResultShown(disk: Disk, jobId: string, description: string, text: string)
    requires jobId in Load(disk).entries
    requires Load(disk).entries[jobId] == JobRecord(description, Completed, JStr(text))
    requires text != ""
    ensures GetTaskResult(disk, jobId) == "Results for '" + description + "':\n\n" + text
  {
    assert Truthy(JStr(text));
  }

  /** The status line of an entry whose id and description hold no newline has none. */
  lemma StatusLineHasNoNewline(jobId: string, rec: JobRecord)
    requires '\n' !in jobId && '\n' !in rec.description
    ensures '\n' !in StatusLine(jobId, rec)
  {
    var name := rec.status.Name();
    assert '\n' !in name;
    var line := StatusLine(jobId, rec);
    assert line == "Job " + jobId + ": " + rec.description + " - " + name;
    forall i | 0 <= i < |line|
      ensures line[i] != '\n'
    {
      if i < 4 + |jobId| + 2 + |rec.description| + 3 {
        if i < 4 + |jobId| {
          if i >= 4 { assert line[i] == jobId[i - 4]; }
        } else if i < 4 + |jobId| + 2 {
        } else if i < 4 + |jobId| + 2 + |rec.description| {
          assert line[i] == rec.description[i - 4 - |jobId| - 2];
        }
      } else {
        assert line[i] == name[i - (4 + |jobId| + 2 + |rec.description| + 3)];
      }
    }
  }

  /** A non-empty store lists at least one key. */
  lemma NonEmptyStoreHasOrder(s: Store)
    requires Size(s) > 0
    ensures |s.order| > 0
  {
    var k :| k in s.entries;
    assert k in s.order;
  }

  /** No listing line holds a newline when no job id or description does. */
  lemma StatusLinesHaveNoNewline(s: Store)
    requires forall k :: k in s.entries ==> '\n' !in k && '\n' !in s.entries[k].description
    ensures forall i :: 0 <= i < |StatusLines(s)| ==> '\n' !in StatusLines(s)[i]
  {
    var lines := StatusLines(s);
    forall i | 0 <= i < |lines|
      ensures '\n' !in lines[i]
    {
      StatusLineHasNoNewline(s.order[i], s.entries[s.order[i]]);
    }
  }

  /** When no job id or description holds a newline, the listing is the header line
      followed by exactly one line per entry, in store order. */
  lemma {:induction false} ListingOneLinePerEntry(disk: Disk)
    requires Size(Load(disk)) > 0
    requires forall k :: k in Load(disk).entries ==> '\n' !in k && '\n' !in Load(disk).entries[k].description
    ensures Text.Split(CheckTaskStatus(disk), '\n') == [ListingHeader] + StatusLines(Load(disk))
  {
    var s := Load(disk);
    var lines := StatusLines(s);
    NonEmptyStoreHasOrder(s);
    StatusLinesHaveNoNewline(s);
    assert '\n' !in ListingHeader;
    assert "\n" == ['\n'];
    Text.SplitHeaderJoin(ListingHeader, lines, '\n');
  }
}
