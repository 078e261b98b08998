# Background job store and job lifecycle of a voice agent

The voice agent hands long generation requests to a remote batch service and then
reports the results back into the live conversation. Under that glue sits a small piece
of logic. This project models it in Dafny as pure functions over immutable values:

- **Job store** (`src/batch.py`). This is a JSON file holding a dict from job id to
  `{description, status, result}`. A missing file reads as the empty dict. Every writer
  loads the whole dict, replaces one key and saves the whole dict. The model keeps the
  dict's insertion order, because the status listing prints entries in that order.
- **Poller step** (`poll_batch_job`). One loop iteration takes what the service
  reported: an exception, or a status string plus the output fetch for a completed job.
  It then does one of three things:
  - writes a `completed` record holding the extracted content, interrupts, says
    "ready", and stops;
  - writes a `failed`/`expired`/`cancelled` record, interrupts, apologises, and stops;
  - or swallows an exception / sees an in-flight status, and keeps polling.

  Result extraction takes the first line of the stripped output. `json.loads` is an
  input function. The lookup chain
  `.get("response", {}).get("body", {}).get("choices", [{}])[0].get("message", {}).get("content", "Task completed.")`
  is evaluated over a JSON value datatype, and each step can raise the exception Python
  raises (`AttributeError`, `IndexError`, `KeyError`, `TypeError`).
- **Submission** (`VoiceAssistant.submit_batch_task`). A 60-second cooldown gate
  rejects early calls. An accepted call moves the gate to `now` before any remote call.
  It builds the request with `custom_id = "task-<store size + 1>"`, and a created batch
  gets a `processing` entry with result `None`, plus a poller when a session is attached.
- **Read-side tools**. `check_task_status` and `get_task_result` are functions from the
  store (and a job id) to the reply text.

Inputs stand in for the outside world: the clock (`now`, whole seconds), the service's
answers (`SubmitRemote`, `RemoteView`), the JSON parser (`parse`), and whether a session
is attached. A run of the poller is a finite sequence of observations, one per loop
iteration. Notifications are a list of `Interrupt` / `Say(text)` notices.

Modules: `Text` (Python `strip`/`split`/`join`/`str(int)`), `Json` (the values
`json.loads` yields and `dict.get`/`[0]`/truthiness/`str`), `JobStore`, `Poller`,
`Assistant`, and `Lifecycle` (submission followed by polling, plus two end-to-end
scenarios).

Some of what the code does may be unexpected:

- Malformed or empty output does not get a fallback string. The code raises inside the
  `try`, and polling retries forever. The `"Task completed but no results found."`
  branch can never run, because `strip().split('\n')` is never empty.
- A completed job can carry a `None` result: its `content` is JSON `null`. A completed
  job with no `content` key gets `"Task completed."`.
- `get_task_result` does not return the bare result. It returns
  `"Results for '<description>':\n\n<result>"`.
- If removing the temp file raises after the batch was created, the entry is already
  written and, when a session is attached, the poller already started, but the reply is `"Failed to submit task: ..."`.
- The cooldown also rejects every call whose `now` lies before the last accepted one
  (a negative difference is `< 60`).

## Model

| member | source | states |
|---|---|---|
| JobStore.Load | src/batch.py:21-26 | a missing file reads as the empty store; a present file reads back exactly the store that was saved |
| JobStore.Put | src/batch.py:62-66 | `tasks[k] = rec` sets k to rec and leaves every other key and value alone; an existing key keeps its position and a new key goes last |
| JobStore.Update | src/batch.py:77-83 | a load/replace/save writer: afterwards the file exists, k maps to the new record, and every other entry is unchanged |
| JobStore.UpdatePreservesInvariant | src/batch.py:77-82 | writing a record that has no result unless it is completed keeps the store invariant (only completed entries carry a result) |
| Json.Get | src/batch.py:52 | lookup in a dict's fields: no value exactly when no field has that key; otherwise the value of a field with that key |
| Json.DictGet | src/batch.py:52-56 | `v.get(key, default)` succeeds exactly on dicts and yields the stored value or the default |
| Json.Truthy | src/assistant.py:127 | `if task["result"]` is false exactly for `None`, `False`, `0`, `""`, `[]` and `{}` |
| Json.Str | src/assistant.py:128 | the f-string's `str()` of a result: a string as itself, `None`/`True`/`False` by name, an integer in decimal, a list in brackets and a dict in braces |
| Text.IntToString | src/assistant.py:128 | `str(n)`: digits that read back as n, with no leading zero (0 is "0"), preceded by `-` exactly when n is negative |
| Json.Index0 | src/batch.py:54 | `v[0]` succeeds exactly on a non-empty list or string and yields its first element or first character; an empty list or string raises `IndexError`, a dict `KeyError`, and `None`, a bool or a number `TypeError` |
| Text.StripLeft | src/batch.py:47 | the result is the suffix left after removing the longest prefix of Python whitespace |
| Text.StripRight | src/batch.py:47 | the result is the prefix left after removing the longest suffix of Python whitespace |
| Text.Split | src/batch.py:47 | `split` gives at least one piece; no piece holds the separator; the first piece is the text up to the first separator |
| Text.JoinSplit | src/assistant.py:110 | joining the pieces of a split with the separator gives back the original text |
| Text.SplitJoin | src/assistant.py:110 | splitting a join of separator-free pieces gives back exactly those pieces |
| Text.NatToString | src/assistant.py:53 | decimal rendering: non-empty, digits only, no leading zero |
| Text.ParseNatToString | src/assistant.py:53 | reading the rendered digits back gives the number |
| Poller.Classify | src/batch.py:45-76 | `"completed"` is the success branch; `"failed"`, `"expired"` and `"cancelled"` end the job and are stored as the same string; everything else is in flight |
| Poller.FirstLine | src/batch.py:47-50 | `lines[0]` is the stripped output up to (not including) its first newline |
| Poller.ExtractContent | src/batch.py:50-57 | the chain succeeds only on a dict; a first record that is not a dict raises `AttributeError` |
| Poller.ExtractSucceedsIff | src/batch.py:50-57 | the chain succeeds if and only if every level present is a dict and `choices`, if present, is a non-empty list headed by a dict |
| Poller.ExtractFullPath | src/batch.py:51-57 | with every level present, the result is the `content` value as stored, JSON `null` included |
| Poller.ExtractMissingLevels | src/batch.py:52-56 | a missing `response`, `body`, `choices`, `message` or `content` leads to the result "Task completed." |
| Poller.ExtractFailures | src/batch.py:50-57 | a non-dict record or level raises `AttributeError`; an empty `choices` list raises `IndexError`; a non-list `choices` raises |
| Poller.NoResultsBranchUnreachable | src/batch.py:47-59 | the result always comes from parsing the first line; the "no results found" branch is never taken |
| Poller.PollStep | src/batch.py:38-91 | continuing leaves the store alone and says nothing; stopping makes exactly one terminal write of this job's record (other entries unchanged) and one interrupt-then-say; the store invariant is kept |
| Poller.PollCompleted | src/batch.py:45-74 | completed with extractable content: the entry becomes {description, completed, content}, the user hears the "ready" message, polling stops |
| Poller.PollEnded | src/batch.py:76-87 | failed/expired/cancelled: the entry becomes {description, that status, None}, every other entry is unchanged, the user hears the apology, polling stops |
| Poller.PollContinuesIff | src/batch.py:38-91 | the loop continues if and only if the service raised, the status is not terminal, or a completed job's output could not be fetched or read |
| Poller.Loop | src/batch.py:38-91 | the loop's control flow: it stops at the first iteration that stops, with that iteration's store, write and notices; every earlier iteration kept polling; with no stopping iteration nothing is written or said |
| Poller.LoopStopsAt | src/batch.py:38-91 | iterations that keep polling up to one that stops: the loop stops there, after exactly that many polls |
| Poller.RunPoller | src/batch.py:38-91 | over any run: at most one store write; a write happens exactly when the poller stopped, and it is this job's terminal record; a stopped poller made one interrupt and one say; a running one changed nothing |
| Poller.RunPollerIsLoop | src/batch.py:38-91 | the run is the loop's control flow over one poll step per observation, each on the store the run began with |
| Poller.RunStoppingStep | src/batch.py:45-87 | a stopped run's store, write and notices are exactly those of the iteration it stopped at |
| Poller.RunStopsAt | src/batch.py:38-87 | iterations that keep polling followed by one that stops: the run stops after exactly that many polls, with the stopping iteration's store, write and notices, whatever observations follow |
| Poller.RunCompletes | src/batch.py:45-74 | after any number of iterations that keep polling, a completed job with extractable content becomes {description, completed, content}, every other entry is unchanged, the user hears "ready" once, and polling stops |
| Poller.RunEnds | src/batch.py:76-87 | after any number of iterations that keep polling, a failed/expired/cancelled job becomes {description, that status, None}, no other key appears or disappears and every other entry is unchanged, the user hears the apology once, and polling stops |
| Poller.RunStopsAtFirstTerminal | src/batch.py:38-87 | the poller stops at the first terminal observation and polls no more; every earlier iteration kept polling |
| Poller.BlankOutputPollsForever | src/batch.py:45-91 | a completed job whose output is blank is never recorded or announced: polling continues for as long as it is observed |
| Assistant.Submit | src/assistant.py:45-98 | inside the cooldown nothing changes and the rate-limit reply is given; otherwise the gate moves to `now` whatever the service does, the request is numbered from the store size, and a created batch adds a `processing` entry with no result (other entries unchanged) and a poller when a session exists |
| Assistant.FirstSubmissionGate | src/assistant.py:35-48 | the fresh gate admits a call if and only if `now >= 60` |
| Assistant.CooldownBlocksResubmission | src/assistant.py:47-50 | after an accepted call, even a failed one, any call within 60 seconds is rejected and leaves store and gate unchanged, so it creates no second record |
| Assistant.CustomIdNumbering | src/assistant.py:53 | the id is `task-` followed by digits that read back as store size + 1; different sizes give different ids |
| Assistant.StatusLines | src/assistant.py:107-109 | one line per entry, in store order, each naming its job id, description and status |
| Assistant.CheckTaskStatus | src/assistant.py:101-110 | "No tasks found." exactly when the store is empty; otherwise the header followed by the status lines |
| Assistant.ListingOneLinePerEntry | src/assistant.py:103-110 | when ids and descriptions hold no newline, the listing splits into the header plus exactly one line per entry, in store order |
| Assistant.GetTaskResult | src/assistant.py:113-130 | unknown id, not-yet-completed, completed with falsy result, and completed with a result each give their own reply |
| Assistant.ResultShownIff | src/assistant.py:119-130 | the reply presents a result if and only if the job is known, completed, and its result is truthy |
| Assistant.InFlightReply | src/assistant.py:123-125 | a job still `processing` gets the "still processing, please wait" reply, whatever its record holds as result |
| Assistant.TextResultShown | src/assistant.py:127-128 | a completed job with non-empty text gets "Results for '<description>':" followed by a blank line and the text |
| Assistant.TextResultReturned | src/assistant.py:127-128 | a completed job's text result ends the reply verbatim |
| Lifecycle.PollFromProcessing | src/batch.py:38-91 | a poller run on a `processing` entry leaves it terminal exactly when the poller stopped, keeps its description, leaves other entries untouched and keeps the invariant; while the job is in flight the result tool says it is still processing |
| Lifecycle.SubmitThenPoll | src/assistant.py:80-91 | a created job's entry starts `processing` with no result; after its poller runs, the entry is terminal exactly when the poller stopped, the entries from before the submission are untouched, and the invariant holds |
| Lifecycle.CoffeeShopScenario | src/batch.py:38-74 | an in-flight poll then a completed one with a one-line output: two polls, entry completed with "Plan: ...", one "ready" notice, and the result tool returns the plan |
| Lifecycle.ExpiredScenario | src/batch.py:76-87 | an `expired` first poll: entry expired with no result, one apology, and no further polls |

## Left out

- Remote batch service calls (`files.create`, `batches.create`, `batches.retrieve`, `files.content`): foreign network I/O. Their results are inputs.
- The request's model name, system instruction, temperature, `max_tokens`, endpoint and completion window: fixed data with no behaviour. `BatchRequest` keeps only `custom_id` and the prompt.
- Temp-file creation and the JSON encoding of the request and of the store: file I/O. `Save`/`Load` treat the file as holding the store itself.
- I/O errors of `load_tasks`/`save_tasks`: not modelled. In the code, such an error is reported as a failed submission, and in the poller it is swallowed and retried. In `check_task_status` and `get_task_result`, `load_tasks()` runs outside any `try`, so the error escapes from the tool.
- Stores whose file holds values this code never writes (other statuses, non-dict records): not modelled.
- The live session (`interrupt`, `say`), `agent.py` and the `SYSTEM_PROMPT` text: UI and transport. Notifications are the notices `Interrupt` and `Say(text)`.
- Exceptions from `interrupt`/`say`: they are assumed not to happen. In the code they would be swallowed after the store write, and the next iteration would write and notify again.
- `asyncio` tasks, `_background_tasks`, `sleep(10)`, and races between pollers that load/modify/save concurrently: concurrency. `Poller.PollStep` is proved for whatever store the file holds when the step runs. `Poller.RunPoller` assumes no other writer touches the file during a run, so every step sees the store the run began with. In the code, the terminal step re-loads the file and also sees what other tools wrote during the sleeps, such as a later submission or another job's poller finishing.
- Print logging and the `src/__init__.py` re-exports: no behaviour.
- Floating-point timestamps and JSON floats: time is whole seconds and JSON numbers are integers.
- JSON objects with repeated keys: a value is the dict `json.loads` returns, so its keys are distinct.
- Json.Str: for a list or dict result it states only the enclosing brackets or braces. `Json.Repr` renders the elements, but quotes nested strings without Python's escaping of quotes and special characters.
