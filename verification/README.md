# Pipeline execution telemetry, modelled in Dafny

This project models the two inline Lambda handlers in `lib/monitoring-stack.ts` that observe runs of a delivery pipeline.

- **The execution-event processor** is the Node.js `exports.handler` of the `LogProcessor` function. For each pipeline state-change event it does the following:
  - ensures a log stream named after the execution id exists, where "already exists" counts as success;
  - appends one log record;
  - on `STARTED`, records the start time in a table;
  - on `SUCCEEDED` or `FAILED`, reads the start time back and, if there is one, puts one `PipelineExecutionDuration` data point in seconds.

  The model is a pure step, `LogProcessor.Handle`, over three stores (`Stores.Stores`):
  - the start-time ledger, a map from execution id to milliseconds;
  - the log group, a map from stream name to a sequence of records;
  - the metric data points put so far.

  Each service call behaves like the service it stands for. Creating an existing stream throws `ResourceAlreadyExistsException`, and appending to a missing stream throws `ResourceNotFoundException`. A per-invocation `Faults` record can make any call throw instead.

  An invocation returns the stores together with the error it threw, if any. Writes made before the error stay, because the stores share no transaction. `LogProcessorProperties.Replay` runs invocations one after another. It models repeated (at-least-once) delivery as re-application of the step.
- **The notification handler** is the Python `lambda_handler` of the `PipelineNotificationLambda` function.
  - `Notifier.Message` formats the chat message for a state:
    - `STARTED`, `SUCCEEDED`, `FAILED` and `CANCELED` each have a fixed phrase;
    - any other state gets a fallback phrase that quotes the state.
  - `Notifier.Body` is the exact text that `json.dumps({'text': message})` produces. `JsonText.Escape` follows Python's default `ensure_ascii` escaping, including UTF-16 surrogate pairs for characters outside the Basic Multilingual Plane.
  - `JsonText.Unescape` is an independent decoder of JSON string contents, written to section 7 of RFC 8259. The contracts of `JsonText.Escape` and `Notifier.Body` prove that the posted body reads back as the message.
  - `Notifier.Notify` is one invocation:
    - a missing key raises `KeyError`;
    - otherwise one POST is made to the webhook, and a JSON-null execution id is written as `None`;
    - the invocation succeeds exactly when the POST gets an answer.

Behaviours of the code that the model keeps as written:
- **No sign guard on the duration.** A terminal event timed before its start puts a negative duration (`LogProcessorProperties.NegativeDurationIsEmitted`). No check skips it.
- **The HTTP status is ignored.** `urllib3` returns a response for any status code, so the handler reports success even when the webhook answers with an error status. Only an exception from the transport fails the invocation.
- **The webhook secret is decrypted once, when the module loads** (lib/monitoring-stack.ts:205-209). Every invocation reads the same decrypted value, so this model takes the decrypted webhook URL as a parameter.
- **The empty execution id is treated differently by the two handlers.** The event processor drops an event whose execution id is empty, because an empty string is falsy in JavaScript. The notifier posts for it, because Python only raises when the key is missing. A JSON-null execution id is likewise dropped by the event processor (`null` is falsy), while the notifier posts it as `None`.

Files:
- `results.dfy`: `Option` and `Result`.
- `events.dfy`: the event, its three-way execution-id field and the processor's acceptance guard.
- `stores.dfy`: the stores and the service calls.
- `processor.dfy`: the handler step.
- `processor_properties.dfy`: properties over one invocation and over replays.
- `json_text.dfy`: `json.dumps` string escaping and its decoder.
- `notifier.dfy`: the message, the body and the invocation.

## Model

| member | source | states |
|---|---|---|
| LogProcessor.Handle | lib/monitoring-stack.ts:52-140 | These hold for any event and faults. An event without a detail or a truthy execution id is dropped: the stores are unchanged and nothing is thrown. The invocation throws exactly when a call meets a fault it does not swallow. Only the execution's own stream changes, by at most one record. The record is appended exactly when the stream-creation and append calls succeed, and it stays when a later call throws, since there is no rollback. A throw leaves the ledger and the metrics unchanged. Only a STARTED event writes the ledger, and only `ledger[id] := time`. Only a terminal event whose execution has a start time puts a data point, and then exactly one. |
| LogProcessor.EnsureStream | lib/monitoring-stack.ts:75-82 | "Already exists" is success, whether the stream was there or the fault says so. Any other error is thrown with the stores unchanged. No existing record changes, no other stream changes, and the ledger and metrics are untouched. |
| LogProcessor.Append | lib/monitoring-stack.ts:84-89 | The append succeeds exactly when there is no fault and the stream exists. On success the stream gains the record at its end and nothing else changes. On failure the injected error or "not found" is thrown and nothing changes. |
| LogProcessor.RecordStart | lib/monitoring-stack.ts:91-103 | The put sets the execution's start time and overwrites any older one. Other keys, the streams and the metrics are unchanged. A fault is thrown and changes nothing. |
| LogProcessor.EmitDuration | lib/monitoring-stack.ts:104-139 | This step only reads the ledger and never touches the streams. A read fault is thrown. A missing start time is not an error and puts nothing. When there is a start time, exactly one duration data point is put, or the put's fault is thrown. |
| LogProcessor.DurationSample | lib/monitoring-stack.ts:116-130 | The data point is `PipelineExecutionDuration` in namespace `PipelineMetrics`, with the single dimension `PipelineName = pipeline` and unit `Seconds`. Its value times 1000 equals end minus start in milliseconds. |
| LogProcessorProperties.HandleGrows | lib/monitoring-stack.ts:52-140 | One invocation never shrinks a store. Each stream's old records are a prefix of its new ones, ledger keys are kept, and earlier metric data points stay first. |
| LogProcessorProperties.ReplayGrows | lib/monitoring-stack.ts:52-140 | Replaying any deliveries, with any faults, never shrinks a store. The log streams and the metric list are append-only. |
| LogProcessorProperties.StartTimeIsStable | lib/monitoring-stack.ts:91-99 | Once an execution's start time is recorded, it stays while every STARTED event for that execution carries the same time. This holds whatever else is delivered, with any faults. STARTED can be redelivered any number of times. |
| LogProcessorProperties.StartedDeliveredTwice | lib/monitoring-stack.ts:91-99 | Once a first delivery of STARTED completes, a second delivery leaves the entry equal to the event's timestamp, whatever that second delivery meets. |
| LogProcessorProperties.StreamCreationErrorStops | lib/monitoring-stack.ts:75-82 | A stream-creation error other than "already exists" is thrown, and nothing is written: no append, no ledger access, no metric. |
| LogProcessorProperties.ExistingStreamIsReused | lib/monitoring-stack.ts:75-89 | When the stream already exists, ensuring it again is not an error. The record is appended to the existing stream. |
| LogProcessorProperties.AppendErrorStops | lib/monitoring-stack.ts:84-89 | An append error is thrown, and no later step runs. The ledger and metrics are unchanged and no record is added. |
| LogProcessorProperties.StartedRecordsStartTime | lib/monitoring-stack.ts:91-99 | A STARTED event that completes sets the entry to its timestamp and leaves other keys unchanged. It puts no metric. |
| LogProcessorProperties.TerminalOnlyReadsLedger | lib/monitoring-stack.ts:104-114 | A SUCCEEDED or FAILED event never changes the ledger, whatever the faults. |
| LogProcessorProperties.MissingStartIsNotAnError | lib/monitoring-stack.ts:104-139 | A terminal event whose execution has no start time completes without error and puts no metric. |
| LogProcessorProperties.TerminalEmitsDuration | lib/monitoring-stack.ts:116-133 | With a start time and no faults, a terminal event appends exactly one data point. It is `PipelineExecutionDuration` in `PipelineMetrics` with `PipelineName = pipeline` and unit `Seconds`, and its value times 1000 equals end minus start. |
| LogProcessorProperties.NegativeDurationIsEmitted | lib/monitoring-stack.ts:116-133 | There is no sign guard. A terminal event timed before its start puts a negative value. |
| LogProcessorProperties.DuplicateTerminalEmitsTwice | lib/monitoring-stack.ts:104-137 | A redelivered terminal event puts a second, equal data point, so duplicates are not suppressed. |
| LogProcessorProperties.OtherStatesOnlyLog | lib/monitoring-stack.ts:91-139 | CANCELED or any unrecognised state only ensures the stream and appends the record. There is no ledger read or write and no metric. It throws exactly when one of those two calls meets an unswallowed fault. |
| LogProcessorProperties.ExecutionDuration | lib/monitoring-stack.ts:91-133 | STARTED at t0 and then SUCCEEDED or FAILED at t1, both without faults, put exactly the duration point for t0 and t1. The stream holds the two records in order. |
| LogProcessorProperties.FourSecondExecution | lib/monitoring-stack.ts:116-118 | A start at 1000 ms and an end at 5000 ms put the value 4.0. |
| Notifier.Message | lib/monitoring-stack.ts:222-231 | Every message contains the pipeline name, the account, the region and the execution id. It also contains the phrase for its state (`Notifier.Phrase`): a fixed phrase for each of STARTED, SUCCEEDED, FAILED and CANCELED, and the fallback phrase for any other state. Any other state's literal string also appears in the message. |
| Notifier.PhraseDeterminesState | lib/monitoring-stack.ts:222-231 | Two states with the same phrase are the same state. |
| Notifier.MessageDeterminesState | lib/monitoring-stack.ts:222-231 | Within one pipeline, account, region and execution, distinct states, unknown ones included, give distinct messages. |
| Notifier.Body | lib/monitoring-stack.ts:237 | The POST body `json.dumps({'text': message})` is printable ASCII, and reading the `text` member back gives the message. |
| Notifier.Notify | lib/monitoring-stack.ts:211-244 | A missing `detail` or a missing `execution-id` key raises a KeyError that names the key, and nothing is posted. Otherwise, including when `execution-id` is JSON null, one POST with a JSON content type goes to the webhook. Its body decodes to the message for the event, with a null execution id written as `None`. The invocation succeeds, with status 200 and the JSON string `"Notification sent to Slack"` as body, exactly when the POST is answered, whatever the status code. A transport exception propagates. |
| Notifier.UnknownStateIsDistinct | lib/monitoring-stack.ts:222-231 | An unrecognised state is never reported as a known one. Its message differs from the message of each of the four known states in the same context. |
| Notifier.UnknownStateIsNamed | lib/monitoring-stack.ts:211-244 | For an unrecognised state such as PAUSED, the posted message contains the state string. |
| JsonText.Escape | lib/monitoring-stack.ts:237 | With `ensure_ascii`, the escaped text contains printable ASCII only. Decoding it gives back the original text, including characters that need surrogate pairs. |
| JsonText.EscapeEndsAtClosingQuote | lib/monitoring-stack.ts:237 | A reader that skips each backslash together with the character after it, and stops at the first other double quote, finds the end of the literal exactly at its closing quote. This holds whatever text follows that quote, so no escaped text closes the literal early. |

## Left out

- CDK wiring is left out because it is declarative configuration with no behaviour. This covers:
  - the log group, the start-time table and the event rule (lib/monitoring-stack.ts:24-33, 152-168);
  - the metric filters that count `PipelineSuccess` and `PipelineFailure`, the alarm, the topic and the dashboard (lib/monitoring-stack.ts:172-186, 262-343);
  - the key and the permission grants.

  The rule forwards only STARTED, SUCCEEDED and FAILED. The handler's behaviour on other states is modelled anyway, because the handler code handles them.
- Logging (`console.log`, `console.error`, `print`) is left out because it has no effect on the stores or on the result.
- `new Date(event.time).getTime()` is library date parsing, so it is left out. The event time is taken as an integer number of milliseconds, and an unparseable time (`NaN`) is not modelled.
- `JSON.stringify(message)` is left out. A log record holds the detail value itself rather than its serialised text. Detail fields other than `execution-id`, `pipeline` and `state` are not modelled.
- Storing the start time as `String(timestamp)` and reading it back with `Number(...)` is treated as the identity. It is the identity for integer timestamps.
- DurationSample: the value is the exact quotient `(end - start) / 1000`. The source divides in double precision and so rounds, and floating point is not modelled.
- Only these shapes of malformed JSON are modelled: a missing `detail`, and an `execution-id` that is absent or null. A null `detail`, an `execution-id` that is a number or a boolean, and a missing `pipeline` or `state` are not. A missing `state` behaves like an unrecognised one in the event processor.
- A faulty service call has no effect in this model. A call that the service applied but whose answer was lost is not modelled, and neither is the eventual consistency of the table's default reads.
- Concurrency is not modelled. Invocations are applied one after another by `Replay`, and concurrent invocations on the same execution are not modelled.
- The module-load decryption of the webhook secret (lib/monitoring-stack.ts:205-209) is I/O. The decrypted URL is a parameter of `Notifier.Notify`, and a failed decryption, which fails the function's initialisation, is not modelled.
- The inline Python (lib/monitoring-stack.ts:198-244) keeps the 8-space indentation of the surrounding TypeScript template, and nothing in the code strips it. Python rejects a module whose first statement is indented, so as written the function would fail when it loads. The model describes `lambda_handler` as if the module loads.
- The HTTP transport, `urllib3`'s connection pool and its retries are left out. Only the outcome is kept: an answer with a status code, or an exception.
- Cross-account deployment is configuration and is not modelled. This covers the pipeline, build and deploy topology (lib/pipeline-stack.ts, lib/pipelines-stack.ts, lib/pipeline-utils-stack.ts, bin/cross-account-cicd-pipelines.ts) and the target-account role (lib/target-foundation-stack.ts). There is no credential-exchange procedure in the code:
  - the deploy step runs `cdk deploy`;
  - the `sts:AssumeRole` grant is commented out;
  - the role's trust and resource scope are enforced by the cloud provider's access-control engine.
