/**
 The execution-event processor: the JavaScript handler of the `LogProcessor`
 function, one invocation per event, as a pure step over the stores.

 The handler makes its service calls in a fixed order and stops at the first
 error it does not swallow; the writes made before that error stay, since the
 stores share no transaction.
 */
module LogProcessor {
  import opened Results
  import opened Events
  import opened Stores

  /** The fault, if any, that each service call of one invocation meets. */
  datatype Faults = Faults(
    createStream: Option<SdkError>,
    putLog: Option<SdkError>,
    putItem: Option<SdkError>,
    getItem: Option<SdkError>,
    putMetric: Option<SdkError>)

  const NoFaults := Faults(None, None, None, None, None)

  /** The stores after an invocation, and the error it threw, if it threw one. */
  datatype Outcome = Outcome(stores: Stores, thrown: Option<SdkError>)

  const MetricNamespace := "PipelineMetrics"
  const DurationMetric := "PipelineExecutionDuration"
  const PipelineDimension := "PipelineName"
  const SecondsUnit := "Seconds"

  /** The records of a stream; a stream that does not exist has none. */
  function StreamOf(streams: map<string, seq<LogRecord>>, name: string): seq<LogRecord>
  {
    if name in streams then streams[name] else []
  }

  /** The two maps have the same keys with the same values, `key` aside. */
  predicate AgreeExcept<V(==)>(before: map<string, V>, after: map<string, V>, key: string)
  {
    && (forall k :: k in before && k != key ==> k in after && after[k] == before[k])
    && (forall k :: k in after && k != key ==> k in before)
  }

  /** The record the handler appends for an accepted event. */
  function RecordOf(e: Event): LogRecord
    requires Accepted(e)
  {
    LogRecord(e.time, e.detail.value)
  }

  /**
   The duration data point for an execution that started at `startMs` and ended
   at `endMs`. The value is in seconds; there is no guard against a negative one.
   */
  function DurationSample(pipeline: string, startMs: int, endMs: int): (d: MetricDatum)
    ensures d.namespace == MetricNamespace && d.name == DurationMetric && d.unit == SecondsUnit
    ensures d.dimensions == [Dimension(PipelineDimension, pipeline)]
    ensures d.value * 1000.0 == (endMs - startMs) as real
  {
    MetricDatum(
      MetricNamespace, DurationMetric, [Dimension(PipelineDimension, pipeline)], SecondsUnit,
      (endMs - startMs) as real / 1000.0)
  }

  /**
   Creates the execution's log stream. An "already exists" error, whether the
   stream was there or the fault says so, counts as success; any other error is
   thrown. No existing record is touched.
   */
  function EnsureStream(s: Stores, id: string, fault: Option<SdkError>): (r: Outcome)
    ensures r.thrown.None? <==> fault.None? || fault.value.name == AlreadyExists
    ensures r.thrown.Some? ==> r.thrown == fault && r.stores == s
    ensures r.stores.ledger == s.ledger && r.stores.metrics == s.metrics
    ensures fault.None? ==> id in r.stores.streams
    ensures StreamOf(r.stores.streams, id) == StreamOf(s.streams, id)
    ensures AgreeExcept(s.streams, r.stores.streams, id)
  {
    match CreateLogStream(s.streams, id, fault)
    case Success(streams) => Outcome(s.(streams := streams), None)
    case Failure(err) => if err.name == AlreadyExists then Outcome(s, None) else Outcome(s, Some(err))
  }

  /** Appends one record to the execution's stream; any error is thrown. */
  function Append(s: Stores, id: string, rec: LogRecord, fault: Option<SdkError>): (r: Outcome)
    ensures r.thrown.None? <==> fault.None? && id in s.streams
    ensures r.thrown.Some? ==> r.stores == s
    ensures r.thrown.Some? ==> r.thrown == if fault.Some? then fault else Some(SdkError(NotFound))
    ensures r.thrown.None? ==> id in r.stores.streams && r.stores.streams[id] == s.streams[id] + [rec]
    ensures AgreeExcept(s.streams, r.stores.streams, id)
    ensures r.stores.ledger == s.ledger && r.stores.metrics == s.metrics
  {
    match PutLogEvents(s.streams, id, rec, fault)
    case Success(streams) => Outcome(s.(streams := streams), None)
    case Failure(err) => Outcome(s, Some(err))
  }

  /** On STARTED: the start time is put under the execution id, replacing any earlier one. */
  function RecordStart(s: Stores, id: string, startMs: int, fault: Option<SdkError>): (r: Outcome)
    ensures r.thrown == fault
    ensures r.thrown.Some? ==> r.stores == s
    ensures r.thrown.None? ==> id in r.stores.ledger && r.stores.ledger[id] == startMs
    ensures AgreeExcept(s.ledger, r.stores.ledger, id)
    ensures r.stores.streams == s.streams && r.stores.metrics == s.metrics
  {
    match PutItem(s.ledger, id, startMs, fault)
    case Success(ledger) => Outcome(s.(ledger := ledger), None)
    case Failure(err) => Outcome(s, Some(err))
  }

  /**
   On SUCCEEDED or FAILED: the start time is read and, only when there is one,
   one duration data point is put. A missing start time is not an error.
   */
  function EmitDuration(s: Stores, id: string, pipeline: string, endMs: int, getFault: Option<SdkError>,
                        putFault: Option<SdkError>): (r: Outcome)
    ensures r.stores.ledger == s.ledger && r.stores.streams == s.streams
    ensures getFault.Some? ==> r == Outcome(s, getFault)
    ensures getFault.None? && id !in s.ledger ==> r == Outcome(s, None)
    ensures getFault.None? && id in s.ledger ==> r.thrown == putFault
    ensures r.thrown.Some? ==> r.stores == s
    ensures r.thrown.None? && id in s.ledger && getFault.None? ==>
              r.stores.metrics == s.metrics + [DurationSample(pipeline, s.ledger[id], endMs)]
  {
    match GetItem(s.ledger, id, getFault)
    case Failure(err) => Outcome(s, Some(err))
    case Success(None) => Outcome(s, None)
    case Success(Some(startMs)) =>
      match PutMetricData(s.metrics, DurationSample(pipeline, startMs, endMs), putFault)
      case Success(metrics) => Outcome(s.(metrics := metrics), None)
      case Failure(err) => Outcome(s, Some(err))
  }

  /**
   The faults under which an invocation on an accepted event runs to the end:
   each service call the handler makes either meets no fault or meets one it
   swallows; a terminal event whose execution has no start time makes no metric
   call at all.
   */
  predicate Completes(s: Stores, e: Event, f: Faults)
    requires Accepted(e)
  {
    && (f.createStream.None? || (f.createStream.value.name == AlreadyExists && Id(e) in s.streams))
    && f.putLog.None?
    && (StateOf(e) == Started ==> f.putItem.None?)
    && (IsTerminal(StateOf(e)) ==> f.getItem.None? && (Id(e) in s.ledger ==> f.putMetric.None?))
  }

  /** One invocation of the handler on one event. */
  function Handle(s: Stores, e: Event, f: Faults): (r: Outcome)
    // An event without a detail or an execution id is dropped without error.
    ensures !Accepted(e) ==> r == Outcome(s, None)
    // The invocation throws exactly when a call meets a fault it does not swallow.
    ensures Accepted(e) ==> (r.thrown.None? <==> Completes(s, e, f))
    // Only the execution's own stream can change, and it gains at most the one record.
    ensures Accepted(e) ==> AgreeExcept(s.streams, r.stores.streams, Id(e))
    ensures Accepted(e) ==>
              || StreamOf(r.stores.streams, Id(e)) == StreamOf(s.streams, Id(e))
              || StreamOf(r.stores.streams, Id(e)) == StreamOf(s.streams, Id(e)) + [RecordOf(e)]
    // An invocation that completes has appended its record.
    ensures Accepted(e) && r.thrown.None? ==>
              Id(e) in r.stores.streams && r.stores.streams[Id(e)] == StreamOf(s.streams, Id(e)) + [RecordOf(e)]
    // The record is appended exactly when the stream calls succeed; it stays even if a later call throws.
    ensures Accepted(e) ==>
              (StreamOf(r.stores.streams, Id(e)) == StreamOf(s.streams, Id(e)) + [RecordOf(e)] <==>
                 (f.createStream.None? || (f.createStream.value.name == AlreadyExists && Id(e) in s.streams))
                 && f.putLog.None?)
    // A throw leaves the ledger and the metrics as they were: the failing call was the one writing them.
    ensures Accepted(e) && r.thrown.Some? ==> r.stores.ledger == s.ledger && r.stores.metrics == s.metrics
    // Only a STARTED event writes the ledger, and only its own start time.
    ensures || r.stores.ledger == s.ledger
            || (Accepted(e) && StateOf(e) == Started && r.stores.ledger == s.ledger[Id(e) := e.time])
    ensures Accepted(e) && StateOf(e) == Started && r.thrown.None? ==> r.stores.ledger == s.ledger[Id(e) := e.time]
    // Only a terminal event whose execution has a start time puts a data point, and then exactly one.
    ensures || r.stores.metrics == s.metrics
            || (&& Accepted(e) && IsTerminal(StateOf(e)) && Id(e) in s.ledger
                && r.stores.metrics == s.metrics + [DurationSample(e.detail.value.pipeline, s.ledger[Id(e)], e.time)])
    ensures Accepted(e) && IsTerminal(StateOf(e)) && Id(e) in s.ledger && r.thrown.None? ==>
              r.stores.metrics == s.metrics + [DurationSample(e.detail.value.pipeline, s.ledger[Id(e)], e.time)]
  {
    if !Accepted(e) then Outcome(s, None)
    else
      var id := Id(e);
      var created := EnsureStream(s, id, f.createStream);
      if created.thrown.Some? then created
      else
        var logged := Append(created.stores, id, RecordOf(e), f.putLog);
        if logged.thrown.Some? then logged
        else if StateOf(e) == Started then RecordStart(logged.stores, id, e.time, f.putItem)
        else if IsTerminal(StateOf(e)) then
          EmitDuration(logged.stores, id, e.detail.value.pipeline, e.time, f.getItem, f.putMetric)
        else logged
  }
}
