/**
 The three stores the log processor writes, and the service calls on them.

 Each call behaves like the service it stands for, except that the caller may
 inject a fault: `Some(err)` makes the call throw `err` and change nothing.
 The fault stands for every failure the service or the network may produce.
 */
module Stores {
  import opened Results
  import opened Events

  /** An error thrown by a service call; the handler looks only at its name. */
  datatype SdkError = SdkError(name: string)

  const AlreadyExists := "ResourceAlreadyExistsException"
  const NotFound := "ResourceNotFoundException"

  /** One log event: the event time and the event's detail (serialised with `JSON.stringify` in the source). */
  datatype LogRecord = LogRecord(timestamp: int, message: Detail)

  datatype Dimension = Dimension(name: string, value: string)

  /** One metric data point as put to the metrics service. */
  datatype MetricDatum = MetricDatum(
    namespace: string,
    name: string,
    dimensions: seq<Dimension>,
    unit: string,
    value: real)

  /**
   - `ledger`: the start-time table, execution id to start time in milliseconds;
   - `streams`: the log group, stream name to its records in order of arrival;
   - `metrics`: every metric data point put so far, in order.
   */
  datatype Stores = Stores(
    ledger: map<string, int>,
    streams: map<string, seq<LogRecord>>,
    metrics: seq<MetricDatum>)

  /** Creating a stream that already exists throws "already exists". */
  function CreateLogStream(streams: map<string, seq<LogRecord>>, name: string, fault: Option<SdkError>)
    : Result<map<string, seq<LogRecord>>, SdkError>
  {
    if fault.Some? then Failure(fault.value)
    else if name in streams then Failure(SdkError(AlreadyExists))
    else Success(streams[name := []])
  }

  /** Appending to a stream that does not exist throws "not found". */
  function PutLogEvents(streams: map<string, seq<LogRecord>>, name: string, rec: LogRecord, fault: Option<SdkError>)
    : Result<map<string, seq<LogRecord>>, SdkError>
  {
    if fault.Some? then Failure(fault.value)
    else if name !in streams then Failure(SdkError(NotFound))
    else Success(streams[name := streams[name] + [rec]])
  }

  /** A put replaces any item with the same key. */
  function PutItem(ledger: map<string, int>, key: string, startTime: int, fault: Option<SdkError>)
    : Result<map<string, int>, SdkError>
  {
    if fault.Some? then Failure(fault.value) else Success(ledger[key := startTime])
  }

  /** A get of a missing key succeeds with no item. */
  function GetItem(ledger: map<string, int>, key: string, fault: Option<SdkError>): Result<Option<int>, SdkError>
  {
    if fault.Some? then Failure(fault.value)
    else if key in ledger then Success(Some(ledger[key]))
    else Success(None)
  }

  function PutMetricData(metrics: seq<MetricDatum>, datum: MetricDatum, fault: Option<SdkError>)
    : Result<seq<MetricDatum>, SdkError>
  {
    if fault.Some? then Failure(fault.value) else Success(metrics + [datum])
  }
}
