/**
 Properties of the execution-event processor over one invocation and over a
 sequence of invocations. Every invocation is independent: an error thrown by
 one does not stop the next, and a redelivered event is simply handled again.
 */
module LogProcessorProperties {
  import opened Results
  import opened Events
  import opened Stores
  import opened LogProcessor

  /** One delivery of an event, with the faults its invocation meets. */
  datatype Delivery = Delivery(event: Event, faults: Faults)

  /** The stores after handling the deliveries one after another. */
  function Replay(s: Stores, ds: seq<Delivery>): Stores
    decreases |ds|
  {
    if ds == [] then s else Replay(Handle(s, ds[0].event, ds[0].faults).stores, ds[1..])
  }

  /**
   Nothing is ever lost: every stream keeps its records as a prefix, every
   ledger key stays, and the metric data points put so far stay first in line.
   */
  predicate Grows(before: Stores, after: Stores)
  {
    && (forall k :: k in before.streams ==> k in after.streams && before.streams[k] <= after.streams[k])
    && before.ledger.Keys <= after.ledger.Keys
    && before.metrics <= after.metrics
  }

  /** The event is a STARTED event for the execution `id`. */
  predicate StartsExecution(e: Event, id: string)
  {
    Accepted(e) && Id(e) == id && StateOf(e) == Started
  }

  lemma HandleGrows(s: Stores, e: Event, f: Faults)
    ensures Grows(s, Handle(s, e, f).stores)
  {
    var r := Handle(s, e, f);
    if Accepted(e) {
      forall k | k in s.streams
        ensures k in r.stores.streams && s.streams[k] <= r.stores.streams[k]
      {
        if k == Id(e) {
          assert StreamOf(s.streams, k) == s.streams[k];
        }
      }
    }
  }

  /** Replaying any deliveries, whatever faults they meet, only ever adds to the stores. */
  lemma {:induction false} ReplayGrows(s: Stores, ds: seq<Delivery>)
    ensures Grows(s, Replay(s, ds))
    decreases |ds|
  {
    if ds != [] {
      var s1 := Handle(s, ds[0].event, ds[0].faults).stores;
      HandleGrows(s, ds[0].event, ds[0].faults);
      ReplayGrows(s1, ds[1..]);
      var r := Replay(s1, ds[1..]);
      forall k | k in s.streams
        ensures k in r.streams && s.streams[k] <= r.streams[k]
      {
        assert s.streams[k] <= s1.streams[k] <= r.streams[k];
      }
    }
  }

  /**
   The ledger entry of an execution stays its start time whatever else is
   delivered, as long as every STARTED event for it carries that same time. In
   particular, redelivering the STARTED event any number of times, with any
   faults, leaves the entry equal to its timestamp.
   */
  lemma {:induction false} StartTimeIsStable(s: Stores, id: string, startMs: int, ds: seq<Delivery>)
    requires id in s.ledger && s.ledger[id] == startMs
    requires forall i :: 0 <= i < |ds| && StartsExecution(ds[i].event, id) ==> ds[i].event.time == startMs
    ensures id in Replay(s, ds).ledger && Replay(s, ds).ledger[id] == startMs
    decreases |ds|
  {
    if ds != [] {
      var s1 := Handle(s, ds[0].event, ds[0].faults).stores;
      assert StartsExecution(ds[0].event, id) ==> ds[0].event.time == startMs;
      assert id in s1.ledger && s1.ledger[id] == startMs;
      forall i | 0 <= i < |ds[1..]| && StartsExecution(ds[1..][i].event, id)
        ensures ds[1..][i].event.time == startMs
      {
        assert ds[1..][i] == ds[i + 1];
      }
      StartTimeIsStable(s1, id, startMs, ds[1..]);
    }
  }

  /** Delivering the same STARTED event twice: once the first delivery completes, the entry is its timestamp, whatever the second meets. */
  lemma StartedDeliveredTwice(s: Stores, e: Event, first: Faults, second: Faults)
    requires Accepted(e) && StateOf(e) == Started
    requires Handle(s, e, first).thrown.None?
    ensures var s2 := Handle(Handle(s, e, first).stores, e, second).stores;
            Id(e) in s2.ledger && s2.ledger[Id(e)] == e.time
  {
  }

  /** A stream-creation error other than "already exists" stops the invocation before anything is written. */
  lemma StreamCreationErrorStops(s: Stores, e: Event, f: Faults)
    requires Accepted(e)
    requires f.createStream.Some? && f.createStream.value.name != AlreadyExists
    ensures Handle(s, e, f) == Outcome(s, f.createStream)
  {
  }

  /**
   Ensuring the stream is idempotent: when the execution's stream already
   exists, the "already exists" answer is not an error and the record is
   appended to the existing stream.
   */
  lemma ExistingStreamIsReused(s: Stores, e: Event, f: Faults)
    requires Accepted(e) && Id(e) in s.streams
    requires f.createStream.None? || f.createStream.value.name == AlreadyExists
    requires f.putLog.None?
    ensures var r := Handle(s, e, f).stores;
            Id(e) in r.streams && r.streams[Id(e)] == s.streams[Id(e)] + [RecordOf(e)]
  {
  }

  /**
   An append error is thrown and stops every later step: the ledger and the
   metrics are untouched and no record is added (the stream may have been
   created, empty).
   */
  lemma AppendErrorStops(s: Stores, e: Event, f: Faults)
    requires Accepted(e)
    requires f.createStream.None? || f.createStream.value.name == AlreadyExists
    requires f.putLog.Some?
    ensures var r := Handle(s, e, f);
            && r.thrown == f.putLog
            && r.stores.ledger == s.ledger && r.stores.metrics == s.metrics
            && StreamOf(r.stores.streams, Id(e)) == StreamOf(s.streams, Id(e))
  {
  }

  /** A STARTED event puts its time under its id, overwriting an older entry, and puts no metric. */
  lemma StartedRecordsStartTime(s: Stores, e: Event, f: Faults)
    requires Accepted(e) && StateOf(e) == Started
    requires Completes(s, e, f)
    ensures var r := Handle(s, e, f);
            && r.thrown.None?
            && Id(e) in r.stores.ledger && r.stores.ledger[Id(e)] == e.time
            && AgreeExcept(s.ledger, r.stores.ledger, Id(e))
            && r.stores.metrics == s.metrics
  {
  }

  /** A terminal event never writes the ledger. */
  lemma TerminalOnlyReadsLedger(s: Stores, e: Event, f: Faults)
    requires Accepted(e) && IsTerminal(StateOf(e))
    ensures Handle(s, e, f).stores.ledger == s.ledger
  {
  }

  /** A terminal event for an execution with no start time puts no metric and throws nothing of its own. */
  lemma MissingStartIsNotAnError(s: Stores, e: Event, f: Faults)
    requires Accepted(e) && IsTerminal(StateOf(e)) && Id(e) !in s.ledger
    requires f.createStream.None? || (f.createStream.value.name == AlreadyExists && Id(e) in s.streams)
    requires f.putLog.None? && f.getItem.None?
    ensures var r := Handle(s, e, f);
            r.thrown.None? && r.stores.metrics == s.metrics && r.stores.ledger == s.ledger
  {
  }

  /**
   A terminal event for an execution with a start time puts exactly one data
   point: the execution duration in seconds, with the pipeline as its only
   dimension.
   */
  lemma TerminalEmitsDuration(s: Stores, e: Event)
    requires Accepted(e) && IsTerminal(StateOf(e)) && Id(e) in s.ledger
    ensures var r := Handle(s, e, NoFaults);
            && r.thrown.None?
            && |r.stores.metrics| == |s.metrics| + 1
            && r.stores.metrics[..|s.metrics|] == s.metrics
            && var d := r.stores.metrics[|s.metrics|];
               && d.namespace == "PipelineMetrics" && d.name == "PipelineExecutionDuration"
               && d.dimensions == [Dimension("PipelineName", e.detail.value.pipeline)]
               && d.unit == "Seconds"
               && d.value * 1000.0 == (e.time - s.ledger[Id(e)]) as real
  {
    var r := Handle(s, e, NoFaults);
    assert r.stores.metrics == s.metrics + [DurationSample(e.detail.value.pipeline, s.ledger[Id(e)], e.time)];
  }

  /** There is no sign guard: a terminal event timed before its start puts a negative duration. */
  lemma NegativeDurationIsEmitted(s: Stores, e: Event)
    requires Accepted(e) && IsTerminal(StateOf(e)) && Id(e) in s.ledger && e.time < s.ledger[Id(e)]
    ensures var r := Handle(s, e, NoFaults);
            |r.stores.metrics| == |s.metrics| + 1 && r.stores.metrics[|s.metrics|].value < 0.0
  {
    TerminalEmitsDuration(s, e);
  }

  /** A redelivered terminal event puts a second, equal data point: duplicates are not suppressed. */
  lemma DuplicateTerminalEmitsTwice(s: Stores, e: Event)
    requires Accepted(e) && IsTerminal(StateOf(e)) && Id(e) in s.ledger
    ensures var d := DurationSample(e.detail.value.pipeline, s.ledger[Id(e)], e.time);
            Replay(s, [Delivery(e, NoFaults), Delivery(e, NoFaults)]).metrics == s.metrics + [d, d]
  {
    var d := DurationSample(e.detail.value.pipeline, s.ledger[Id(e)], e.time);
    var s1 := Handle(s, e, NoFaults).stores;
    var s2 := Handle(s1, e, NoFaults).stores;
    assert s1.metrics == s.metrics + [d];
    assert s2.metrics == s1.metrics + [d];
    assert [Delivery(e, NoFaults), Delivery(e, NoFaults)][1..] == [Delivery(e, NoFaults)];
    assert Replay(s, [Delivery(e, NoFaults), Delivery(e, NoFaults)]) == Replay(s1, [Delivery(e, NoFaults)]);
    assert Replay(s1, [Delivery(e, NoFaults)]) == Replay(s2, []);
  }

  /** CANCELED, or any unrecognised state, only ensures the stream and appends: no ledger access, no metric. */
  lemma OtherStatesOnlyLog(s: Stores, e: Event, f: Faults)
    requires Accepted(e) && StateOf(e) != Started && !IsTerminal(StateOf(e))
    ensures var r := Handle(s, e, f);
            && r.stores.ledger == s.ledger && r.stores.metrics == s.metrics
            && (r.thrown.None? <==>
                  (f.createStream.None? || (f.createStream.value.name == AlreadyExists && Id(e) in s.streams))
                  && f.putLog.None?)
  {
  }

  /**
   A whole execution: STARTED at `startMs`, then SUCCEEDED or FAILED at
   `endMs`, both delivered without faults, put one data point whose value in
   seconds is the difference of the two times divided by 1000, and the
   execution's stream holds the two records in order.
   */
  lemma ExecutionDuration(s: Stores, started: Event, ended: Event)
    requires Accepted(started) && StateOf(started) == Started
    requires Accepted(ended) && IsTerminal(StateOf(ended)) && Id(ended) == Id(started)
    ensures var r := Replay(s, [Delivery(started, NoFaults), Delivery(ended, NoFaults)]);
            && r.metrics == s.metrics + [DurationSample(ended.detail.value.pipeline, started.time, ended.time)]
            && Id(started) in r.streams && r.streams[Id(started)] == StreamOf(s.streams, Id(started)) + [RecordOf(started), RecordOf(ended)]
  {
    var ds := [Delivery(started, NoFaults), Delivery(ended, NoFaults)];
    var id := Id(started);
    var r1 := Handle(s, started, NoFaults);
    var s1 := r1.stores;
    assert Completes(s, started, NoFaults);
    assert s1.metrics == s.metrics && s1.ledger == s.ledger[id := started.time];
    assert s1.streams[id] == StreamOf(s.streams, id) + [RecordOf(started)];
    var r2 := Handle(s1, ended, NoFaults);
    var s2 := r2.stores;
    assert Completes(s1, ended, NoFaults);
    assert s2.metrics == s1.metrics + [DurationSample(ended.detail.value.pipeline, started.time, ended.time)];
    assert s2.streams[id] == s1.streams[id] + [RecordOf(ended)];
    assert ds[1..] == [Delivery(ended, NoFaults)];
    assert Replay(s, ds) == Replay(s1, ds[1..]);
    assert Replay(s1, ds[1..]) == Replay(s2, []);
  }

  /** Start at 1000 ms and end at 5000 ms: the data point is 4 seconds. */
  lemma FourSecondExecution(s: Stores, started: Event, ended: Event)
    requires Accepted(started) && StateOf(started) == Started && started.time == 1000
    requires Accepted(ended) && IsTerminal(StateOf(ended)) && Id(ended) == Id(started) && ended.time == 5000
    ensures var r := Replay(s, [Delivery(started, NoFaults), Delivery(ended, NoFaults)]);
            |r.metrics| == |s.metrics| + 1 && r.metrics[|s.metrics|].value == 4.0
  {
    ExecutionDuration(s, started, ended);
  }
}
