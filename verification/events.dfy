/**
 The pipeline execution state-change event both handlers receive:
 `{detail: {pipeline, execution-id, state, ...}, time, account, region}`.
 */
module Events {
  import opened Results

  const Started := "STARTED"
  const Succeeded := "SUCCEEDED"
  const Failed := "FAILED"
  const Canceled := "CANCELED"

  /**
   The `execution-id` entry of the detail as the handlers see it: the key is
   absent, or it holds JSON null, or it holds a string.
   */
  datatype IdField = Absent | Null | Text(text: string)

  /**
   The `detail` object. The state is any string, since the handlers compare it
   against literals and treat everything else alike.
   */
  datatype Detail = Detail(executionId: IdField, pipeline: string, state: string)

  /**
   An event as delivered. `detail` is `None` when the key is absent; `time` is
   the event time already converted to milliseconds since the epoch.
   */
  datatype Event = Event(detail: Option<Detail>, time: int, account: string, region: string)

  /** A state that ends an execution and triggers the duration lookup. */
  predicate IsTerminal(state: string) {
    state == Succeeded || state == Failed
  }

  /**
   The log processor's guard: it acts only on an event that has a detail whose
   execution id is truthy in JavaScript: a string, and a non-empty one
   (`undefined`, `null` and `""` are all falsy).
   */
  predicate Accepted(e: Event) {
    e.detail.Some? && e.detail.value.executionId.Text? && e.detail.value.executionId.text != ""
  }

  function Id(e: Event): string
    requires Accepted(e)
  {
    e.detail.value.executionId.text
  }

  function StateOf(e: Event): string
    requires Accepted(e)
  {
    e.detail.value.state
  }
}
