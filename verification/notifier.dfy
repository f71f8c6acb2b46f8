/**
 The notification handler: the Python `lambda_handler` of the
 `PipelineNotificationLambda` function. It formats one chat message per state
 change and posts it to the webhook as the JSON body `{"text": message}`.
 */
module Notifier {
  import opened Results
  import opened Events
  import opened JsonText

  // ---------------------------------------------------------------------
  // The message

  /** The part of the message that names the state. */
  function Phrase(state: string): string
  {
    if state == Started then "has entered the state *STARTED*"
    else if state == Succeeded then "has *SUCCEEDED*"
    else if state == Failed then "has *FAILED*"
    else if state == Canceled then "has been *CANCELED*"
    else "has entered an unknown state *" + state + "*"
  }

  /** The context every message opens with, up to the state phrase. */
  function Opening(pipeline: string, account: string, region: string): string
  {
    "Pipeline *" + pipeline + "* in account *" + account + "* in region *" + region + "* "
  }

  /** The execution id every message closes with. */
  function Closing(executionId: string): string
  {
    " with execution ID *" + executionId + "*."
  }

  /**
   The message for one state change; every state, known or not, has one. It
   names the pipeline, the account, the region and the execution id, and holds
   the phrase for the state; any state other than the four known ones appears
   literally.
   */
  function Message(state: string, pipeline: string, account: string, region: string, executionId: string): (m: string)
    ensures Contains(m, pipeline) && Contains(m, account) && Contains(m, region) && Contains(m, executionId)
    ensures Contains(m, Phrase(state))
    ensures state !in {Started, Succeeded, Failed, Canceled} ==> Contains(m, state)
  {
    PartsMentionContext(state, pipeline, account, region, executionId);
    PartsMentionState(state, pipeline, account, region, executionId);
    Opening(pipeline, account, region) + Phrase(state) + Closing(executionId)
  }

  /** `sub` occurs in `s` at index `k`. */
  ghost predicate OccursAt(s: string, sub: string, k: int)
  {
    0 <= k && k + |sub| <= |s| && s[k..k + |sub|] == sub
  }

  ghost predicate Contains(s: string, sub: string)
  {
    exists k :: OccursAt(s, sub, k)
  }

  lemma OccursInMiddle(u: string, sub: string, v: string)
    ensures OccursAt(u + sub + v, sub, |u|)
  {
    assert (u + sub + v)[|u|..|u| + |sub|] == sub;
  }

  lemma ContainsExtendRight(s: string, sub: string, v: string)
    requires Contains(s, sub)
    ensures Contains(s + v, sub)
  {
    var k :| OccursAt(s, sub, k);
    assert (s + v)[k..k + |sub|] == s[k..k + |sub|];
    assert OccursAt(s + v, sub, k);
  }

  lemma ContainsExtendLeft(u: string, s: string, sub: string)
    requires Contains(s, sub)
    ensures Contains(u + s, sub)
  {
    var k :| OccursAt(s, sub, k);
    assert (u + s)[|u| + k..|u| + k + |sub|] == s[k..k + |sub|];
    assert OccursAt(u + s, sub, |u| + k);
  }

  lemma OpeningMentions(pipeline: string, account: string, region: string)
    ensures var o := Opening(pipeline, account, region);
            Contains(o, pipeline) && Contains(o, account) && Contains(o, region)
  {
    var o := Opening(pipeline, account, region);
    var tail := "* in region *" + region + "* ";
    var head := "Pipeline *" + pipeline + "* in account *";
    assert o == head + account + tail;
    OccursInMiddle(head, account, tail);
    assert o == "Pipeline *" + pipeline + ("* in account *" + account + tail);
    OccursInMiddle("Pipeline *", pipeline, "* in account *" + account + tail);
    assert o == (head + account + "* in region *") + region + "* ";
    OccursInMiddle(head + account + "* in region *", region, "* ");
  }

  lemma PartsMentionContext(state: string, pipeline: string, account: string, region: string, executionId: string)
    ensures var m := Opening(pipeline, account, region) + Phrase(state) + Closing(executionId);
            Contains(m, pipeline) && Contains(m, account) && Contains(m, region) && Contains(m, executionId)
  {
    var o, ph, c := Opening(pipeline, account, region), Phrase(state), Closing(executionId);
    OpeningMentions(pipeline, account, region);
    ContainsExtendRight(o, pipeline, ph);
    ContainsExtendRight(o + ph, pipeline, c);
    ContainsExtendRight(o, account, ph);
    ContainsExtendRight(o + ph, account, c);
    ContainsExtendRight(o, region, ph);
    ContainsExtendRight(o + ph, region, c);
    OccursInMiddle(" with execution ID *", executionId, "*.");
    ContainsExtendLeft(o + ph, c, executionId);
  }

  lemma PartsMentionState(state: string, pipeline: string, account: string, region: string, executionId: string)
    ensures var m := Opening(pipeline, account, region) + Phrase(state) + Closing(executionId);
            && Contains(m, Phrase(state))
            && (state !in {Started, Succeeded, Failed, Canceled} ==> Contains(m, state))
  {
    var o, ph, c := Opening(pipeline, account, region), Phrase(state), Closing(executionId);
    OccursInMiddle(o, ph, c);
    if state !in {Started, Succeeded, Failed, Canceled} {
      OccursInMiddle("has entered an unknown state *", state, "*");
      ContainsExtendLeft(o, ph, state);
      ContainsExtendRight(o + ph, state, c);
    }
  }

  /** `P + a + S == P + b + S` only when `a == b`. */
  lemma CancelAround(p: string, a: string, b: string, q: string)
    requires p + a + q == p + b + q
    ensures a == b
  {
    assert |a| == |b|;
    assert a == (p + a + q)[|p|..|p| + |a|];
    assert b == (p + b + q)[|p|..|p| + |b|];
  }

  lemma PhraseDeterminesState(s1: string, s2: string)
    requires Phrase(s1) == Phrase(s2)
    ensures s1 == s2
  {
    var known := {Started, Succeeded, Failed, Canceled};
    var p1, p2 := Phrase(s1), Phrase(s2);
    if s1 !in known && s2 !in known {
      CancelAround("has entered an unknown state *", s1, s2, "*");
    } else if s1 in known && s2 in known {
      // The four fixed phrases differ pairwise.
      assert |p1| == |p2|;
      if p1 == "has entered the state *STARTED*" || p2 == "has entered the state *STARTED*" {
        assert p1[4] == p2[4];
      } else {
        assert p1[5] == p2[5];
      }
    } else {
      // A fixed phrase and a fallback phrase differ at index 4 or 12.
      assert p1[4] == p2[4];
      assert p1[12] == p2[12];
    }
  }

  /**
   The message tells the states apart: within one context, two states give
   the same message only if they are the same state, the unknown ones included.
   */
  lemma MessageDeterminesState(s1: string, s2: string, pipeline: string, account: string, region: string,
                               executionId: string)
    requires Message(s1, pipeline, account, region, executionId) == Message(s2, pipeline, account, region, executionId)
    ensures s1 == s2
  {
    CancelAround(Opening(pipeline, account, region), Phrase(s1), Phrase(s2), Closing(executionId));
    PhraseDeterminesState(s1, s2);
  }

  // ---------------------------------------------------------------------
  // The request

  /**
   `json.dumps({'text': message})`: printable ASCII, and it reads back as the
   message. The key `text` needs no escaping, so it is written as it is.
   */
  function Body(message: string): (b: string)
    ensures AllPrintable(b)
    ensures ParseBody(b) == Some(message)
  {
    var t := Escape(message);
    TextBodyParses(t, message);
    TextBodyPrintable(t);
    BodyPrefix + t + "\"}"
  }

  /** The prefix every body has, up to the opening quote of the message. */
  const BodyPrefix := "{\"text\": \""

  /** Reads back the message from a body of the form `{"text": "..."}`. */
  function ParseBody(b: string): Option<string>
  {
    if |b| >= |BodyPrefix| + 2 && b[..|BodyPrefix|] == BodyPrefix && b[|b| - 2..] == "\"}"
    then Unescape(b[|BodyPrefix|..|b| - 2])
    else None
  }

  /** A body of the form `{"text": "..."}` reads back as whatever its contents decode to. */
  lemma TextBodyParses(t: string, message: string)
    requires Unescape(t) == Some(message)
    ensures ParseBody(BodyPrefix + t + "\"}") == Some(message)
  {
    var b := BodyPrefix + t + "\"}";
    assert b[..|BodyPrefix|] == BodyPrefix;
    assert b[|b| - 2..] == "\"}";
    assert b[|BodyPrefix|..|b| - 2] == t;
  }

  /** A body of the form `{"text": "..."}` around printable contents is printable. */
  lemma TextBodyPrintable(t: string)
    requires AllPrintable(t)
    ensures AllPrintable(BodyPrefix + t + "\"}")
  {
    PrintableConcat(BodyPrefix, t);
    PrintableConcat(BodyPrefix + t, "\"}");
  }

  const ContentType := ("Content-Type", "application/json")

  /** `json.dumps('Notification sent to Slack')`: the text has nothing to escape. */
  const AcknowledgementJson := "\"Notification sent to Slack\""

  datatype Request = Request(verb: string, url: string, body: string, headers: seq<(string, string)>)

  /** What the HTTP exchange came to: an answer with any status code, or an exception. */
  datatype Exchange = Answered(status: int) | Unreachable(error: string)

  datatype NotifyError =
    | KeyError(key: string)         // a key the handler reads is missing from the event
    | TransportError(error: string) // the POST raised

  datatype Response = Response(statusCode: int, body: string)

  /** The request posted, if one was, and what the invocation returned or raised. */
  datatype Invocation = Invocation(sent: Option<Request>, result: Result<Response, NotifyError>)

  /**
   How the f-string writes the execution id: a string as it is, and JSON null,
   which `json.loads` turns into Python's `None`, as the word `None`.
   */
  function Formatted(id: IdField): string
    requires !id.Absent?
  {
    if id.Null? then "None" else id.text
  }

  /**
   One invocation of the notification handler. `webhookUrl` is the decrypted
   webhook address; `exchange` is what the POST came to.
   */
  function Notify(e: Event, webhookUrl: string, exchange: Exchange): (r: Invocation)
    // Nothing is posted when a key is missing, and the KeyError names it.
    ensures r.sent.None? <==> e.detail.None? || e.detail.value.executionId.Absent?
    ensures e.detail.None? ==> r == Invocation(None, Failure(KeyError("detail")))
    ensures e.detail.Some? && e.detail.value.executionId.Absent? ==>
              r == Invocation(None, Failure(KeyError("execution-id")))
    // Otherwise one POST of the message for the event, as JSON, to the webhook;
    // a null execution id is written as `None`.
    ensures r.sent.Some? ==>
              var d := e.detail.value;
              && r.sent.value.verb == "POST" && r.sent.value.url == webhookUrl
              && r.sent.value.headers == [ContentType]
              && ParseBody(r.sent.value.body) == Some(Message(d.state, d.pipeline, e.account, e.region, Formatted(d.executionId)))
    // The invocation succeeds exactly when the POST got an answer, whatever its status code.
    ensures r.result.Success? <==> r.sent.Some? && exchange.Answered?
    ensures r.result.Success? ==> r.result.value == Response(200, AcknowledgementJson)
    ensures r.sent.Some? && exchange.Unreachable? ==> r.result == Failure(TransportError(exchange.error))
  {
    match e.detail
    case None => Invocation(None, Failure(KeyError("detail")))
    case Some(d) =>
      if d.executionId.Absent? then Invocation(None, Failure(KeyError("execution-id")))
      else
        var message := Message(d.state, d.pipeline, e.account, e.region, Formatted(d.executionId));
        var request := Request("POST", webhookUrl, Body(message), [ContentType]);
        match exchange
        case Unreachable(error) => Invocation(Some(request), Failure(TransportError(error)))
        case Answered(_) => Invocation(Some(request), Success(Response(200, AcknowledgementJson)))
  }

  /**
   An unrecognised state is never reported as a known one: its message differs
   from the message of every known state in the same context.
   */
  lemma UnknownStateIsDistinct(state: string, known: string, pipeline: string, account: string, region: string,
                               executionId: string)
    requires state !in {Started, Succeeded, Failed, Canceled} && known in {Started, Succeeded, Failed, Canceled}
    ensures Message(state, pipeline, account, region, executionId) != Message(known, pipeline, account, region, executionId)
  {
    if Message(state, pipeline, account, region, executionId) == Message(known, pipeline, account, region, executionId) {
      MessageDeterminesState(state, known, pipeline, account, region, executionId);
    }
  }

  /** An unrecognised state such as PAUSED is posted with the state written out in the message. */
  lemma UnknownStateIsNamed(e: Event, webhookUrl: string, exchange: Exchange)
    requires e.detail.Some? && !e.detail.value.executionId.Absent?
    requires e.detail.value.state !in {Started, Succeeded, Failed, Canceled}
    ensures var r := Notify(e, webhookUrl, exchange);
            && r.sent.Some?
            && var m := ParseBody(r.sent.value.body);
               m.Some? && Contains(m.value, e.detail.value.state)
  {
  }
}
