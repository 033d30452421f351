/**
 * What one attempt to render a page amounts to: the renderer's exit code,
 * the text it wrote to stdout and stderr and the parse of that stdout are
 * reduced to an error or to the parsed payload; `run` then accepts a
 * payload only when its content passes validation, and reports the
 * payload's warnings and notices when asked to.
 */
module Outcome {
  import opened Wrappers
  import opened Validation

  const UnknownError: string := "Unknown Error"
  const OkExitCode: int := 0

  /** The renderer's JSON answer.  An absent or empty `warnings`/`notices`
      array is `[]`; `errors` is `None` when absent or `null`; an absent
      `url` is `""`. */
  datatype Payload = Payload(
    ok: bool,
    content: string,
    warnings: seq<string>,
    notices: seq<string>,
    errors: Option<seq<string>>,
    url: string)

  /** `JSON.parse` of the renderer's stdout. */
  datatype ParseResult = ParseError(message: string) | Parsed(data: Payload)

  /** The first argument an attempt's `finish` is called with. */
  datatype AttemptError =
    | Message(text: string)           // a string: stderr, stdout or "Unknown Error"
    | EngineErrors(list: seq<string>) // the payload's own `errors` array
    | ParseFailure(reason: string)    // the exception `JSON.parse` threw
    | Raised(thrown: string)          // an error event or an exception from spawning

  datatype AttemptOutcome = Failed(error: AttemptError) | Done(result: Payload)

  /** Whether JavaScript treats the value as true; an array is even when it
      is empty. */
  predicate Truthy(e: AttemptError) {
    !(e.Message? && e.text == "")
  }

  /** `a || b` on strings. */
  function OrElse(a: string, b: string): (r: string)
    ensures a != "" ==> r == a
    ensures a == "" ==> r == b
  {
    if a != "" then a else b
  }

  /** The child's `close` handler.  `code` is `None` when the process was
      ended by a signal, which JavaScript reports as `null`. */
  function CloseOutcome(code: Option<int>, stderr: string, stdout: string, parsed: ParseResult): (r: AttemptOutcome)
    ensures r.Done? <==> code == Some(OkExitCode) && stderr == "" && parsed.Parsed? && parsed.data.ok
    ensures r.Done? ==> r.result == parsed.data
    ensures code != Some(OkExitCode) || stderr != "" ==>
      r == Failed(Message(if stderr != "" then stderr else if stdout != "" then stdout else UnknownError))
    ensures code == Some(OkExitCode) && stderr == "" && parsed.ParseError? ==> r == Failed(ParseFailure(parsed.message))
    ensures code == Some(OkExitCode) && stderr == "" && parsed.Parsed? && !parsed.data.ok ==>
      r == Failed(if parsed.data.errors.Some? then EngineErrors(parsed.data.errors.value) else Message(UnknownError))
    ensures r.Failed? ==> Truthy(r.error)
  {
    if code != Some(OkExitCode) || stderr != "" then
      Failed(Message(OrElse(stderr, OrElse(stdout, UnknownError))))
    else if parsed.ParseError? then
      Failed(ParseFailure(parsed.message))
    else if !parsed.data.ok then
      Failed(if parsed.data.errors.Some? then EngineErrors(parsed.data.errors.value) else Message(UnknownError))
    else
      Done(parsed.data)
  }

  /** `errorHandler(error)`: `thrown` is `None` when the handler receives a
      falsy value. */
  function HandlerError(thrown: Option<string>, stderr: string): (r: AttemptError)
    ensures thrown.Some? ==> r == Raised(thrown.value)
    ensures thrown.None? ==> r == Message(if stderr != "" then stderr else UnknownError)
    ensures Truthy(r)
  {
    if thrown.Some? then Raised(thrown.value) else Message(OrElse(stderr, UnknownError))
  }

  /** What `run` makes of a delivered outcome: accept the payload, or retry
      because the attempt failed or its content is not a whole page. */
  datatype Verdict = Accept(result: Payload) | Retry(reason: RetryReason)
  datatype RetryReason = AttemptFailed(error: AttemptError) | Invalid(message: string)

  /** `err || (err = validate(result.content))`: every failure is truthy, so
      a failed attempt is retried without its content being looked at. */
  function Judge(o: AttemptOutcome): Verdict
    requires o.Failed? ==> Truthy(o.error)
  {
    match o
    case Failed(error) => Retry(AttemptFailed(error))
    case Done(result) =>
      match ValidationError(result.content)
      case Some(message) => Retry(Invalid(message))
      case None => Accept(result)
  }

  /** A payload is accepted exactly when both patterns match its content;
      otherwise the reason is the failure or the first check that fails. */
  lemma JudgeMeaning(o: AttemptOutcome)
    requires o.Failed? ==> Truthy(o.error)
    ensures var v := Judge(o);
      && (v.Accept? <==> o.Done? && MatchesOpenPattern(o.result.content) && MatchesClosePattern(o.result.content))
      && (v.Accept? ==> v.result == o.result)
      && (o.Failed? ==> v == Retry(AttemptFailed(o.error)))
      && (o.Done? && !MatchesOpenPattern(o.result.content) ==> v == Retry(Invalid(NoOpenTagMessage)))
      && (o.Done? && MatchesOpenPattern(o.result.content) && !MatchesClosePattern(o.result.content) ==>
            v == Retry(Invalid(NoCloseTagMessage)))
  {
    if o.Done? {
      ValidationErrorMeaning(o.result.content);
    }
  }

  /** A console report of `_performImpressReport`. */
  datatype Report = WarningsReport(url: string, lines: seq<string>) | NoticesReport(url: string, lines: seq<string>)

  /** The reports for an accepted payload: warnings first, then notices,
      each only when its flag is set and its list is not empty, and each
      under the payload's own url or else the job's. */
  function ImpressReports(warningsOn: bool, noticesOn: bool, result: Payload, jobUrl: string): seq<Report> {
    var url := OrElse(result.url, jobUrl);
    (if warningsOn && result.warnings != [] then [WarningsReport(url, result.warnings)] else [])
    + (if noticesOn && result.notices != [] then [NoticesReport(url, result.notices)] else [])
  }

  lemma ImpressReportsMeaning(warningsOn: bool, noticesOn: bool, result: Payload, jobUrl: string)
    ensures var rs := ImpressReports(warningsOn, noticesOn, result, jobUrl);
      && |rs| <= 2
      && ((exists i :: 0 <= i < |rs| && rs[i].WarningsReport?) <==> warningsOn && result.warnings != [])
      && ((exists i :: 0 <= i < |rs| && rs[i].NoticesReport?) <==> noticesOn && result.notices != [])
      && (forall i :: 0 <= i < |rs| ==> rs[i].url == (if result.url != "" then result.url else jobUrl))
      && (forall i :: 0 <= i < |rs| && rs[i].WarningsReport? ==> rs[i].lines == result.warnings && i == 0)
      && (forall i :: 0 <= i < |rs| && rs[i].NoticesReport? ==> rs[i].lines == result.notices)
  {
    var url := OrElse(result.url, jobUrl);
    var warned := if warningsOn && result.warnings != [] then [WarningsReport(url, result.warnings)] else [];
    var noticed := if noticesOn && result.notices != [] then [NoticesReport(url, result.notices)] else [];
    var rs := warned + noticed;
    assert rs == ImpressReports(warningsOn, noticesOn, result, jobUrl);
    assert warned != [] ==> rs[0] == warned[0];
    assert noticed != [] ==> rs[|rs| - 1] == noticed[0];
  }
}
