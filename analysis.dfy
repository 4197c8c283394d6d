/**
 * `analyzeWithGemini`: send the prompt, parse the reply as JSON, post-process
 * the clauses; any error on the way comes back as one error whose message
 * says the analysis failed.
 */
module Analysis {
  import opened Wrappers
  import opened JsStrings
  import opened PropertyKeys
  import opened ClauseProcessing
  import opened Prompt

  const ErrorPrefix: JsString := Bmp("AI failed to parse legal clauses: ")

  /** The message of the error `analyzeWithGemini` throws for an error with `message`. */
  function WrapError(message: JsString): (e: JsString)
    ensures |e| == |ErrorPrefix| + |message|
    ensures e[..|ErrorPrefix|] == ErrorPrefix
    ensures e[|ErrorPrefix|..] == message
  {
    ErrorPrefix + message
  }

  /** The original message, read back from a wrapped one. */
  function UnwrapError(e: JsString): JsString
    requires |e| >= |ErrorPrefix|
  {
    e[|ErrorPrefix|..]
  }

  lemma UnwrapWrapError(message: JsString)
    ensures UnwrapError(WrapError(message)) == message
  {
  }

  /** Distinct causes give distinct messages. */
  lemma WrapErrorInjective(m1: JsString, m2: JsString)
    ensures WrapError(m1) == WrapError(m2) <==> m1 == m2
  {
    if WrapError(m1) == WrapError(m2) {
      UnwrapWrapError(m1);
      UnwrapWrapError(m2);
    }
  }

  /**
   * The steps inside the `try` before post-processing: the model's reply
   * to the prompt (`generate`, with the message of its error when the call
   * or `response.text()` throws), then `JSON.parse` and the shape the
   * post-processor needs (`parse`, with the message of the `SyntaxError`
   * `JSON.parse` throws, or of the `TypeError` the post-processor throws for
   * an answer that is not an array or has a `null` element).
   */
  function ParsedReply(text: JsString, generate: JsString -> Result<JsString, JsString>,
                       parse: JsString -> Result<seq<ClauseRecord>, JsString>): Result<seq<ClauseRecord>, JsString>
  {
    match generate(BuildPrompt(text))
    case Failure(message) => Failure(message)
    case Success(rawText) => parse(rawText)
  }

  /** The clause objects `JSON.parse` created, if it got that far. */
  function ParsedClauses(reply: Result<seq<ClauseRecord>, JsString>): seq<ClauseRecord> {
    if reply.Success? then reply.value else []
  }

  /**
   * `analyzeWithGemini(text)` with the clock reading `today`: failure with
   * the wrapped message when any step throws, otherwise the post-processed
   * clauses.
   */
  method AnalyzeWithGemini(text: JsString, today: int, generate: JsString -> Result<JsString, JsString>,
                           parse: JsString -> Result<seq<ClauseRecord>, JsString>)
    returns (r: Result<seq<ClauseRecord>, JsString>)
    modifies ParsedClauses(ParsedReply(text, generate, parse))
    ensures ParsedReply(text, generate, parse).Failure? ==>
      r == Failure(WrapError(ParsedReply(text, generate, parse).error))
    ensures ParsedReply(text, generate, parse).Success? ==> r.Success?
    ensures r.Success? ==> var clauses := ParsedReply(text, generate, parse).value;
      && ParsedReply(text, generate, parse).Success?
      && IsDeduplication(r.value, Categories(r.value), clauses, old(Categories(clauses)), ObjectPrototypeNames)
      && (forall j :: 0 <= j < |r.value| ==> r.value[j] in clauses)
      && (forall j :: 0 <= j < |r.value| ==> Stamped(r.value[j], today))
      && (forall c :: c in clauses ==> PayloadUnchanged(c))
      && (forall c :: c in clauses && c !in r.value ==> c.status == old(c.status) && c.warning == old(c.warning))
  {
    var prompt := BuildPrompt(text);
    var reply := generate(prompt);
    if reply.Failure? {
      return Failure(WrapError(reply.error));
    }
    var parsed := parse(reply.value);
    if parsed.Failure? {
      return Failure(WrapError(parsed.error));
    }
    var clauses := ProcessClausesWithWarnings(parsed.value, today);
    return Success(clauses);
  }
}
