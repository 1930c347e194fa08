/**
  Reading what `QueryBridge::execute` answers. A caller parses the answer by the JSON
  grammar and finds the engine's output, the engine's failure, or the refusal that
  applied; nothing here looks at how the answer was printed.
 */
module ResponseReader {
  import opened Options
  import opened Json
  import opened TaggedReader
  import opened TaggedValues
  import opened BoundedResponse

  datatype Answer =
    | Success(output: Output)
    | Failed(failure: Failure)
    | TooLarge(maxBytes: nat, message: string)

  function FailureOf(error: seq<Field>): Option<Failure> {
    var kind, message := Lookup(error, "kind"), Lookup(error, "message");
    if kind.Some? && kind.value.JString? && message.Some? && message.value.JString?
    then Some(Failure(kind.value.text, message.value.text))
    else None
  }

  /** An error, or the refusal of an answer that the engine did give. */
  function ErrorOf(error: seq<Field>): Option<Answer> {
    var failure, succeeded := FailureOf(error), Lookup(error, "engine_query_succeeded");
    if failure.None? then None
    else if succeeded.None? then Some(Failed(failure.value))
    else
      var limit := Lookup(error, "max_encoded_bytes");
      if succeeded.value == JBool(true) && failure.value.kind == "response_limit" && limit.Some? && limit.value.JNumber?
         && DecimalValue(limit.value.digits).Some?
      then Some(TooLarge(DecimalValue(limit.value.digits).value, failure.value.message))
      else None
  }

  function AnswerOf(q: Readers, fields: seq<Field>): Option<Answer> {
    var status, error := Lookup(fields, "status"), Lookup(fields, "error");
    if status == Some(JString("ok")) then
      var output := OutputOf(q, fields);
      if output.None? then None else Some(Success(output.value))
    else if status == Some(JString("error")) && error.Some? && error.value.JObject? then ErrorOf(error.value.fields)
    else None
  }

  function ReadAnswer(q: Readers, text: string): Option<Answer> {
    var r := Parse(text);
    if r.Read? && r.value.JObject? then AnswerOf(q, r.value.fields) else None
  }

  // ----- errors are parsed -----

  ghost function ParsedFailure(failure: Failure): seq<Field> {
    [Field("kind", JString(failure.kind)), Field("message", JString(failure.message))]
  }

  ghost function ParsedLimit(message: string): seq<Field> {
    [Field("engine_query_succeeded", JBool(true)), Field("kind", JString("response_limit")),
     Field("max_encoded_bytes", JNumber("8388608")), Field("message", JString(message))]
  }

  ghost function ParsedError(error: seq<Field>): Json {
    JObject([Field("error", JObject(error)), Field("status", JString("error"))])
  }

  lemma ReadsMember(name: string, text: string, value: Json, rest: string)
    requires ReadValue(text) == Read(value, rest)
    ensures ReadField(Member(name, text)) == Read(Field(name, value), rest)
    ensures Member(name, text) != "" && Member(name, text)[0] == '\"'
  {
    ReadsNamed(name, text, value, rest);
  }

  /** What follows the fields of an error. */
  ghost function Rest(): string {
    "," + Member("status", Quoted("error", "}"))
  }

  lemma ReadsStatus()
    ensures ReadFields(Member("status", Quoted("error", "}"))) == Read([Field("status", JString("error"))], "")
  {
    assert "}" == "}" + "";
    ReadsQuoted("error", "}");
    ReadsMember("status", Quoted("error", "}"), JString("error"), "}");
    ReadsLastField(Member("status", Quoted("error", "}")), Field("status", JString("error")), "");
  }

  /** The frame around the fields of an error. */
  lemma ReadsError(text: string, error: seq<Field>)
    requires text != "" && text[0] == '\"' && ReadFields(text) == Read(error, Rest())
    ensures Parse(ErrorObject(text)) == Read(ParsedError(error), "")
  {
    var outer := Member("error", "{" + text);
    var first, last := Field("error", JObject(error)), Field("status", JString("error"));
    ReadsObject(text, error, Rest());
    ReadsMember("error", "{" + text, JObject(error), Rest());
    ReadsStatus();
    ReadsNextField(outer, first, Member("status", Quoted("error", "}")), [last], "");
    assert [first] + [last] == [first, last];
    ReadsObject(outer, [first, last], "");
  }

  /** The message comes last in every error. */
  lemma ReadsMessage(message: string)
    ensures ReadFields(Message(message)) == Read([Field("message", JString(message))], Rest())
  {
    assert ERROR_CLOSE == "}" + Rest();
    ReadsQuoted(message, "}" + Rest());
    ReadsMember("message", Quoted(message, "}" + Rest()), JString(message), "}" + Rest());
    ReadsLastField(Message(message), Field("message", JString(message)), Rest());
  }

  lemma ReadsFailure(failure: Failure)
    ensures Parse(ErrorResponse(failure)) == Read(ParsedError(ParsedFailure(failure)), "")
  {
    var message := Message(failure.message);
    var kind := Quoted(failure.kind, "," + message);
    var first, last := Field("kind", JString(failure.kind)), Field("message", JString(failure.message));
    ReadsMessage(failure.message);
    ReadsQuoted(failure.kind, "," + message);
    ReadsMember("kind", kind, JString(failure.kind), "," + message);
    ReadsNextField(Member("kind", kind), first, message, [last], Rest());
    assert [first] + [last] == ParsedFailure(failure);
    ReadsError(Member("kind", kind), ParsedFailure(failure));
  }

  lemma ReadsTrue(rest: string)
    ensures ReadValue("true," + rest) == Read(JBool(true), "," + rest)
  {
    assert "true," + rest == "true" + ("," + rest);
    ReadsLiteral("true", JBool(true), "," + rest);
  }

  lemma ReadsMaxBytes(rest: string)
    ensures ReadValue("8388608," + rest) == Read(JNumber("8388608"), "," + rest)
  {
    assert "8388608," + rest == "8388608" + ("," + rest);
    ReadsNumber("8388608", "," + rest);
  }

  ghost function BytesText(message: string): string {
    Member("max_encoded_bytes", "8388608," + Message(message))
  }

  lemma ReadsBytes(message: string)
    ensures ReadFields(BytesText(message)) ==
            Read([Field("max_encoded_bytes", JNumber("8388608")), Field("message", JString(message))], Rest())
  {
    var text := Message(message);
    var field, last := Field("max_encoded_bytes", JNumber("8388608")), Field("message", JString(message));
    ReadsMessage(message);
    ReadsMaxBytes(text);
    ReadsMember("max_encoded_bytes", "8388608," + text, field.value, "," + text);
    ReadsNextField(BytesText(message), field, text, [last], Rest());
    assert [field] + [last] == [field, last];
  }

  lemma ReadsLimitMembers(message: string)
    ensures ReadFields(LimitMembers(message)) == Read(ParsedLimit(message), Rest())
  {
    var y := BytesText(message);
    var x := Member("kind", Quoted("response_limit", "," + y));
    var f := ParsedLimit(message);
    ReadsBytes(message);
    ReadsQuoted("response_limit", "," + y);
    ReadsMember("kind", Quoted("response_limit", "," + y), f[1].value, "," + y);
    ReadsNextField(x, f[1], y, [f[2], f[3]], Rest());
    ReadsTrue(x);
    ReadsMember("engine_query_succeeded", "true," + x, f[0].value, "," + x);
    ReadsNextField(LimitMembers(message), f[0], x, [f[1]] + [f[2], f[3]], Rest());
    assert [f[0]] + ([f[1]] + [f[2], f[3]]) == f;
  }

  lemma ReadsLimit(message: string)
    ensures Parse(LimitResponse(message)) == Read(ParsedError(ParsedLimit(message)), "")
  {
    ReadsLimitMembers(message);
    ReadsError(LimitMembers(message), ParsedLimit(message));
  }

  // ----- answers are understood -----

  lemma ErrorIsRead(q: Readers, text: string, error: seq<Field>)
    requires Parse(text) == Read(ParsedError(error), "")
    ensures ReadAnswer(q, text) == ErrorOf(error)
  {
    LookupAt(ParsedError(error).fields, "status", 1);
  }

  lemma FailureIsRead(q: Readers, failure: Failure)
    ensures ReadAnswer(q, ErrorResponse(failure)) == Some(Failed(failure))
  {
    ReadsFailure(failure);
    var error := ParsedFailure(failure);
    ErrorIsRead(q, ErrorResponse(failure), error);
    LookupAt(error, "message", 1);
    NotFound(error, "engine_query_succeeded");
  }

  lemma LimitDigits()
    ensures DecimalValue("8388608") == Some(MAX_RESPONSE_BYTES)
  {
    assert "8388608"[..6] == "838860" && "838860"[..5] == "83886" && "83886"[..4] == "8388";
    assert "8388"[..3] == "838" && "838"[..2] == "83" && "83"[..1] == "8";
    assert DecimalValue("83") == Some(83);
    assert DecimalValue("8388") == Some(8388);
    assert DecimalValue("838860") == Some(838860);
  }

  lemma LimitFields(message: string)
    ensures var error := ParsedLimit(message);
            && FailureOf(error) == Some(Failure("response_limit", message))
            && Lookup(error, "engine_query_succeeded") == Some(JBool(true))
            && Lookup(error, "max_encoded_bytes") == Some(JNumber("8388608"))
  {
    LookupAt(ParsedLimit(message), "kind", 1);
    LookupAt(ParsedLimit(message), "max_encoded_bytes", 2);
    LookupAt(ParsedLimit(message), "message", 3);
  }

  lemma LimitIsRead(q: Readers, message: string)
    ensures ReadAnswer(q, LimitResponse(message)) == Some(TooLarge(MAX_RESPONSE_BYTES, message))
  {
    ReadsLimit(message);
    ErrorIsRead(q, LimitResponse(message), ParsedLimit(message));
    LimitFields(message);
    LimitDigits();
  }

  lemma OutputIsRead(q: Readers, p: Printers, output: Output)
    requires Understands(q, p)
    ensures ReadAnswer(q, Response(p, output)) == Some(Success(output))
  {
    OutputRoundTrip(q, p, output);
  }

  /**
    What a caller reads is what happened: the engine's complete output, the engine's
    own failure with its kind and message, or the refusal of an oversized query or answer.
   */
  lemma AnswerIsRead(
    q: Readers, p: Printers, query: string, result: Result<Output, Failure>, limitMessage: string, response: string)
    requires Understands(q, p) && Answers(p, query, result, limitMessage, response)
    ensures |query| > 65536 ==>
              ReadAnswer(q, response) == Some(Failed(Failure("query_limit", "Query exceeds the 64 KiB input limit.")))
    ensures |query| <= 65536 && result.Err? ==> ReadAnswer(q, response) == Some(Failed(result.error))
    ensures |query| <= 65536 && result.Ok? && |Response(p, result.value)| <= 8388608 ==>
              ReadAnswer(q, response) == Some(Success(result.value))
    ensures |query| <= 65536 && result.Ok? && |Response(p, result.value)| > 8388608 ==>
              ReadAnswer(q, response) == Some(TooLarge(8388608, limitMessage))
  {
    FailureIsRead(q, QUERY_LIMIT);
    LimitIsRead(q, limitMessage);
    match result {
      case Ok(output) => OutputIsRead(q, p, output);
      case Err(failure) => FailureIsRead(q, failure);
    }
  }
}
