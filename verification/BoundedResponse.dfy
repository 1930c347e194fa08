/**
  `QueryBridge::execute` and the writer that bounds its response. The serializer
  hands the encoding to the writer in chunks; where it cuts is left open.
 */
module BoundedResponse {
  import opened Options
  import opened TaggedValues

  const MAX_QUERY_BYTES: nat := 64 * 1024
  const MAX_RESPONSE_BYTES: nat := 8 * 1024 * 1024

  function Join(chunks: seq<string>): string {
    if chunks == [] then "" else chunks[0] + Join(chunks[1..])
  }

  lemma {:induction false} JoinOfPrefix(chunks: seq<string>, i: nat)
    requires i < |chunks|
    ensures Join(chunks[..i + 1]) == Join(chunks[..i]) + chunks[i]
  {
    if i > 0 {
      assert chunks[..i + 1][1..] == chunks[1..][..i] && chunks[..i][1..] == chunks[1..][..i - 1];
      JoinOfPrefix(chunks[1..], i - 1);
    }
  }

  lemma {:induction false} JoinSplits(chunks: seq<string>, i: nat)
    requires i <= |chunks|
    ensures Join(chunks) == Join(chunks[..i]) + Join(chunks[i..])
  {
    if i > 0 {
      assert chunks[..i][1..] == chunks[1..][..i - 1] && chunks[1..][i - 1..] == chunks[i..];
      JoinSplits(chunks[1..], i - 1);
    }
  }

  class BoundedJson {
    var buffer: string

    ghost predicate Valid()
      reads this
    {
      |buffer| <= MAX_RESPONSE_BYTES
    }

    constructor ()
      ensures Valid() && buffer == ""
    {
      buffer := "";
    }

    /** `write`: all of the bytes or none of them. */
    method Write(bytes: string) returns (ok: bool)
      requires Valid()
      modifies this
      ensures Valid()
      ensures ok <==> |old(buffer) + bytes| <= MAX_RESPONSE_BYTES
      ensures buffer == if ok then old(buffer) + bytes else old(buffer)
    {
      if |bytes| > MAX_RESPONSE_BYTES - |buffer| {
        return false;
      }
      buffer := buffer + bytes;
      ok := true;
    }

    /**
      `to_writer`: chunk after chunk until one is refused. However the text is cut,
      it is taken whole exactly when it fits, and what is in the buffer is a prefix
      of it that ends at a chunk.
     */
    method WriteAll(chunks: seq<string>) returns (ok: bool, ghost written: nat)
      requires Valid()
      modifies this
      ensures Valid() && written <= |chunks|
      ensures ok <==> |old(buffer) + Join(chunks)| <= MAX_RESPONSE_BYTES
      ensures ok ==> written == |chunks|
      ensures buffer == old(buffer) + Join(chunks[..written]) <= old(buffer) + Join(chunks)
    {
      written := 0;
      for i := 0 to |chunks|
        invariant Valid() && written == i && buffer == old(buffer) + Join(chunks[..i])
      {
        JoinOfPrefix(chunks, i);
        JoinSplits(chunks, i);
        JoinSplits(chunks, i + 1);
        assert old(buffer) + (Join(chunks[..i]) + chunks[i]) == buffer + chunks[i];
        var taken := Write(chunks[i]);
        if !taken {
          return false, i;
        }
        written := i + 1;
      }
      assert chunks[..|chunks|] == chunks;
      ok := true;
    }
  }

  datatype Failure = Failure(kind: string, message: string)

  /** A member of an object in front of the rest of it. */
  function Member(name: string, rest: string): string {
    Quoted(name, ":" + rest)
  }

  const ERROR_CLOSE: string := "}," + Member("status", Quoted("error", "}"))

  function Message(message: string): string {
    Member("message", Quoted(message, ERROR_CLOSE))
  }

  /** Object keys are printed in order. */
  function ErrorObject(members: string): string {
    "{" + Member("error", "{" + members)
  }

  /** `error_response` */
  function ErrorResponse(failure: Failure): string {
    ErrorObject(Member("kind", Quoted(failure.kind, "," + Message(failure.message))))
  }

  const QUERY_LIMIT: Failure := Failure("query_limit", "Query exceeds the 64 KiB input limit.")

  function LimitMembers(message: string): string {
    Member("engine_query_succeeded", "true," + Member("kind", Quoted("response_limit", "," +
    Member("max_encoded_bytes", "8388608," + Message(message)))))
  }

  /** The refusal of a response that does not fit; its text does not depend on the output. */
  function LimitResponse(message: string): string {
    ErrorObject(LimitMembers(message))
  }

  /** `response` answers a query that the engine, if asked, answers with `result`. */
  ghost predicate Answers(
    p: Printers, query: string, result: Result<Output, Failure>, limitMessage: string, response: string)
  {
    && (|query| > MAX_QUERY_BYTES ==> response == ErrorResponse(QUERY_LIMIT))
    && (|query| <= MAX_QUERY_BYTES && result.Err? ==> response == ErrorResponse(result.error))
    && (|query| <= MAX_QUERY_BYTES && result.Ok? ==>
          var encoded := Response(p, result.value);
          response == if |encoded| <= MAX_RESPONSE_BYTES then encoded else LimitResponse(limitMessage))
  }

  /** `execute`: `result` is what the engine answers, `chunks` how the serializer cuts its encoding. */
  method Execute(p: Printers, query: string, result: Result<Output, Failure>, chunks: seq<string>, limitMessage: string)
    returns (response: string)
    requires result.Ok? ==> Join(chunks) == Response(p, result.value)
    ensures |query| > MAX_QUERY_BYTES ==> response == ErrorResponse(QUERY_LIMIT)
    ensures |query| <= MAX_QUERY_BYTES && result.Err? ==> response == ErrorResponse(result.error)
    ensures |query| <= MAX_QUERY_BYTES && result.Ok? && |Response(p, result.value)| <= MAX_RESPONSE_BYTES ==>
              response == Response(p, result.value)
    ensures |query| <= MAX_QUERY_BYTES && result.Ok? && |Response(p, result.value)| > MAX_RESPONSE_BYTES ==>
              response == LimitResponse(limitMessage)
    ensures Answers(p, query, result, limitMessage, response)
  {
    if |query| > MAX_QUERY_BYTES {
      return ErrorResponse(QUERY_LIMIT);
    }
    if result.Err? {
      return ErrorResponse(result.error);
    }
    var writer := new BoundedJson();
    var ok, written := writer.WriteAll(chunks);
    assert "" + Join(chunks) == Join(chunks);
    if !ok {
      return LimitResponse(limitMessage);
    }
    assert chunks[..|chunks|] == chunks;
    response := writer.buffer;
  }

  const SUCCESS_OPEN: string := "{\"status\":\"ok\""

  /** How a caller recognises a success. */
  predicate IsSuccess(response: string) {
    SUCCESS_OPEN <= response
  }

  lemma ErrorIsNoSuccess(members: string)
    ensures !IsSuccess(ErrorObject(members))
  {
    var rest := "\"" + (":" + ("{" + members));
    assert Escaped("error", rest) == ['e'] + Escaped("error"[1..], rest);
    assert ErrorObject(members)[2] == 'e' && SUCCESS_OPEN[2] == 's';
  }

  lemma FailureIsNoSuccess(failure: Failure)
    ensures !IsSuccess(ErrorResponse(failure))
  {
    ErrorIsNoSuccess(Member("kind", Quoted(failure.kind, "," + Message(failure.message))));
  }

  lemma ResponseIsSuccess(p: Printers, output: Output)
    ensures IsSuccess(Response(p, output))
  {
    PrefixOfConcat(SUCCESS_OPEN, "{\"status\":\"ok\",\"columns\":",
                   Names(output.columns, ",\"rows\":" + Rows(p, output.rows, "}")));
  }

  lemma PrefixOfConcat(start: string, a: string, b: string)
    requires start <= a
    ensures start <= a + b
  {
  }

  /**
    The caller can rely on what it sees: a success is the complete encoding of the
    engine's own answer, and everything else shows no row.
   */
  lemma SuccessIsComplete(
    p: Printers, query: string, result: Result<Output, Failure>, limitMessage: string, response: string)
    requires Answers(p, query, result, limitMessage, response)
    ensures IsSuccess(response) <==>
            |query| <= MAX_QUERY_BYTES && result.Ok? && |Response(p, result.value)| <= MAX_RESPONSE_BYTES
    ensures IsSuccess(response) ==> response == Response(p, result.value)
  {
    ErrorIsNoSuccess(LimitMembers(limitMessage));
    FailureIsNoSuccess(QUERY_LIMIT);
    match result {
      case Ok(output) => ResponseIsSuccess(p, output);
      case Err(failure) => FailureIsNoSuccess(failure);
    }
  }

  /** Two successful responses are equal only for equal outputs. */
  lemma SuccessDetermines(
    p: Printers, query: string, a: Result<Output, Failure>,
    query': string, b: Result<Output, Failure>, limitMessage: string, response: string)
    requires Faithful(p) && IsSuccess(response)
    requires Answers(p, query, a, limitMessage, response) && Answers(p, query', b, limitMessage, response)
    ensures a == b
  {
    SuccessIsComplete(p, query, a, limitMessage, response);
    SuccessIsComplete(p, query', b, limitMessage, response);
    ResponseDetermines(p, a.value, b.value);
  }

  lemma MemberCancels(name: string, a: string, b: string)
    requires Member(name, a) == Member(name, b)
    ensures a == b
  {
    QuotedCancels(name, ":" + a, name, ":" + b);
    PrefixCancels(":", a, b);
  }

  /** An error response determines the kind and the message of the failure. */
  lemma ErrorDetermines(a: Failure, b: Failure)
    requires ErrorResponse(a) == ErrorResponse(b)
    ensures a == b
  {
    var x, y := "," + Message(a.message), "," + Message(b.message);
    var kind, kind' := Member("kind", Quoted(a.kind, x)), Member("kind", Quoted(b.kind, y));
    PrefixCancels("{", Member("error", "{" + kind), Member("error", "{" + kind'));
    MemberCancels("error", "{" + kind, "{" + kind');
    PrefixCancels("{", kind, kind');
    MemberCancels("kind", Quoted(a.kind, x), Quoted(b.kind, y));
    QuotedCancels(a.kind, x, b.kind, y);
    PrefixCancels(",", Message(a.message), Message(b.message));
    MemberCancels("message", Quoted(a.message, ERROR_CLOSE), Quoted(b.message, ERROR_CLOSE));
    QuotedCancels(a.message, ERROR_CLOSE, b.message, ERROR_CLOSE);
  }

  /** Failures of two queries within the limit are told apart by their answers, and only they are. */
  lemma FailuresAreToldApart(
    p: Printers, query: string, a: Failure, query': string, b: Failure, limitMessage: string,
    response: string, response': string)
    requires |query| <= MAX_QUERY_BYTES && |query'| <= MAX_QUERY_BYTES
    requires Answers(p, query, Err(a), limitMessage, response)
    requires Answers(p, query', Err(b), limitMessage, response')
    ensures response == response' <==> a == b
  {
    if response == response' {
      ErrorDetermines(a, b);
    }
  }
}
