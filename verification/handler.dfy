/** The request handler's decision, with its effects turned into inputs: the
    parsed request body, the configured API key, and what the completion
    service answered. The result is the response the handler returns.
 */
module MergeHandler {
  import opened JsString
  import Fallback

  /** The request body after `req.json()` and destructuring: `Unparsable` when
      `req.json()` throws or the body is JSON `null` (destructuring `null`
      throws); otherwise the two notes, each missing when the body lacks it
      (a JSON string, number or array body gives two missing notes). */
  datatype Request = Unparsable | Body(idea1: Value, idea2: Value)

  /** What the completion call produced. `Unreachable`: the request was
      rejected (no connection); `Unreadable`: the reply body is not JSON, or is
      `null`; `Completion`: a JSON reply whose first choice's message content
      is `content` (absent when `choices`, the first choice, its message or
      the content itself is missing, whatever the HTTP status). */
  datatype ProviderReply = Unreachable | Unreadable | Completion(content: Value)

  /** A 200 response carrying the merged text, or the catch-all 500 response. */
  datatype Response = Ok(merged: string) | ServerError

  const StatusOk: nat := 200
  const StatusServerError: nat := 500

  /** The HTTP status of a response (helper for `HandleStatus`). */
  function Status(resp: Response): (code: nat)
    ensures code == StatusOk || code == StatusServerError
  {
    match resp
    case Ok(_) => StatusOk
    case ServerError => StatusServerError
  }

  /** Whether the handler consults the completion service at all: only when
      the body parsed and the API key is set to a non-empty value. */
  predicate CallsProvider(req: Request, apiKey: Value) {
    req.Body? && Truthy(apiKey)
  }

  /** The handler. Without a key the fallback answers; with one, non-empty
      content is trimmed and returned, missing or empty content falls back,
      and a failed call or unreadable reply ends in the 500 path. */
  function Handle(req: Request, apiKey: Value, reply: ProviderReply): (resp: Response)
    ensures resp.ServerError? <==> req.Unparsable? || (CallsProvider(req, apiKey) && !reply.Completion?)
    ensures resp.Ok? && resp.merged == [] ==> CallsProvider(req, apiKey) && reply.Completion?
  {
    match req
    case Unparsable => ServerError
    case Body(idea1, idea2) =>
      if !Truthy(apiKey) then Ok(Fallback.SynthesizeFallback(idea1, idea2))
      else
        match reply
        case Unreachable => ServerError
        case Unreadable => ServerError
        case Completion(content) =>
          if Truthy(content) then Ok(Trim(content.s))
          else Ok(Fallback.SynthesizeFallback(idea1, idea2))
  }

  /** Without a usable key the service is never consulted: the fallback's
      text comes back whatever the service would have said. */
  lemma HandleWithoutKey(idea1: Value, idea2: Value, apiKey: Value, reply: ProviderReply)
    requires !Truthy(apiKey)
    ensures Handle(Body(idea1, idea2), apiKey, reply) == Ok(Fallback.SynthesizeFallback(idea1, idea2))
    ensures forall other :: Handle(Body(idea1, idea2), apiKey, reply) == Handle(Body(idea1, idea2), apiKey, other)
  {
  }

  /** With a key and non-empty content, the content trimmed is the answer and
      the fallback plays no part; it is empty exactly when the content is all
      whitespace. */
  lemma HandleWithContent(idea1: Value, idea2: Value, apiKey: Value, content: string)
    requires Truthy(apiKey) && content != ""
    ensures var resp := Handle(Body(idea1, idea2), apiKey, Completion(Str(content)));
            && resp.Ok?
            && IsTrimOf(content, resp.merged)
            && (forall a, b :: resp == Handle(Body(a, b), apiKey, Completion(Str(content))))
            && (resp.merged == [] <==> forall k :: 0 <= k < |content| ==> IsWs(content[k]))
  {
    TrimEmptyIffAllWs(content);
  }

  /** With a key but missing or empty content, the fallback answers. */
  lemma HandleWithoutContent(idea1: Value, idea2: Value, apiKey: Value, content: Value)
    requires Truthy(apiKey) && !Truthy(content)
    ensures Handle(Body(idea1, idea2), apiKey, Completion(content)) == Ok(Fallback.SynthesizeFallback(idea1, idea2))
  {
  }

  /** An empty merged text is possible, but only from whitespace-only content
      sent back by the service; every other 200 response carries text. */
  lemma HandleEmptyMerged(req: Request, apiKey: Value, reply: ProviderReply)
    ensures var resp := Handle(req, apiKey, reply);
            resp == Ok([]) <==>
              && CallsProvider(req, apiKey)
              && reply.Completion? && Truthy(reply.content)
              && (forall k :: 0 <= k < |reply.content.s| ==> IsWs(reply.content.s[k]))
  {
    if CallsProvider(req, apiKey) && reply.Completion? && Truthy(reply.content) {
      TrimEmptyIffAllWs(reply.content.s);
    }
  }

  /** A request whose body does not parse is answered with status 500 whatever
      the configuration; a parsed one gets 500 only from a failed call. */
  lemma HandleStatus(req: Request, apiKey: Value, reply: ProviderReply)
    ensures req.Unparsable? ==> Status(Handle(req, apiKey, reply)) == StatusServerError
    ensures req.Body? && !Truthy(apiKey) ==> Status(Handle(req, apiKey, reply)) == StatusOk
    ensures req.Body? && reply.Completion? ==> Status(Handle(req, apiKey, reply)) == StatusOk
  {
  }
}
