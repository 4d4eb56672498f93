/** The Response value of internal/manager/execute.go: a body and an optional
    error text, with its three constructors. */
module Responses {
  import opened Wrappers

  datatype Response = Response(Data: string, Err: Option<string>)

  /** NewResponse: no body, no error. */
  function NewResponse(): (r: Response)
    ensures r.Data == "" && r.Err.None?
  {
    Response("", None)
  }

  /** NewResponseWithBody: the given body, no error. */
  function NewResponseWithBody(data: string): (r: Response)
    ensures r.Data == data && r.Err.None?
  {
    Response(data, None)
  }

  /** BadRequest: no body, the given error. */
  function BadRequest(err: string): (r: Response)
    ensures r.Data == "" && r.Err == Some(err)
  {
    Response("", Some(err))
  }

  /** A response has content iff its body is not empty. */
  predicate HasContent(r: Response)
  {
    r.Data != ""
  }

  /** Only a non-empty body gives content: an empty response and a bad
      request never have any, whatever the error. */
  lemma ContentOnlyFromBody(data: string, err: string)
    ensures HasContent(NewResponseWithBody(data)) <==> data != ""
    ensures !HasContent(NewResponse()) && !HasContent(BadRequest(err))
    ensures NewResponseWithBody("") == NewResponse()
  {
  }
}
