/** The client's error formatting: an HTTP client error is turned into the
    one message the components show. */
module ApiService {
  import opened Common

  /** `error.response.data`: only its `msg` field is consulted. */
  datatype ResponseData = ResponseData(msg: Option<string>)

  /** `error.response`: the status code and the (possibly absent) body. */
  datatype HttpResponse = HttpResponse(status: int, data: Option<ResponseData>)

  /** The shape of a rejected request: a response if the server answered, a
      flag for a request that was sent, and the error's own message. */
  datatype RequestError = RequestError(response: Option<HttpResponse>, request: bool, message: string)

  const NoResponseMessage := "No response from server. Please check your connection."

  /** A JavaScript string is truthy when it is not empty. */
  predicate Truthy(s: Option<string>) {
    s.Some? && s.value != ""
  }

  function ServerErrorMessage(status: int): string {
    "Server error: " + IntToString(status)
  }

  /** `formatError` */
  function FormatError(e: RequestError): (m: string)
    ensures e.response.Some? && e.response.value.data.Some? && Truthy(e.response.value.data.value.msg)
            ==> m == e.response.value.data.value.msg.value
    ensures e.response.Some? && !(e.response.value.data.Some? && Truthy(e.response.value.data.value.msg))
            ==> m == ServerErrorMessage(e.response.value.status)
    ensures e.response.None? && e.request ==> m == NoResponseMessage
    ensures e.response.None? && !e.request ==> m == e.message
  {
    if e.response.Some? then
      var r := e.response.value;
      if r.data.Some? && Truthy(r.data.value.msg) then r.data.value.msg.value
      else ServerErrorMessage(r.status)
    else if e.request then NoResponseMessage
    else e.message
  }

  /** A present response always decides the message, whatever the request
      flag and the error's own message say. */
  lemma ResponseTakesPrecedence(e: RequestError, request: bool, message: string)
    requires e.response.Some?
    ensures FormatError(e) == FormatError(RequestError(e.response, request, message))
  {
  }
}
