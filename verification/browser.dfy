/** Values, request descriptions and effects shared by every screen.

    The screens talk to the backend and to the media host through axios and
    read the session from browser storage. Here a storage read is an
    `Option<string>`, an HTTP exchange is an `Outcome` given as an input, and
    everything a handler does to the outside world (a request, a navigation,
    an alert) is returned as an `Effect`, in the order it happens. */
module Browser {

  /** `null`/`undefined` versus a present value. */
  datatype Option<+T> = None | Some(value: T)

  /** JavaScript truthiness of an optional string: present and non-empty. */
  predicate Truthy(s: Option<string>) {
    s.Some? && s.value != ""
  }

  /** `s || fallback` for an optional string. */
  function OrElse(s: Option<string>, fallback: string): string {
    if Truthy(s) then s.value else fallback
  }

  /** What an axios rejection exposes to the handlers: `err.response?.status`,
      `err.response?.data?.error` and `err.message`. A rejection without a
      response (network failure, or an `Error` thrown by the handler itself)
      has no status and no server error. */
  datatype HttpFailure = HttpFailure(status: Option<int>, serverError: Option<string>, message: string)

  /** The settled result of one awaited request: the data the handler reads
      from the response, or the failure it catches. */
  datatype Outcome<+T> = Ok(data: T) | Failed(failure: HttpFailure)

  datatype Method = Get | Post | Delete

  /** A file as the browser's file input reports it. */
  datatype File = File(name: string, mimeType: string)

  /** One field of a request body: a string or a file. */
  datatype Value = Text(text: string) | Attachment(file: File)

  /** A request as the handler issues it. `url` is the path after the backend
      origin (or the full media-host URL); `authorization` is the value of the
      Authorization header, when the handler sends one; `body` lists the body
      fields in the order the handler writes them. */
  datatype Request = Request(verb: Method, url: string, authorization: Option<string>, body: seq<(string, Value)>)

  datatype Effect =
    | Send(request: Request)
    | Navigate(path: string)
    | Alert(text: string)

  /** The new state of a screen together with the effects that produced it. */
  datatype Step<+S> = Step(state: S, effects: seq<Effect>)

  /** Regrouping a concatenation of three strings. */
  lemma Regroup(a: string, b: string, t: string)
    ensures (a + b) + t == a + (b + t)
  {
  }

  /** No request was issued. */
  predicate NoRequest(effects: seq<Effect>) {
    forall i :: 0 <= i < |effects| ==> !effects[i].Send?
  }

  /** No effect opens the login page. */
  predicate NoLoginRedirect(effects: seq<Effect>) {
    forall i :: 0 <= i < |effects| ==> effects[i] != Navigate("/login")
  }

  /** `Bearer ${token}`: a missing token is interpolated as the text "null". */
  function Bearer(token: Option<string>): string {
    "Bearer " + (if token.Some? then token.value else "null")
  }

  /** A request carrying the session token, as every backend call here does. */
  function Authorized(verb: Method, url: string, token: Option<string>, body: seq<(string, Value)>): Request {
    Request(verb, url, Some(Bearer(token)), body)
  }

  /** `localStorage.getItem('userRole') === 'admin'`. */
  predicate IsAdmin(role: Option<string>) {
    role == Some("admin")
  }
}
