/** The error-handling middleware: turns a thrown error into the status and the `msg` of the reply. */
module ErrorHandler {
  import opened Common
  import opened Errors
  import opened Strings

  const DefaultMessage := "Something went wrong , try again later"
  const InternalServerError: Status := 500

  /** The HTTP reply: its status and its `{ msg }` body. */
  datatype Response = Response(statusCode: Status, msg: string)

  /** `err.statusCode || INTERNAL_SERVER_ERROR`. */
  function StatusOf(err: ApiError): (s: Status)
    ensures 400 <= s <= 500
    ensures err.StatusCode().Some? ==> s == err.StatusCode().value
    ensures err.Unexpected? ==> s == InternalServerError
  {
    match err.StatusCode()
    case Some(code) => if code != 0 then code else InternalServerError
    case None => InternalServerError
  }

  /** `(m.includes(":") ? m.split(":")[2] : m) || default`: a message holding a colon is replaced
      by its third colon-separated piece; a missing or empty result falls back to the default. */
  function NormalisedMessage(m: string): (r: string)
    ensures r != ""
    ensures ':' !in r
    ensures ':' !in m ==> r == (if m == "" then DefaultMessage else m)
    ensures ':' in m ==> r == DefaultMessage || (|Split(m, ':')| >= 3 && r == Split(m, ':')[2])
  {
    DefaultColonFree();
    if ':' in m then
      var parts := Split(m, ':');
      if |parts| >= 3 && parts[2] != "" then parts[2] else DefaultMessage
    else if m != "" then m
    else DefaultMessage
  }

  /** The default text has no colon, so it survives normalisation. */
  lemma DefaultColonFree()
    ensures forall i :: 0 <= i < |DefaultMessage| ==> DefaultMessage[i] != ':'
  {
  }

  /** A message made of colon-free pieces is answered with its third piece when that exists and
      is not empty, and with the default otherwise (in particular, with exactly one colon). */
  lemma {:induction false} PiecesOfMessage(parts: seq<string>)
    requires |parts| >= 2
    requires forall i :: 0 <= i < |parts| ==> ':' !in parts[i]
    ensures NormalisedMessage(Join(parts, ':')) ==
      (if |parts| >= 3 && parts[2] != "" then parts[2] else DefaultMessage)
  {
    SplitJoin(parts, ':');
    var m := Join(parts, ':');
    assert m == parts[0] + [':'] + Join(parts[1..], ':');
    assert m[|parts[0]|] == ':';
  }

  /** Normalising twice changes nothing more. */
  lemma NormaliseIdempotent(m: string)
    ensures NormalisedMessage(NormalisedMessage(m)) == NormalisedMessage(m)
  {
  }

  /** `errorHandlerMiddleware`. */
  function Handle(err: ApiError): (resp: Response)
    ensures 400 <= resp.statusCode <= 500
    ensures resp.msg != "" && ':' !in resp.msg
    ensures (':' !in err.Message() && err.Message() != "") ==> resp.msg == err.Message()
  {
    Response(StatusOf(err), NormalisedMessage(err.Message()))
  }
}
