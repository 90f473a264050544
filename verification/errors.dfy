/** What a failed request looks like to the view-controller, and `handleError`,
    which turns it into the one message the component displays. */
module Errors {
  import opened Wrappers

  /** The server's answer to a failed request: `err.response.status` and
      `err.response.data.message`. */
  datatype ErrorResponse = ErrorResponse(status: nat, serverMessage: string)

  /** A rejected request: the server's response when one arrived, whether the
      request went out (`err.request`), and the exception's own `err.message`. */
  datatype HttpError = HttpError(response: Option<ErrorResponse>, requestSent: bool, message: string)

  /** The outcome of one call to the remote API, given to the handler instead of
      performing the call. */
  datatype Reply<+T> = Success(data: T) | Failure(err: HttpError)

  /** The three kinds of message `handleError` can record. */
  datatype ErrorMessage =
    | StatusError(status: nat, serverMessage: string)
    | NetworkError
    | ClientError(message: string)

  /** The fixed connectivity text (written as two literals so the verifier can read
      its first character). */
  const NetworkErrorText: string := "Network error: " + "No response received from server."

  /** `handleError`'s branch selection: a response wins over a sent request, which
      wins over the exception's own message. */
  function Classify(err: HttpError): (m: ErrorMessage)
    ensures m.StatusError? <==> err.response.Some?
    ensures m.NetworkError? <==> err.response.None? && err.requestSent
    ensures m.ClientError? <==> err.response.None? && !err.requestSent
    ensures m.StatusError? ==>
      m.status == err.response.value.status && m.serverMessage == err.response.value.serverMessage
    ensures m.ClientError? ==> m.message == err.message
  {
    if err.response.Some? then StatusError(err.response.value.status, err.response.value.serverMessage)
    else if err.requestSent then NetworkError
    else ClientError(err.message)
  }

  /** The displayed text of a message. It is never empty, so a recorded error is
      always truthy for `if (error)`, and only the connectivity branch produces the
      fixed network text. */
  function Text(m: ErrorMessage): (t: string)
    ensures |t| > 0
    ensures t == NetworkErrorText <==> m.NetworkError?
  {
    match m
    case StatusError(status, serverMessage) =>
      var t := "Error: " + Decimal(status) + " - " + serverMessage;
      assert t[0] == 'E' && NetworkErrorText[0] == 'N';
      t
    case NetworkError => NetworkErrorText
    case ClientError(message) =>
      var t := "Error: " + message;
      assert t[0] == 'E' && NetworkErrorText[0] == 'N';
      t
  }

  // ---- decimal rendering of the status code in a template literal ----

  predicate IsDigit(c: char) {
    '0' <= c <= '9'
  }

  /** The value of a string of decimal digits. */
  function DecimalValue(s: string): nat
    requires forall i :: 0 <= i < |s| ==> IsDigit(s[i])
  {
    if s == [] then 0
    else
      var d := s[|s| - 1] as int - '0' as int;
      assert IsDigit(s[|s| - 1]);
      DecimalValue(s[..|s| - 1]) * 10 + d
  }

  /** `${n}` for a non-negative integer: its decimal digits, without leading zeros. */
  function Decimal(n: nat): (s: string)
    ensures |s| > 0
    ensures forall i :: 0 <= i < |s| ==> IsDigit(s[i])
    ensures |s| > 1 ==> s[0] != '0'
  {
    var last := ('0' as int + n % 10) as char;
    if n < 10 then [last] else Decimal(n / 10) + [last]
  }

  /** Reading the rendered digits back gives the status code. */
  lemma {:induction false} DecimalRoundTrip(n: nat)
    ensures DecimalValue(Decimal(n)) == n
  {
    var s := Decimal(n);
    if n >= 10 {
      DecimalRoundTrip(n / 10);
      assert s[..|s| - 1] == Decimal(n / 10);
    }
  }
}
