/**
 * The `POST /api/contact` handler of the Express server (server.js:14-55):
 * a stateless classifier from the request body to a response.
 *
 * The body is optional: when no JSON body was parsed, `req.body` is
 * undefined, destructuring it throws inside the `try`, and the handler
 * answers with the generic 500. The body's fields are JSON values that may
 * be missing; they are modelled as optional strings. The only other failure
 * the handler can meet after validation is in the logging step, which is
 * given as the input `logFails`.
 */
module ContactEndpoint {
  import opened Wrappers
  import opened EmailPattern

  datatype ContactRequest = ContactRequest(
    name: Option<string>,
    email: Option<string>,
    subject: Option<string>,
    message: Option<string>)
  {
    /** The four fields in the order the handler tests them. */
    function Fields(): seq<Option<string>> {
      [name, email, subject, message]
    }
  }

  /** The HTTP status and the JSON body `{ success, message }`. */
  datatype Response = Response(status: int, success: bool, message: string)

  const MissingFields := "All fields are required"
  const InvalidEmail := "Invalid email format"
  const Acknowledged := "Thank you for your message! I'll get back to you soon."
  const ProcessingFailed := "Failed to process message. Please try again later."

  /**
   * JavaScript truthiness of a string field: only `undefined` and "" are
   * falsy; no trimming.
   */
  function Truthy(f: Option<string>): (b: bool)
    ensures b <==> f != None && f != Some("")
  {
    f.Some? && f.value != ""
  }

  /** `name && email && subject && message`: every field is truthy. */
  function AllPresent(req: ContactRequest): (b: bool)
    ensures b <==> forall k :: 0 <= k < |req.Fields()| ==> Truthy(req.Fields()[k])
    ensures b ==> req.email.Some? && |req.email.value| > 0
  {
    var fs := req.Fields();
    assert fs[0] == req.name && fs[1] == req.email && fs[2] == req.subject && fs[3] == req.message;
    Truthy(req.name) && Truthy(req.email) && Truthy(req.subject) && Truthy(req.message)
  }

  /**
   * The handler: a missing body fails in the `try`; then presence, then the
   * email pattern, then the acknowledgement (status 200, Express's default)
   * unless logging fails.
   */
  function HandleContact(body: Option<ContactRequest>, logFails: bool): (r: Response)
    ensures r.success <==> r.status == 200
    ensures body == None ==> r == Response(500, false, ProcessingFailed)
    ensures body.Some? && !AllPresent(body.value) ==> r == Response(400, false, MissingFields)
    ensures body.Some? && AllPresent(body.value) && !MatchesPattern(body.value.email.value) ==>
      r == Response(400, false, InvalidEmail)
    ensures body.Some? && AllPresent(body.value) && MatchesPattern(body.value.email.value) ==>
      r == if logFails then Response(500, false, ProcessingFailed) else Response(200, true, Acknowledged)
  {
    match body
    case None => Response(500, false, ProcessingFailed)
    case Some(req) =>
      if !Truthy(req.name) || !Truthy(req.email) || !Truthy(req.subject) || !Truthy(req.message) then
        Response(400, false, MissingFields)
      else if !IsValidEmail(req.email.value) then
        Response(400, false, InvalidEmail)
      else if logFails then
        Response(500, false, ProcessingFailed)
      else
        Response(200, true, Acknowledged)
  }

  /** Every response is one of the four the handler can send. */
  lemma ResponsesAreKnown(body: Option<ContactRequest>, logFails: bool)
    ensures HandleContact(body, logFails) in {
      Response(400, false, MissingFields),
      Response(400, false, InvalidEmail),
      Response(200, true, Acknowledged),
      Response(500, false, ProcessingFailed) }
  {
  }

  /**
   * Presence is checked before format: a missing field wins over a malformed
   * email.
   */
  lemma PresenceBeforeFormat(req: ContactRequest, logFails: bool)
    requires !AllPresent(req)
    requires req.email.Some? && !MatchesPattern(req.email.value)
    ensures HandleContact(Some(req), logFails).message == MissingFields
  {
  }

  /** No trimming: "0" and " " are present, "" is not. */
  lemma PresenceWithoutTrimming()
    ensures Truthy(Some("0")) && Truthy(Some(" "))
    ensures !Truthy(Some("")) && !Truthy(None)
  {
  }

  /** The well-formed payload of the contact form is acknowledged. */
  lemma AcknowledgesWellFormedPayload()
    ensures HandleContact(Some(
      ContactRequest(Some("Ada"), Some("ada@example.com"), Some("Hi"), Some("Hello there"))), false)
      == Response(200, true, Acknowledged)
  {
    AcceptedExamples();
  }

  /** Malformed addresses are refused with the format message. */
  lemma RefusesMalformedEmail(email: string)
    requires email in ["not-an-email", "a@b", "a@b.c ", "a@.b", "a@b."]
    ensures HandleContact(Some(ContactRequest(Some("Ada"), Some(email), Some("Hi"), Some("Hello"))), false)
      == Response(400, false, InvalidEmail)
  {
    RejectedExamples();
  }
}
