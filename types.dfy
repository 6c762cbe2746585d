/**
 * The shared shapes: the session user kept in the cookie, the form-error record
 * and the `{success, data}` / `{success: false, error?, form?}` response envelope.
 */
module Types {
  import opened Wrappers
  import opened Schema
  import Zod

  /** The parts of a Next.js API request the handlers read: the HTTP method and the JSON body. */
  datatype Request = Request(httpMethod: string, body: Zod.Body)

  /** The field-level and form-level error texts shown next to a form. */
  datatype FormError = FormError(form: Option<string>, fields: Option<map<string, string>>)

  /**
   * The user stored in the session cookie. The declared type makes `tenantSlug`
   * and `plan` required, but the login handler stores a user without them, so
   * they are optional here.
   */
  datatype SessionUser = SessionUser(
    id: nat,
    email: string,
    role: Role,
    tenantId: nat,
    tenantSlug: Option<string>,
    plan: Option<Plan>)

  /** The `data` of a successful response. */
  datatype Data =
    | Message(text: string)
    | Profile(user: SessionUser)
    | NoteRows(rows: map<nat, Note>)

  datatype Envelope =
    | Success(data: Data)
    | Failure(error: Option<string>, form: Option<FormError>)

  /** A response body: nothing (`res.end()`), plain text, or a JSON envelope. */
  datatype Payload = NoBody | Text(text: string) | Json(envelope: Envelope)

  /** An HTTP response: status, the `Allow` header (empty when unset) and the body. */
  datatype Response = Response(status: int, allow: seq<string>, body: Payload)

  function Reply(status: int, body: Payload): Response {
    Response(status, [], body)
  }

  /** `res.status(status).json({ success: true, data })`. */
  function Succeed(status: int, data: Data): Response {
    Reply(status, Json(Success(data)))
  }

  /** `res.status(status).json({ success: false, error })`. */
  function Fail(status: int, error: string): Response {
    Reply(status, Json(Failure(Some(error), None)))
  }

  /** `res.status(400).json({ success: false, form })`. */
  function Rejected(form: FormError): Response {
    Reply(400, Json(Failure(None, Some(form))))
  }

  /** `res.status(405).end()`. */
  /** The 401 answer to a request that needs a session user and has none. */
  const Unauthorized := Fail(401, "Unauthorized")

  const MethodNotAllowed := Reply(405, NoBody)

  /** What Next.js answers when an API handler throws (here: the database refused a write). */
  const InternalError := Reply(500, Text("Internal Server Error"))
}
