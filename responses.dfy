/**
 * How the transport layer reports a service result: a status code and a JSON
 * body holding either a `message` (success) or a `detail` (error).
 */
module Responses {
  import opened Enrollment

  datatype Body = Message(message: string) | Detail(detail: string)

  datatype Response = Response(status: int, body: Body)

  /** The status code of a result: an unknown activity is "not found", the other errors "bad request". */
  function Status(r: Result): int {
    match r
    case Ok(_) => 200
    case Err(ActivityNotFound) => 404
    case Err(_) => 400
  }

  /** The `detail` text of each error. */
  function DetailText(e: Error): string {
    match e
    case ActivityNotFound => "Activity not found"
    case AlreadyRegistered => "Student already signed up for this activity"
    case NotRegistered => "Student not signed up for this activity"
  }

  /** The response for a result. */
  function Respond(r: Result): (resp: Response)
    ensures resp.status == 200 <==> r.Ok?
    ensures resp.status == 404 <==> r == Err(ActivityNotFound)
    ensures resp.status == 400 <==> r == Err(AlreadyRegistered) || r == Err(NotRegistered)
    ensures resp.body.Message? <==> r.Ok?
    ensures r.Ok? ==> resp.body.message == r.message
  {
    match r
    case Ok(m) => Response(Status(r), Message(m))
    case Err(e) => Response(Status(r), Detail(DetailText(e)))
  }

  /** Distinct results give distinct responses: a client can tell every outcome apart. */
  lemma RespondInjective(a: Result, b: Result)
    requires Respond(a) == Respond(b)
    ensures a == b
  {
  }
}
