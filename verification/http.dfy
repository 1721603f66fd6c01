/**
 * What a route handler hands back to Flask: a status code and a body. The
 * body is a JSON object or array, or an exception that escaped the handler,
 * which Flask turns into its own 500 page.
 */
module Http {
  import opened Json

  datatype Body =
    | Object(members: Payload)
    | Array(elements: seq<Payload>)
    | Unhandled(exception: string)

  datatype Response = Response(status: int, body: Body)

  /** `jsonify({key: message}), status` */
  function Message(status: int, key: string, message: string): Response {
    Response(status, Object([(key, JString(message))]))
  }

  /** An exception the handler does not catch. */
  function Raised(exception: string): Response {
    Response(500, Unhandled(exception))
  }
}
