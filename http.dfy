/** The HTTP status codes the handlers answer with. */
module Http {
  const Ok200 := 200
  const Created201 := 201
  const BadRequest400 := 400
  const Unauthorized401 := 401
  const NotFound404 := 404
  const Conflict409 := 409
  const Locked423 := 423
  const ServerError500 := 500
}
