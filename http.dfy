/** The HTTP status codes the views answer with. */
module Http {
  const OK: int := 200
  const CREATED: int := 201
  const BAD_REQUEST: int := 400
  const NOT_FOUND: int := 404
  const SERVER_ERROR: int := 500
  const SERVICE_UNAVAILABLE: int := 503
}
