/** Responses as the handlers send them: a status code and a JSON body. */
module Http {
  import opened Wrappers

  datatype Body =
    | ErrorBody(error: string)
    | CreatedBody(id: string, url: string)
    | PasteBody(content: string, remainingViews: Option<int>, expiresAt: Option<int>)

  datatype Response = Response(status: int, body: Body)

  const InternalErrorMessage := "Internal Server Error"

  /** Any failure of the database call. */
  function InternalError(): Response {
    Response(500, ErrorBody(InternalErrorMessage))
  }
}
