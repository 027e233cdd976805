/** The JSON responses the route handlers return (`NextResponse.json(body, { status })`). */
module Http {

  import opened Drafts

  datatype Payload =
    | ErrorBody(error: string)       // { error }
    | DraftBody(draft: Draft)        // { draft: row }
    | AnalysisBody(analysis: string) // { analysis }

  datatype Response = Response(status: int, payload: Payload)

  const InternalError := "Internal error"
}
