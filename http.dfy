/** What the `fetch` collaborator can hand back. The network itself is not
    modelled: callers receive the outcome for the URL they ask for as a
    function parameter. */
module Http {
  import opened Types

  /** A response that arrived; its body is the parsed JSON, trusted as the
      source trusts it. */
  datatype Response = Response(status: nat, statusText: string, body: BestBuyResponse)
  {
    /** `response.ok`: a status in the range 200 to 299. */
    predicate Ok()
    {
      200 <= status <= 299
    }
  }

  /** `fetch` either rejects (an error with a message) or resolves. */
  datatype FetchOutcome = NetworkFailure(message: string) | Received(response: Response)

  /** What `fetch` would answer for each URL. */
  type Server = string -> FetchOutcome
}
