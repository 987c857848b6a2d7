/** The management API as the report engine sees it: each request body it posts either
    fails (the `fetch` rejects, and the caller's `catch` takes over) or yields the decoded
    response. A reply that is not JSON decodes to `{ raw: text }`, which is just another value.
    The API is a fixed function of the request for the duration of one report. */
module Remote {
  import opened JsValue

  datatype Call =
    | ListPackages(subscriberId: Value)                          // listSubscriberPrepaidPackages
    | SingleSubscriber(iccid: Value)                             // getSingleSubscriber
    | UsageOverPeriod(subscriberId: Value, start: string, end: string)  // subscriberUsageOverPeriod

  datatype Outcome = Fail | Ok(json: Value)

  type Api = Call -> Outcome
}
