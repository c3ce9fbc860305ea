/**
 * The DNS provider client, reduced to what it decides: when a list exchange yields the
 * records and when an update exchange counts as done. Building the URL, the bearer
 * header, the HTTP exchange and the JSON coding are outside the model; their outcomes
 * arrive here as values.
 */
module Provider {
  import opened Wrappers
  import opened Records

  /** Why a provider call failed. */
  datatype ProviderError =
    | RequestNotBuilt(cause: string)
    | TransportFailed(cause: string)
    | Undecodable(cause: string)
    | Rejected(messages: seq<string>)
    | NotMarshalled(cause: string)

  /**
   * The decoded body of a list response. A field absent from the JSON keeps its zero
   * value: no records, `success` false, no error messages.
   */
  datatype ListBody = ListBody(result: seq<RecordResponse>, success: bool, errors: seq<string>)

  /** What one list exchange gives back, up to decoding. */
  datatype ListReply =
    | ListRequestFailed(cause: string)
    | ListTransportFailed(cause: string)
    | ListDecodeFailed(cause: string)
    | ListDecoded(body: ListBody)

  /**
   * What one update exchange gives back. `Answered` is any completed HTTP exchange,
   * whatever its status code and whatever its body says about success.
   */
  datatype UpdateReply =
    | MarshalFailed(cause: string)
    | UpdateRequestFailed(cause: string)
    | UpdateTransportFailed(cause: string)
    | Answered(statusCode: int, success: bool, errors: seq<string>)

  /** Listing: the records only when the body decoded and the provider reported success. */
  function AcceptList(reply: ListReply): (r: Result<seq<RecordResponse>, ProviderError>)
    ensures r.Success? <==> reply.ListDecoded? && reply.body.success
    ensures r.Success? ==> r.value == reply.body.result
    ensures reply.ListDecoded? && !reply.body.success ==> r == Failure(Rejected(reply.body.errors))
    ensures reply.ListDecodeFailed? ==> r == Failure(Undecodable(reply.cause))
    ensures reply.ListTransportFailed? ==> r == Failure(TransportFailed(reply.cause))
    ensures reply.ListRequestFailed? ==> r == Failure(RequestNotBuilt(reply.cause))
  {
    match reply
    case ListRequestFailed(cause) => Failure(RequestNotBuilt(cause))
    case ListTransportFailed(cause) => Failure(TransportFailed(cause))
    case ListDecodeFailed(cause) => Failure(Undecodable(cause))
    case ListDecoded(body) =>
      if !body.success then Failure(Rejected(body.errors)) else Success(body.result)
  }

  /** Updating: any completed exchange is a success; the response is never read. */
  function AcceptUpdate(reply: UpdateReply): (r: Result<(), ProviderError>)
    ensures r.Success? <==> reply.Answered?
    ensures reply.MarshalFailed? ==> r == Failure(NotMarshalled(reply.cause))
    ensures reply.UpdateRequestFailed? ==> r == Failure(RequestNotBuilt(reply.cause))
    ensures reply.UpdateTransportFailed? ==> r == Failure(TransportFailed(reply.cause))
  {
    match reply
    case MarshalFailed(cause) => Failure(NotMarshalled(cause))
    case UpdateRequestFailed(cause) => Failure(RequestNotBuilt(cause))
    case UpdateTransportFailed(cause) => Failure(TransportFailed(cause))
    case Answered(_, _, _) => Success(())
  }

  /**
   * The two operations judge the same provider verdict differently: a body saying
   * `success: false` fails a listing with the provider's messages, while an update
   * answered with that body, under any status code, counts as done.
   */
  lemma SuccessFlagReadOnlyByList(statusCode: int, records: seq<RecordResponse>, errors: seq<string>)
    ensures AcceptList(ListDecoded(ListBody(records, false, errors))) == Failure(Rejected(errors))
    ensures AcceptUpdate(Answered(statusCode, false, errors)) == Success(())
  {
  }
}
