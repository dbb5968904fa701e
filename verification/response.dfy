/** The JSON envelope every management and analytics endpoint answers with
    (backend/src/utils/response.js). */
module Response {
  import opened Common

  /** An HTTP reply: status code and the body `{success, message, data}`;
      `data` is `None` when the body carries no `data` key. */
  datatype Envelope<+D> = Envelope(status: int, success: bool, message: string, data: Option<D>)

  const DefaultSuccessMessage := "OK"
  const DefaultErrorMessage := "Something went wrong"
  const DefaultErrorCode := 400

  /** `success(res, data, message = "OK")`; an absent message takes the default. */
  function Success<D>(data: D, message: Option<string>): (r: Envelope<D>)
    ensures r.status == 200 && r.success
    ensures r.data == Some(data)
    ensures message.None? ==> r.message == DefaultSuccessMessage
    ensures message.Some? ==> r.message == message.value
  {
    Envelope(200, true, message.GetOr(DefaultSuccessMessage), Some(data))
  }

  /** `error(res, message = "Something went wrong", code = 400)`. */
  function Error<D>(message: Option<string>, code: Option<int>): (r: Envelope<D>)
    ensures !r.success && r.data.None?
    ensures code.None? ==> r.status == DefaultErrorCode
    ensures code.Some? ==> r.status == code.value
    ensures message.None? ==> r.message == DefaultErrorMessage
    ensures message.Some? ==> r.message == message.value
  {
    Envelope(code.GetOr(DefaultErrorCode), false, message.GetOr(DefaultErrorMessage), None)
  }

  /** The way every controller calls `error`: with both a message and a code. */
  function Fail<D>(message: string, code: int): Envelope<D> {
    Error(Some(message), Some(code))
  }

  /** An envelope whose `success` flag agrees with a 200 status. */
  predicate Consistent<D>(r: Envelope<D>) {
    r.success <==> r.status == 200
  }

  /** Replies built by `success`, or by `error` with a code other than 200,
      report success exactly when the status is 200; errors never carry data. */
  lemma EnvelopesConsistent<D>(data: D, message: Option<string>, code: Option<int>)
    requires code != Some(200)
    ensures Consistent(Success(data, message))
    ensures Consistent(Error<D>(message, code)) && Error<D>(message, code).data.None?
  {
  }
}
