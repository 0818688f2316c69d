/**
 * The uniform success/error envelope that every service operation returns
 * (`BaseResponse` and `BaseResponse<T>` in Models/Common/BaseResponse.cs).
 */
module Responses {
  import opened Wrappers

  /** `BaseResponse`: an outcome and a human-readable message, no payload. */
  datatype Response = Response(success: bool, message: string)

  /** `BaseResponse<T>`: an outcome, a message and a payload that is null unless set. */
  datatype Envelope<T> = Envelope(success: bool, message: string, data: Option<T>)

  const DefaultSuccessMessage: string := "Операция выполнена успешно"
  const DefaultErrorMessage: string := "Произошла ошибка"

  /** An envelope is consistent when it carries a payload exactly when it reports success. */
  predicate Consistent<T>(e: Envelope<T>) {
    e.success <==> e.data.Some?
  }

  /** `BaseResponse.SuccessResponse(message)`. */
  function SuccessResponse(message: string := DefaultSuccessMessage): (r: Response)
    ensures r.success && r.message == message
  {
    Response(true, message)
  }

  /** `BaseResponse.ErrorResponse(message)`. */
  function ErrorResponse(message: string := DefaultErrorMessage): (r: Response)
    ensures !r.success && r.message == message
  {
    Response(false, message)
  }

  /** `BaseResponse<T>.SuccessResponse(data, message)`. */
  function SuccessResponseOf<T>(data: T, message: string := DefaultSuccessMessage): (r: Envelope<T>)
    ensures r.success && r.message == message && r.data == Some(data)
    ensures Consistent(r)
  {
    Envelope(true, message, Some(data))
  }

  /** `BaseResponse<T>.ErrorResponse(message)`: `Data` is left at its default, null. */
  function ErrorResponseOf<T>(message: string := DefaultErrorMessage): (r: Envelope<T>)
    ensures !r.success && r.message == message && r.data == None
    ensures Consistent(r)
  {
    Envelope(false, message, None)
  }

  /** The two generic factories never produce the same envelope, and each is determined by its arguments. */
  lemma FactoriesDistinguishOutcome<T>(d: T, d': T, m: string, m': string)
    ensures SuccessResponseOf(d, m) != ErrorResponseOf<T>(m')
    ensures SuccessResponseOf(d, m) == SuccessResponseOf(d', m') <==> d == d' && m == m'
  {
  }
}
