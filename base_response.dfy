/**
 * The response envelope of every API: a status flag derived from the code,
 * the code, a message and optional data, and the factory that fills it
 * from the result-code tables.
 */
module BaseResponse {

  import opened Wrappers
  import ResultCode

  /** `data` is `None` where the Java field stays null. */
  datatype BaseResponse<T> = BaseResponse(status: bool, code: string, message: string, data: Option<T>)

  /** `new BaseResponse(code, message)`: no data. */
  function Of<T>(code: string, message: string): (r: BaseResponse<T>)
    ensures r.status <==> ResultCode.IsSuccess(code)
    ensures r.code == code && r.message == message && r.data.None?
  {
    BaseResponse(ResultCode.IsSuccess(code), code, message, None)
  }

  /** `new BaseResponse(code, message, data)`. */
  function WithData<T>(code: string, message: string, data: Option<T>): (r: BaseResponse<T>)
    ensures r.status <==> ResultCode.IsSuccess(code)
    ensures r.code == code && r.message == message && r.data == data
  {
    BaseResponse(ResultCode.IsSuccess(code), code, message, data)
  }

  /** The message `createDetail` builds: the entry's message with the detail in parentheses ("null" for a null detail). */
  function DetailMessage(e: ResultCode.Error, detail: Option<string>): string
  {
    e.Message() + "(" + detail.GetOr("null") + ")"
  }

  /** `create(data)`: an OK response carrying the data. */
  function Create<T>(data: Option<T>): (r: BaseResponse<T>)
    ensures r.status && r.code == "SUC-000" && r.message == "Success." && r.data == data
  {
    ResultCode.SuccessCodesSucceed(ResultCode.Success.OK);
    WithData(ResultCode.Success.OK.Code(), ResultCode.Success.OK.Message(), data)
  }

  /** `create(successEnum)`. */
  function CreateSuccess<T>(s: ResultCode.Success): (r: BaseResponse<T>)
    ensures r.status && r.code == s.Code() && r.message == s.Message() && r.data.None?
  {
    ResultCode.SuccessCodesSucceed(s);
    Of(s.Code(), s.Message())
  }

  /** `create(successEnum, data)`. */
  function CreateSuccessWith<T>(s: ResultCode.Success, data: Option<T>): (r: BaseResponse<T>)
    ensures r.status && r.code == s.Code() && r.message == s.Message() && r.data == data
  {
    ResultCode.SuccessCodesSucceed(s);
    WithData(s.Code(), s.Message(), data)
  }

  /** `create(errorEnum)`. */
  function CreateError<T>(e: ResultCode.Error): (r: BaseResponse<T>)
    ensures !r.status && r.code == e.Code() && r.message == e.Message() && r.data.None?
  {
    ResultCode.ErrorCodesFail(e);
    Of(e.Code(), e.Message())
  }

  /** `create(errorEnum, data)`. */
  function CreateErrorWith<T>(e: ResultCode.Error, data: Option<T>): (r: BaseResponse<T>)
    ensures !r.status && r.code == e.Code() && r.message == e.Message() && r.data == data
  {
    ResultCode.ErrorCodesFail(e);
    WithData(e.Code(), e.Message(), data)
  }

  /**
   * `createDetail(errorEnum, detail)`: the formatted message goes to the
   * (Error, String) overload, which stores it as the message with no data.
   */
  function CreateDetail<T>(e: ResultCode.Error, detail: Option<string>): (r: BaseResponse<T>)
    ensures !r.status && r.code == e.Code() && r.data.None?
    ensures |r.message| > |e.Message()| && r.message[..|e.Message()|] == e.Message()
    ensures detail.Some? ==> r.message == e.Message() + "(" + detail.value + ")"
  {
    ResultCode.ErrorCodesFail(e);
    var m := DetailMessage(e, detail);
    assert m[..|e.Message()|] == e.Message();
    Of(e.Code(), m)
  }

  /** The status flag of any envelope agrees with the code it carries. */
  lemma StatusFollowsCode<T>(code: string, message: string, data: Option<T>)
    ensures Of<T>(code, message).status == WithData(code, message, data).status
    ensures WithData(code, message, data).status <==> code in {"SUC-000", "SUC-001", "SUC-002"}
  {
    ResultCode.IsSuccessCodes(code);
  }
}
