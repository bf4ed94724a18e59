/**
 * The verdict every request handler returns: a success status with a payload,
 * or one of the errors the handlers report, each with its HTTP status.
 */
module Http {
  import opened Wrappers

  const OK := 200
  const CREATED := 201
  const BAD_REQUEST := 400
  const UNAUTHORIZED := 401
  const NOT_FOUND := 404

  /** The distinct error bodies the handlers send (their messages are in Chinese in the source). */
  datatype Error =
    | MissingFields          // 缺少必要字段
    | BadGender              // 性别格式错误
    | DuplicateIdCard        // 该身份证号已存在
    | NotFound               // the 404 raised by get_or_404
    | PatientMissing         // 患者不存在
    | DuplicateSequenceName  // 序列名称已存在
    | NoValidDicom           // 没有有效的DICOM文件上传
    | FolderMissing          // 序列文件夹不存在
    | SequenceMissing        // 序列不存在
    | ImageMissing           // 图像文件不存在
    | MissingPredictionIds   // 缺少预测ID列表
    | NoPredictionsFound     // 没有找到有效的预测记录
    | BadJobNumberOrPassword // 工号或密码错误
    | BadAdminIdOrPassword   // 管理员ID或密码错误
  {
    /** The status code the handler pairs with this error. */
    function Status(): int {
      match this
      case MissingFields | BadGender | DuplicateIdCard | DuplicateSequenceName
        | NoValidDicom | MissingPredictionIds => BAD_REQUEST
      case NotFound | PatientMissing | FolderMissing | SequenceMissing
        | ImageMissing | NoPredictionsFound => NOT_FOUND
      case BadJobNumberOrPassword | BadAdminIdOrPassword => UNAUTHORIZED
    }
  }

  datatype Reply<+T> = Ok(code: int, value: T) | Err(error: Error) {
    function Status(): int {
      match this
      case Ok(c, _) => c
      case Err(e) => e.Status()
    }
  }

  /** Python truthiness of a form or JSON value: present and not the empty string. */
  predicate Filled(v: Option<string>) {
    v.Some? && v.value != ""
  }

  /** The body of a reply that carries only a confirmation message. */
  datatype Ack = Ack
}
