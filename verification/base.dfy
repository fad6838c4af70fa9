/** Small shared vocabulary for the model: optional values and the 32-bit
    integers that the D-Bus signature "i" and GSettings integers carry. */
module Base {

  /** A value that may be absent; stands for JavaScript's null/undefined. */
  datatype Option<+T> = None | Some(value: T)

  /** D-Bus type "i": a signed 32-bit integer. */
  type Int32 = x: int | -0x8000_0000 <= x < 0x8000_0000

  /** Severity handed to `_logMessage`: the values of CAFFEINATE_DEBUG_MSG
      and CAFFEINATE_ERROR_MSG. */
  datatype LogKind = Debug | Error

  function KindName(k: LogKind): string
  {
    match k
    case Debug => "Debug"
    case Error => "Error"
  }
}
