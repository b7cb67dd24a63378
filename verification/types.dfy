/** Fixed-width integers, the runtime's status handles, the outcome of a wrapper
    call, and the status bridge (`status_to_result`, `status_to_result_dbg`). */
module OrtTypes {

  const U64_LIMIT: int := 0x1_0000_0000_0000_0000
  const I64_LIMIT: int := 0x8000_0000_0000_0000

  type u32 = x: int | 0 <= x < 0x1_0000_0000
  type u64 = x: int | 0 <= x < 0x1_0000_0000_0000_0000
  /** The library targets 64-bit platforms, where `usize` is as wide as `u64`. */
  type usize = x: int | 0 <= x < 0x1_0000_0000_0000_0000
  type i64 = x: int | -0x8000_0000_0000_0000 <= x < 0x8000_0000_0000_0000
  type byte = x: int | 0 <= x < 0x100

  /** `x as usize` on an `i64`: the same 64 bits read as unsigned. */
  function I64AsUsize(x: i64): (r: usize)
    ensures r % U64_LIMIT == x % U64_LIMIT
    ensures x >= 0 ==> r == x
  {
    if x < 0 then x + U64_LIMIT else x
  }

  /** `x as i64` on a `usize`: the same 64 bits read as two's complement. */
  function UsizeAsI64(x: usize): (r: i64)
    ensures r % U64_LIMIT == x % U64_LIMIT
    ensures x < I64_LIMIT ==> r == x
  {
    if x < I64_LIMIT then x else x - U64_LIMIT
  }

  /** The two casts are inverse bijections between `i64` and `usize`. */
  lemma CastsAreInverse(x: i64, y: usize)
    ensures UsizeAsI64(I64AsUsize(x)) == x
    ensures I64AsUsize(UsizeAsI64(y)) == y
  {
  }

  datatype Option<+T> = None | Some(value: T)

  /** The `OrtErrorCode` values the wrapper itself passes to `CreateStatus`. */
  const ORT_OK: u32 := 0
  const ORT_FAIL: u32 := 1

  /** An `OrtStatus*`: null means success; a non-null status carries the error
      code and message the runtime (or the wrapper) put in it. */
  datatype Status = Null | Error(code: u32, message: seq<byte>)

  /** Why a wrapper call panics: an arithmetic overflow check, a slice
      bound, or the `unwrap`/`expect` that met an error. */
  datatype Fault =
    | SubtractOverflow      // `end - start` with `end < start`
    | SplitOutOfBounds      // `split_at(mid)` with `mid` past the end
    | FromUtf8Failed        // `String::from_utf8(..).unwrap()`
    | ShapeIncorrect        // `into_shape(..).expect("Shape information was incorrect.")`
    | UnwrapShapeError      // `into_shape(..).unwrap()` on a mismatch
    | UnwrapNulError        // `CString::new(..).unwrap()` on an interior NUL
    | UnwrapStatus          // `status_to_result(..).unwrap()` on an error
    | UnwrapFromVecWithNul  // `CString::from_vec_with_nul(..).unwrap()`
    | UnwrapIntoString      // `CString::into_string().unwrap()`

  /** What a wrapper call does: returns a value, returns `Err` with a non-null
      status, or panics. */
  datatype Outcome<+T> = Ok(value: T) | Err(status: Status) | Panic(reason: Fault)
  {
    predicate IsFailure() {
      !Ok?
    }

    function PropagateFailure<U>(): Outcome<U>
      requires !Ok?
    {
      if Err? then Err(status) else Panic(reason)
    }

    function Extract(): T
      requires Ok?
    {
      value
    }
  }

  /** `status_to_result`: a null status is success; any other status is the
      error, handed on unchanged. */
  function StatusToResult(status: Status): (r: Outcome<()>)
    ensures r.Ok? <==> status.Null?
    ensures r.Err? <==> status.Error?
    ensures r.Err? ==> r.status == status
  {
    if status.Null? then Ok(()) else Err(status)
  }

  /** `status_to_result_dbg`: the same bridge (its message printing is
      commented out in the source, so the table argument plays no part). */
  function StatusToResultDbg(status: Status): (r: Outcome<()>)
    ensures r.Ok? <==> status.Null?
    ensures r.Err? <==> status.Error?
    ensures r.Err? ==> r.status == status
  {
    if status.Null? then Ok(()) else Err(status)
  }

  /** The inverse of the bridge: the status a unit result stands for. */
  function ResultToStatus(r: Outcome<()>): (status: Status)
    requires !r.Panic?
    requires r.Err? ==> r.status.Error?
  {
    if r.Ok? then Null else r.status
  }

  /** The bridge loses nothing: it and ResultToStatus are inverse, and the
      debugging variant agrees with the plain one on every status. */
  lemma StatusBridgeRoundTrip(status: Status, r: Outcome<()>)
    requires !r.Panic? && (r.Err? ==> r.status.Error?)
    ensures ResultToStatus(StatusToResult(status)) == status
    ensures StatusToResult(ResultToStatus(r)) == r
    ensures StatusToResultDbg(status) == StatusToResult(status)
  {
    match r
    case Ok(u) => match u { case () => }
    case Err(_) =>
  }
}
