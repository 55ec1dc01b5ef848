/**
 * Shared types of the benchmark harness: the platform `int`, the optional
 * and fallible results used for the harness's error paths, and one row of
 * the parameter table (struct Params).
 */
module Types {

  /** The C++ `int` of the target: 32-bit two's complement. */
  const INT32_MIN: int := -0x8000_0000
  const INT32_MAX: int := 0x7fff_ffff
  type int32 = x: int | INT32_MIN <= x <= INT32_MAX

  datatype Option<+T> = None | Some(value: T)

  datatype Result<+T, +E> = Ok(value: T) | Err(error: E)

  /**
   * One model under test. The integer switches are C++ `int`s used as
   * booleans (non-zero means on); `instance` is the number of predictors
   * wanted for the model.
   */
  datatype Params = Params(
    modelPath: string,
    inputPath: string,
    isInt8Model: int32,
    instance: int32,
    numThreads: int32,
    useMkldnn: int32,
    enableIrOptim: int32)
}
