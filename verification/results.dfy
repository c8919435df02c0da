/** Failure-carrying values shared by the whole model.

    The Python helpers signal failure by raising; here every raise the helpers
    can reach is a `Failure` carrying an `Error` that names the exception. */
module Results {

  /** An optional value; Python's `None` versus a present value. */
  datatype Option<+T> = None | Some(value: T)

  /** Either the value a helper returns or the exception it raises. */
  datatype Result<+T, +E> = Success(value: T) | Failure(error: E)

  /** The exceptions the modelled helpers raise. */
  datatype Error =
      /** `ValueError` from unpacking a `str.split` result of `parts` pieces into two names */
    | UnpackError(parts: nat)
      /** `KeyError` from looking a Stata version up in the version table */
    | KeyError(key: int)
      /** `ClickException` raised by `is_dta_file` for the given path */
    | NotADtaFile(path: string)
      /** `UnicodeEncodeError` raised by the writer */
    | UnicodeEncodeError
      /** any other failure of the writer, propagated unchanged */
    | WriteError
}
