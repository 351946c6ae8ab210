/** Optional values and success-or-error results, used where the source has
    `null`/`undefined`, `NaN`, a thrown error or a rejected promise. */
module Results {

  datatype Option<+T> = None | Some(value: T)

  datatype Result<+R, +E> = Success(value: R) | Failure(error: E)
}
