/** Failure outcomes of the pipeline.

    The C++ code signals failure by exceptions it never catches: the bounds
    check of `std::vector::at` throws `std::out_of_range`, the bounds check
    of Armadillo's `operator()` and of its spans throws `std::logic_error`,
    an Armadillo product of operands whose sizes do not agree throws
    `std::logic_error`, and `arma::inv` throws on a singular matrix.  The
    model returns these as values instead.  Armadillo's `.at()` checks
    nothing: where the code reads through it out of bounds, the behaviour
    is undefined, and the model's failure marks that input as one the code
    has no defined outcome for. */
module Errors {

  datatype Error =
    | OutOfRange   // an element access outside its container
    | SizeMismatch // an Armadillo operation on operands of incompatible sizes
    | Singular     // the moment matrix could not be inverted

  datatype Result<T> = Ok(value: T) | Fail(error: Error) {
    predicate IsFailure() { Fail? }

    function PropagateFailure<U>(): Result<U>
      requires Fail?
    {
      Fail(error)
    }

    function Extract(): T
      requires Ok?
    {
      value
    }
  }
}
