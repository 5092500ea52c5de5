/** Option and Result, the failure-carrying values used throughout the model. */
module Wrappers {

  datatype Option<+T> = None | Some(value: T)

  /** The ways the robustness encoders abort. Each one is an exception the
      encoders raise and do not catch, so the whole query stops there. */
  datatype Error =
    | IndexError                      // a list index past the end (`block[idx + 1]`, `Y[index]`, `values[-1]`)
    | UnknownLabel(name: string)      // a class label absent from the class mapping (KeyError)
    | UnknownFeature(name: string)    // a variable name that is not a feature column (KeyError)
    | MissingPosition(index: nat)     // a weight position with no feature column (`X[i]`, KeyError)
    | BadTerm(term: string)           // `term.split(op)` does not give exactly two parts (ValueError)
    | BadThreshold(token: string)     // `float(value)` rejects the threshold text (ValueError)
    | NotAFormula                     // a plain truth value where the solver expects a formula (Z3Exception)

  datatype Result<+T> = Ok(value: T) | Err(error: Error) {
    predicate IsFailure() { Err? }
    function PropagateFailure<U>(): Result<U>
      requires Err?
    {
      Err(error)
    }
    function Extract(): T
      requires Ok?
    {
      value
    }
  }
}
