/** The exceptions the ActiveRecord upload backend can raise, the
    success-or-exception result its operations return, and `nil`-or-value. */
module Outcomes {

  /** Exceptions that reach the caller of the backend. */
  datatype Error =
    | NoMethodError      // `to_i` sent to a value that has no such method (`true.to_i`)
    | StatementInvalid   // the query names a column the `condo_uploads` table does not have
    | RecordInvalid      // `create!` refused by the record's validations
    | ResourceInvalid    // raised by `update_entry` when `update_attributes` returns false

  /** A Ruby call either returns a value or raises one of the errors above. */
  datatype Result<+T> = Ok(value: T) | Err(error: Error) {
    predicate IsFailure() { Err? }

    function PropagateFailure<U>(): Result<U>
      requires Err?
    {
      Err(error)
    }

    function Extract(): T
      requires Ok?
    {
      value
    }
  }

  /** A value or Ruby's `nil`. */
  datatype Option<+T> = None | Some(value: T)
}
