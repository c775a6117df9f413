/** The error taxonomy of src/error.rs. */
module Errors {

  /** The host library's standard errors that reach this contract: a storage
      lookup that finds no entry, and an owner string the host refuses as an
      address. */
  datatype StdError = NotFound | InvalidAddress

  /** `ContractError`: `Std` wraps a host error, `Overflow` is produced by a
      checked addition.  `Aborted` stands for a Rust panic, which reverts the
      whole call just like an error does (the unchecked `Uint64` addition that
      allocates a new id panics instead of returning `Overflow`). */
  datatype ContractError = Std(err: StdError) | Unauthorized | Expired | Overflow | Aborted
}
