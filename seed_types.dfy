/** Value types shared by the seed custodian: the 128-bit seed pair, the
    three ways an operation can fail, and a result wrapper for the
    operations that throw in the original class. */
module SeedTypes {

  /** A 128-bit seed is an opaque pair of 64-bit halves; the halves are
      stored, compared and hashed independently, never combined by
      carrying arithmetic. */
  datatype Seed128 = Seed128(high: bv64, low: bv64)

  /** The failures the class reports by throwing: a getter or derivation
      on an unset object, a getter for the other width, and a field that
      the hexadecimal parser rejects (no digits, or a value over 64 bits). */
  datatype SeedError = NotSet | WrongWidth | ParseError

  datatype Result<T> = Ok(value: T) | Err(error: SeedError)
}
