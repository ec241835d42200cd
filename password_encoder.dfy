/**
 * The password encoder bean (BCrypt). Hashing is a library's job; here it is a
 * pair of functions, and the only thing assumed of them is that a password
 * matches its own encoding.
 */
module PasswordEncoding {

  /** `encode` and `matches(raw, encoded)` of the configured encoder. */
  datatype PasswordEncoder = PasswordEncoder(encode: string -> string, matches: (string, string) -> bool)

  /** Every password matches the encoding the encoder produced for it. */
  ghost predicate MatchesOwnEncoding(e: PasswordEncoder) {
    forall p :: e.matches(p, e.encode(p))
  }

  /** The message BCryptPasswordEncoder.matches throws with for a null raw password. */
  const NullRawPassword: string := "rawPassword cannot be null"
}
