/**
 * The token service, which signs and parses JWTs, is cryptography and wall-clock time.
 * It enters the model as an oracle: a bundle of functions the callers receive.
 */
module Jwt {
  import opened Users

  /** What `extractUsername` gives back: the subject claim, a null subject, or a thrown parse error. */
  datatype Extraction = Subject(name: string) | NoSubject | Rejected

  datatype JwtService = JwtService(
    generateToken: User -> string,
    generateRefreshToken: User -> string,
    extractUsername: string -> Extraction,
    isTokenValid: (string, User) -> bool
  )
}
