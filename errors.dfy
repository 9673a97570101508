/** The exceptions the client can raise or report through an `out Exception? error`
    parameter, one constructor per kind. */
module Errors {

  datatype Error =
    /** `ArgumentNullException` for the named parameter. */
    | ArgumentNull(parameter: string)
    /** "Could not read value of `TBEP-Authorization`." */
    | MissingAuthorization
    /** `ArgumentException` from `ToDictionary`: the key occurs a second time. */
    | DuplicateKey(key: string)
    /** `KeyNotFoundException` from the dictionary indexer. */
    | KeyNotFound(key: string)
    /** "Unsupported sign algorithm." */
    | UnsupportedSignAlgorithm
    /** "There is no TBEP public key or serial number." */
    | NoPublicKeyOrSerialNumber
    /** "There is no TBEP public key matched the serial number." */
    | NoPublicKeyMatched
    /** Whatever the RSA verifier throws (bad key, bad base64, ...). */
    | VerifierFault(message: string)
}
