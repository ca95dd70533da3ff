/** The cipher error domain declared by MBSCipherError in MBSError.h. */
module CipherErrors {

  datatype CipherError =
    // Input validation errors
    | InvalidKey
    | InvalidIV
    | InvalidInput
    | UnsupportedAlgorithm
    // Operation errors
    | EncryptionFailed
    | DecryptionFailed
    | AuthenticationFailed
    // File operation errors
    | IOFailure
    | FileTooLarge
    | FilePermission

  /** The NSError code reported for an error. */
  function Code(e: CipherError): (c: int)
    ensures 200 <= c <= 222
    ensures c < 210 <==> e in {InvalidKey, InvalidIV, InvalidInput, UnsupportedAlgorithm}
    ensures c >= 220 <==> e in {IOFailure, FileTooLarge, FilePermission}
  {
    match e
    case InvalidKey => 200
    case InvalidIV => 201
    case InvalidInput => 202
    case UnsupportedAlgorithm => 203
    case EncryptionFailed => 210
    case DecryptionFailed => 211
    case AuthenticationFailed => 212
    case IOFailure => 220
    case FileTooLarge => 221
    case FilePermission => 222
  }

  /** No two errors share a code, so a caller can recover the error from its code. */
  lemma CodeInjective(a: CipherError, b: CipherError)
    requires Code(a) == Code(b)
    ensures a == b
  {
  }
}
