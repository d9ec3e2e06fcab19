/** Types shared by every part of the vault: bytes, the clock, error codes and results. */
module Basics {
  type Byte = b: int | 0 <= b < 256
  type Bytes = seq<Byte>
  type Nonce = n: Bytes | |n| == 12 witness seq(12, _ => 0)
  type Digest = d: Bytes | |d| == 32 witness seq(32, _ => 0)

  /** Points in time, in microseconds (the resolution of Python's datetime). */
  type Time = int

  const MAX_PAYLOAD := 1_048_576

  datatype Option<+T> = None | Some(value: T)

  /** The AppError codes of the services. */
  datatype Error =
    | ValidationError
    | PermissionDenied
    | WeakPassphrase
    | VaultLocked
    | VaultAlreadyInitialized
    | VaultNotInitialized
    | InvalidMasterPassphrase
    | EmailAlreadyExists
    | AccountLocked
    | InvalidCredentials
    | NotFound
    | DecryptionFailed
    | KeyNotFound
    | KeyAlreadyExists
    | KeyVersionNotFound
    | InvalidKeyUsage
    | InvalidCiphertext
    | InvalidDigestLength
    | InvalidSigningAlgorithm

  /** A service call either returns a value or raises an AppError. */
  datatype Result<+T> = Ok(value: T) | Err(error: Error) {
    predicate IsFailure() {
      Err?
    }

    function PropagateFailure<U>(): Result<U>
      requires Err?
    {
      Err(error)
    }

    function Extract(): T
      requires Ok?
    {
      value
    }
  }
}
