/** What the server components share: errors, key types and the signature check they are given. */
module Api {
  import opened Bytes

  datatype ApiError =
    | InvalidCredentials | Expired | Replay | TokenReuse | Conflict
    | Unauthorized | CursorRegression | InvalidInput | Database

  type Bytes32 = s: Blob | |s| == 32 witness seq(32, _ => 0)

  /** Does the signature hold for the public key and the payload? */
  type SignatureCheck = (Bytes32, Blob, Signature) -> bool

  datatype Device = Device(account: Bytes32, publicKey: Bytes32, revoked: bool)

  /** Seconds since the epoch. */
  type Time = nat
}
