/**
 * Values exchanged by the messaging service's work functions: requests and
 * responses, the rows of the `users` and `messages` tables, the error kinds a
 * handler can return, and the shapes of the two cryptographic capabilities
 * (password hashing and token signing) that the model takes as parameters.
 */
module Messaging {

  type Bytes = seq<bv8>

  /** A datetime as SQLite compares it; only its order matters here. */
  type Timestamp = int

  /** Key length and iteration count passed to PBKDF2 by the current handlers. */
  const PbkdfKeyLen: nat := 32
  const PbkdfIter: nat := 210000

  /** Registration draws a fresh 24-byte salt. */
  const SaltLen: nat := 24

  /** The connect status codes these handlers produce. */
  datatype Code = InvalidArgument | Unauthenticated | NotFound | Unknown

  /** Every kind of error value a work function returns. */
  datatype Failure =
    | Coded(code: Code)   // connect.NewError(code, ...)
    | DbFailure           // an error from database/sql, passed through unchanged
    | KdfFailure          // the error returned by the key-derivation call
    | SignFailure         // the error returned while encoding the token
    | UserNotFound        // errors.New("User not found")

  datatype Option<+T> = None | Some(value: T)

  datatype Result<+T> = Ok(value: T) | Err(error: Failure)

  datatype LoginRequest = LoginRequest(phoneNumber: string, password: string)

  datatype RegisterUserRequest = RegisterUserRequest(username: string, phoneNumber: string, password: string)

  /** The message carried by a send request; the server assigns id and timestamp. */
  datatype SendDirectMessageRequest = SendDirectMessageRequest(sender: string, receiver: string, content: string)

  datatype GetDMsRequest = GetDMsRequest(sender: string, receiver: string, fromDate: Timestamp)

  datatype GetUserInfoRequest = GetUserInfoRequest(phoneNumber: string)

  datatype UserInfo = UserInfo(phoneNumber: string, username: string)

  /** A row of the `messages` table, also the message a GetDMs response carries. */
  datatype Message = Message(id: nat, sender: string, receiver: string, content: string, timestamp: Timestamp)

  /** A row of the `users` table: the hashed password and the salt it was hashed with. */
  datatype UserRow = UserRow(phoneNumber: string, username: string, password: Bytes, salt: Bytes)

  /** The claims a token is signed over; its subject is the user's phone number. */
  datatype Claims = Claims(subject: string, username: string)

  /** Key derivation: password, salt, iteration count and key length to a key, or an error. */
  type Kdf = (string, Bytes, nat, nat) -> Option<Bytes>

  /** Token signing: claims to the encoded token string, or an error. */
  type Signer = Claims -> Option<string>
}
