/**
 * The request validators that run before login, registration and
 * send-message. Each is a chain of guards that yields either acceptance or
 * one fixed connect code; the first guard that fails decides the code.
 */
module Validation {
  import opened Messaging

  /** The `error` a validator returns: nil (Accept) or a connect error with a code. */
  datatype Verdict = Accept | Reject(code: Code)

  function ValidateLoginRequest(req: LoginRequest): (v: Verdict)
    ensures v == Accept <==> req.password != "" && req.phoneNumber != ""
    ensures v != Accept ==> v == Reject(InvalidArgument)
  {
    if req.password == "" || req.phoneNumber == "" then Reject(InvalidArgument) else Accept
  }

  function ValidateRegistrationRequest(req: RegisterUserRequest): (v: Verdict)
    ensures v == Accept <==> req.password != "" && req.phoneNumber != "" && req.username != ""
    ensures v != Accept ==> v == Reject(InvalidArgument)
  {
    if req.password == "" || req.phoneNumber == "" || req.username == "" then Reject(InvalidArgument) else Accept
  }

  predicate FieldsPresent(req: SendDirectMessageRequest) {
    req.sender != "" && req.receiver != "" && req.content != ""
  }

  /**
   * The send validator, with the bearer token reduced to its subject. The
   * three outcomes partition the inputs: malformed requests are
   * InvalidArgument, well-formed ones from someone other than the subject
   * are Unauthenticated, and the rest are accepted.
   */
  function ValidateSendDirectMessageRequest(req: SendDirectMessageRequest, subject: string): (v: Verdict)
    ensures v == Reject(InvalidArgument) <==> !FieldsPresent(req) || req.sender == req.receiver
    ensures v == Reject(Unauthenticated) <==> FieldsPresent(req) && req.sender != req.receiver && req.sender != subject
    ensures v == Accept <==> FieldsPresent(req) && req.sender != req.receiver && req.sender == subject
  {
    if req.sender == "" || req.receiver == "" || req.content == "" then Reject(InvalidArgument)
    else if req.sender == req.receiver then Reject(InvalidArgument)
    else if req.sender != subject then Reject(Unauthenticated)
    else Accept
  }

  /** A message to oneself is refused with the same code whoever holds the token. */
  lemma SelfSendRejectedForAnySubject(req: SendDirectMessageRequest, subject1: string, subject2: string)
    requires req.sender == req.receiver
    ensures ValidateSendDirectMessageRequest(req, subject1) == Reject(InvalidArgument)
    ensures ValidateSendDirectMessageRequest(req, subject1) == ValidateSendDirectMessageRequest(req, subject2)
  {
  }

  /** When a malformed request also names a sender other than the subject, InvalidArgument wins. */
  lemma InvalidArgumentTakesPrecedence(req: SendDirectMessageRequest, subject: string)
    requires !FieldsPresent(req) || req.sender == req.receiver
    requires req.sender != subject
    ensures ValidateSendDirectMessageRequest(req, subject) != Reject(Unauthenticated)
    ensures ValidateSendDirectMessageRequest(req, subject) == Reject(InvalidArgument)
  {
  }

  /** Whatever passes the registration validator also passes the login validator with the same credentials. */
  lemma RegistrationAcceptedImpliesLoginAccepted(req: RegisterUserRequest)
    requires ValidateRegistrationRequest(req) == Accept
    ensures ValidateLoginRequest(LoginRequest(req.phoneNumber, req.password)) == Accept
  {
  }
}
