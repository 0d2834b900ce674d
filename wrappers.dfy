/** Failure-carrying values: an optional value and a value-or-error. */
module Wrappers {

  datatype Option<+T> = None | Some(value: T)

  datatype Result<+T, +E> = Success(value: T) | Failure(error: E)
}

/** The exceptions that the mail code raises, catches or lets through. */
module Errors {

  datatype Exc =
    /** `dns.resolver.NoAnswer`: the domain has no MX record. */
    | NoAnswer
    /** `split('@')[1]` on an address that holds no '@'. */
    | IndexError
    /** `text.encode(charset)` failed: unknown charset or a character it cannot encode. */
    | EncodeError(text: string, charset: string)
    /** `smtplib.SMTPDataError(code, msg)`. */
    | SmtpDataError(code: int, msg: string)
    /** Any other exception a resolver or SMTP session raises (timeout, refused connection, failed login, ...). */
    | OtherError(kind: string)
}
