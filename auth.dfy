/**
 * The `authenticate` decorator of src/http.js: after the signature of the
 * request's token is checked, the token is refused when it has expired or
 * was issued before the invalidation watermark.
 *
 * The signature check itself, the clock and the environment are inputs:
 * the outcome of verification, the current time and the watermark.
 */
module Auth {
  import opened Wrappers

  /**
   * A millisecond timestamp as JavaScript compares it: a number, or NaN
   * (an absent claim, or a watermark built from an unset or unparsable
   * environment variable).
   */
  datatype Stamp = Millis(ms: int) | NaN

  /** JavaScript's `a < b` on numbers: false whenever either side is NaN. */
  predicate Before(a: Stamp, b: Stamp) {
    a.Millis? && b.Millis? && a.ms < b.ms
  }

  /** The two claims the decorator reads from a decoded token. */
  datatype Claims = Claims(expiresAt: Stamp, createdAt: Stamp)

  /** What `req.jwtVerify()` delivers: the decoded claims, or a rejection. */
  datatype Verification = Verified(claims: Claims) | Rejected

  /** The 401 body sent back to the client. */
  datatype ErrorBody = ErrorBody(error: string, message: string, statusCode: int)

  /** Pass the request on (nothing sent), or answer it with an error body. */
  datatype Decision = Continue | Reply(body: ErrorBody)

  /** What the `try` block threw: the string 'expired', or a verification error. */
  datatype Thrown = Expired | VerifyError

  const ExpiredMessage := "Your token has expired; please re-authenticate."
  const UnauthenticatedMessage := "You are not authenticated."

  /** The `try` block: `None` when it completes, else the value it throws. */
  function TryVerify(v: Verification, now: int, watermark: Stamp): (t: Option<Thrown>)
  {
    match v
    case Rejected => Some(VerifyError)
    case Verified(c) =>
      if Before(c.expiresAt, Millis(now)) then Some(Expired)
      else if Before(c.createdAt, watermark) then Some(Expired)
      else None
  }

  /** The `catch` block: a 401 whose message tells an expiry from any other failure. */
  function Refusal(t: Thrown): (b: ErrorBody)
    ensures b.statusCode == 401 && b.error == "Unauthorised"
    ensures b.message == ExpiredMessage <==> t == Expired
  {
    ErrorBody("Unauthorised",
              if t == Expired then ExpiredMessage else UnauthenticatedMessage,
              401)
  }

  /** The whole decorator. */
  function Authenticate(v: Verification, now: int, watermark: Stamp): (d: Decision)
    ensures d.Reply? ==> d.body.statusCode == 401 && d.body.error == "Unauthorised"
    ensures d.Reply? ==> d.body.message in {ExpiredMessage, UnauthenticatedMessage}
  {
    match TryVerify(v, now, watermark)
    case None => Continue
    case Some(t) => Reply(Refusal(t))
  }

  /** An expired token is refused with the expiry message. */
  lemma ExpiredTokenRefused(c: Claims, now: int, watermark: Stamp)
    requires Before(c.expiresAt, Millis(now))
    ensures Authenticate(Verified(c), now, watermark)
         == Reply(ErrorBody("Unauthorised", ExpiredMessage, 401))
  {
  }

  /** A token issued before the watermark is refused with the same expiry message. */
  lemma RevokedTokenRefused(c: Claims, now: int, watermark: Stamp)
    requires Before(c.createdAt, watermark)
    ensures Authenticate(Verified(c), now, watermark)
         == Reply(ErrorBody("Unauthorised", ExpiredMessage, 401))
  {
  }

  /** Any failure of signature verification gets the "not authenticated" message. */
  lemma RejectedTokenRefused(now: int, watermark: Stamp)
    ensures Authenticate(Rejected, now, watermark)
         == Reply(ErrorBody("Unauthorised", UnauthenticatedMessage, 401))
  {
  }

  /**
   * The request goes on exactly when verification succeeds, the token has
   * not expired and it was not issued before the watermark.
   */
  lemma AcceptedExactly(v: Verification, now: int, watermark: Stamp)
    ensures Authenticate(v, now, watermark) == Continue
        <==> v.Verified?
             && !Before(v.claims.expiresAt, Millis(now))
             && !Before(v.claims.createdAt, watermark)
  {
  }

  /** Both comparisons are strict: a token expiring now, or issued at the watermark, is accepted. */
  lemma BoundariesAccepted(now: int, watermark: int)
    ensures Authenticate(Verified(Claims(Millis(now), Millis(watermark))), now, Millis(watermark))
         == Continue
  {
  }

  /** Without a usable watermark (NaN) no token is refused for its issue time. */
  lemma NoWatermarkNoRevocation(c: Claims, now: int)
    requires !Before(c.expiresAt, Millis(now))
    ensures Authenticate(Verified(c), now, NaN) == Continue
  {
  }

  /** The two refusal messages are different, so a client can tell them apart. */
  lemma MessagesDistinct()
    ensures ExpiredMessage != UnauthenticatedMessage
  {
    assert ExpiredMessage[3] != UnauthenticatedMessage[3];
  }

  /** A token accepted at some time is accepted at every earlier time. */
  lemma AcceptanceMonotoneInTime(v: Verification, earlier: int, now: int, watermark: Stamp)
    requires earlier <= now
    requires Authenticate(v, now, watermark) == Continue
    ensures Authenticate(v, earlier, watermark) == Continue
  {
  }
}
