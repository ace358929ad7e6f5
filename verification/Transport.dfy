/**
 What a provider answers, how an answer is classified, and the inline retry policy.
 Providers themselves are an oracle.
 */
module Transport {

  datatype ErrorClass = Unknown | Transient | RateLimited | Terminally

  /** Transports must return a TransportError; anything else is a contract bug. */
  datatype SendError = TransportError(kind: ErrorClass, message: string) | BareError(message: string)

  datatype SendResult = Took(messageID: string) | Refused(error: SendError)

  predicate IsRetryable(err: SendError) {
    err.TransportError? && (err.kind == Transient || err.kind == RateLimited)
  }

  /** An answer as the queue sees it. */
  datatype Outcome = Accepted(messageID: string) | Retryable(error: string) | Terminal(error: string)

  function Classify(answer: SendResult): (o: Outcome)
    ensures answer.Took? ==> o == Accepted(answer.messageID)
    ensures answer.Refused? ==> !o.Accepted? && o.error == answer.error.message
    ensures o.Retryable? <==> && answer.Refused? && answer.error.TransportError?
                              && (answer.error.kind == Transient || answer.error.kind == RateLimited)
  {
    match answer
    case Took(m) => Accepted(m)
    case Refused(err) => if IsRetryable(err) then Retryable(err.message) else Terminal(err.message)
  }

  /** At most one retry, only after a retryable first answer and only if the caller's
      deadline has not passed during the wait: a second, or five when told to slow down.
      The last answer given is the result.
      `expires(d)` says whether the deadline falls within the next d seconds. */
  method SendWithRetry(first: SendResult, expires: int -> bool, second: SendResult)
    returns (result: SendResult, sends: nat)
    ensures 1 <= sends <= 2
    ensures sends == 2 <==> && first.Refused? && first.error.TransportError?
                            && ((first.error.kind == Transient && !expires(1)) || (first.error.kind == RateLimited && !expires(5)))
    ensures result == if sends == 2 then second else first
    ensures result.Took? <==> first.Took? || (sends == 2 && second.Took?)
  {
    sends := 1;
    result := first;
    if first.Took? { return; }
    var delay;
    match first.error
    case BareError(_) => return;
    case TransportError(kind, _) =>
      if kind == Transient {
        delay := 1;
      } else if kind == RateLimited {
        delay := 5;
      } else {
        return;
      }
    if expires(delay) { return; }
    sends := 2;
    result := second;
  }
}
