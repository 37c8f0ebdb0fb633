/** Small value types shared by every part of the model: optional values, the outcome of a
    JavaScript promise, and the outcome of a call that may throw. */
module Wrappers {

  /** `undefined` or a value. */
  datatype Option<+T> = None | Some(value: T)

  /** How a promise settles: resolved, or rejected with a reason string. */
  datatype Settlement = Resolved | Rejected(reason: string)

  /** A promise under construction inside its executor: either no settlement yet, or the first one. */
  datatype Promise = Pending | Settled(outcome: Settlement)

  /** Whether a synchronous call returned normally or threw an `Error` with a message. */
  datatype Outcome = Returned | Threw(message: string)

  /** Calling `resolve` or `reject` on a promise: only the first settlement has any effect. */
  function Settle(p: Promise, s: Settlement): (r: Promise)
    ensures r.Settled?
    ensures p.Pending? ==> r.outcome == s
    ensures p.Settled? ==> r == p
  {
    match p
    case Pending => Settled(s)
    case Settled(_) => p
  }

  /** Settling twice keeps the first settlement, whatever the second one is. */
  lemma FirstSettlementWins(first: Settlement, second: Settlement)
    ensures Settle(Settle(Pending, first), second) == Settled(first)
  {
  }
}
