/** A cancellation token, seen from inside one call.

    The token may be cancelled by another party while the call runs; what the call can observe is
    at which of its own checkpoints a request is first visible. Checkpoints are numbered from 0
    in the order in which the call reaches them. */
module Cancellation {

  datatype CancellationToken =
    | NoCancellation             // CancellationToken.None / default(CancellationToken)
    | CancelAfter(checks: nat)   // the request is visible from checkpoint `checks` on

  /** ThrowIfCancellationRequested at checkpoint `i` throws. */
  predicate IsCancellationRequested(token: CancellationToken, i: nat)
  {
    token.CancelAfter? && token.checks <= i
  }
}
