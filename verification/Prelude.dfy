/** Shared result types and the fault plan that drives every durable effect. */
module Prelude {

  datatype Option<+T> = None | Some(value: T)

  datatype Result<+T, +E> = Success(value: T) | Failure(error: E)

  /** What the host does to one durable effect: let it through, make it raise without
      effect, or stop the process before it. */
  datatype Fault = NoFault | Raise | Crash

  /** The host seen by one run: a fault for every durable effect and a clock reading for
      every journal append, both indexed by the number of effects tried so far. */
  datatype Host = Host(fault: nat -> Fault, clock: nat -> int)

  /** The host let every effect of this stretch through. */
  predicate Calm(host: Host, from: nat, to: nat) {
    forall n :: from <= n < to ==> host.fault(n) == NoFault
  }

  /** How a sequence of durable effects ended. */
  datatype Outcome = Done | Raised | Crashed

  /** The host stops the process at none of the effects `from`, ..., `to - 1`. */
  predicate Survived(host: Host, from: nat, to: nat) {
    forall n :: from <= n < to ==> host.fault(n) != Crash
  }
}
