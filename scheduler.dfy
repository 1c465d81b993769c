/**
 * What HumanityProtocolBot.run does once a cycle is over: wait six hours,
 * back off for a minute after an error, or end the process.
 */
module Scheduler {
  import opened Cycle

  /** Seconds between two completed cycles. */
  const CycleInterval: nat := 6 * 60 * 60
  /** Seconds to wait before retrying after an error escaped a cycle. */
  const ErrorBackoff: nat := 60

  /** Where a keyboard interrupt (Ctrl-C) arrives, if at all. */
  datatype Interrupt = NoInterrupt | DuringCycle | DuringWait

  datatype Next =
    | Wait(seconds: nat)       // sleep, then start the next cycle
    | Exit(status: int)        // sys.exit(status)
    | Uncaught                 // the interrupt leaves run() unhandled

  /** The loop as written. An interrupt raised inside the `try` block, the
      six-hour sleep included, is caught and exits with status 0; but the
      one-minute backoff sleeps inside the `except Exception` handler, so an
      interrupt there is not caught at all. */
  function AfterCycleAsWritten(outcome: CycleOutcome, interrupt: Interrupt): (next: Next)
    ensures next.Uncaught? <==> outcome.Aborted? && interrupt == DuringWait
  {
    if interrupt == DuringCycle then Exit(0)
    else match outcome
      case KeysMissing => Exit(1)
      case Completed(_) => if interrupt.NoInterrupt? then Wait(CycleInterval) else Exit(0)
      case Aborted(_) => if interrupt.NoInterrupt? then Wait(ErrorBackoff) else Uncaught
  }

  /** The loop with the interrupt also handled during the backoff. */
  function AfterCycle(outcome: CycleOutcome, interrupt: Interrupt): (next: Next)
    ensures !next.Uncaught?
    ensures next.Exit? <==> interrupt != NoInterrupt || outcome.KeysMissing?
    ensures next == Exit(1) <==> outcome.KeysMissing? && interrupt != DuringCycle
    ensures next.Exit? ==> next.status == if outcome.KeysMissing? && interrupt != DuringCycle then 1 else 0
    ensures next.Wait? ==> next.seconds == if outcome.Completed? then CycleInterval else ErrorBackoff
  {
    if interrupt == DuringCycle then Exit(0)
    else match outcome
      case KeysMissing => Exit(1)
      case Completed(_) => if interrupt.NoInterrupt? then Wait(CycleInterval) else Exit(0)
      case Aborted(_) => if interrupt.NoInterrupt? then Wait(ErrorBackoff) else Exit(0)
  }

  /** The two loops differ only on an interrupt during the error backoff. */
  lemma AfterCycleDiffersOnlyInBackoff(outcome: CycleOutcome, interrupt: Interrupt)
    ensures AfterCycle(outcome, interrupt) != AfterCycleAsWritten(outcome, interrupt) <==>
            outcome.Aborted? && interrupt == DuringWait
  {
  }

  /** Ctrl-C during the backoff after a failed cycle escapes the loop as
      written, where the cleanly exiting status 0 is meant. */
  lemma InterruptDuringBackoffEscapes()
    ensures AfterCycleAsWritten(Aborted([]), DuringWait) == Uncaught
    ensures AfterCycle(Aborted([]), DuringWait) == Exit(0)
  {
  }

  /** Without an interrupt the process ends only when the key file is
      missing: errors inside a cycle lead to a retry, never to an exit. */
  lemma ErrorsNeverEndTheProcess(outcome: CycleOutcome)
    requires !outcome.KeysMissing?
    ensures AfterCycle(outcome, NoInterrupt).Wait?
    ensures outcome.Aborted? ==> AfterCycle(outcome, NoInterrupt) == Wait(ErrorBackoff)
  {
  }
}
