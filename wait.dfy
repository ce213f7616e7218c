/**
 * The stop rule of the keeper worker's wait for pod IP addresses
 * (`waitForIPAddresses`): the two early returns before polling starts, and the
 * condition handed to the poll loop, with the clock, the context and the pod and
 * IP counts passed in as values.
 */
module IPAddressWait {

  /** One minute as a Go `time.Duration`, in nanoseconds. */
  const Minute: int := 60 * 1000 * 1000 * 1000

  /** How `waitForIPAddresses` proceeds once its guards have been evaluated. */
  datatype Start = ContextDone | InstallationStopped | StartPolling

  /**
   * The early returns: a done context returns at once, before the stopped check;
   * a stopped installation returns without waiting; otherwise polling starts.
   */
  function Begin(contextDone: bool, stopped: bool): (s: Start)
    ensures s == ContextDone <==> contextDone
    ensures s == InstallationStopped <==> !contextDone && stopped
    ensures s == StartPolling <==> !contextDone && !stopped
  {
    if contextDone then ContextDone
    else if stopped then InstallationStopped
    else StartPolling
  }

  /** The three outcomes of one evaluation of the poll condition. */
  datatype Verdict = AllInPlace | TimeElapsed | StillWaiting

  /**
   * One evaluation of the poll condition: `numIPs` IP addresses found for the
   * installation's pods, `numPods` pods listed in the refreshed status, `elapsed`
   * nanoseconds since polling started. The IP check comes first; the deadline is
   * strict, so exactly one minute still waits.
   */
  function Condition(numIPs: nat, numPods: nat, elapsed: int): Verdict
  {
    if numIPs >= numPods then AllInPlace
    else if elapsed > Minute then TimeElapsed
    else StillWaiting
  }

  /** The value the condition returns to the poll loop: true means poll again. */
  function KeepPolling(numIPs: nat, numPods: nat, elapsed: int): (again: bool)
    ensures again <==> numIPs < numPods && elapsed <= Minute
  {
    Condition(numIPs, numPods, elapsed) == StillWaiting
  }

  /** Each verdict happens exactly when its counts and time say so. */
  lemma ConditionCases(numIPs: nat, numPods: nat, elapsed: int)
    ensures Condition(numIPs, numPods, elapsed) == AllInPlace <==> numIPs >= numPods
    ensures Condition(numIPs, numPods, elapsed) == TimeElapsed <==> numIPs < numPods && elapsed > Minute
    ensures Condition(numIPs, numPods, elapsed) == StillWaiting <==> numIPs < numPods && elapsed <= Minute
  {
  }

  /** Enough IP addresses stop the wait as complete, however long it has been running. */
  lemma AddressesCheckedFirst(numIPs: nat, numPods: nat, elapsed: int, later: int)
    requires numIPs >= numPods
    ensures Condition(numIPs, numPods, elapsed) == Condition(numIPs, numPods, later) == AllInPlace
  {
  }

  /** The deadline is strict: at exactly one minute a wait still short of addresses goes on; one nanosecond later it stops. */
  lemma DeadlineIsStrict(numIPs: nat, numPods: nat)
    requires numIPs < numPods
    ensures KeepPolling(numIPs, numPods, Minute)
    ensures Condition(numIPs, numPods, Minute + 1) == TimeElapsed
  {
  }

  /** Once the condition says stop, more addresses or more time keep saying stop. */
  lemma StopIsMonotone(numIPs: nat, numPods: nat, elapsed: int, moreIPs: nat, later: int)
    requires !KeepPolling(numIPs, numPods, elapsed)
    requires numIPs <= moreIPs && elapsed <= later
    ensures !KeepPolling(moreIPs, numPods, later)
  {
  }

  /** A pod count of zero never waits: there is nothing to wait for. */
  lemma NoPodsNoWait(numIPs: nat, elapsed: int)
    ensures Condition(numIPs, 0, elapsed) == AllInPlace
  {
  }
}
