/** The per-attempt timeout of operations that may stream their payload (`operations.rs`), in seconds. */
module StreamingTimeout {

  const OPERATION_TTL: nat := 60
  const THROUGHPUT_FLOOR: nat := 20 * 1024
  const MIN_DRAIN: nat := 30
  const ATTEMPT_CAP: nat := 600

  predicate ShouldUseStreaming(threshold: nat, payload: nat) {
    payload > threshold
  }

  function Max(a: nat, b: nat): nat {
    if a < b then b else a
  }

  /**
   In seconds.  A payload above the threshold is streamed and gets extra time, below the
   cap enough of it to drain at the floor rate but for the last, truncated second.
   Beyond the minimum it gets no more.
   */
  function AttemptTimeout(threshold: nat, payload: nat): (t: nat)
    ensures 60 <= t <= 600
    ensures t > 60 <==> payload > threshold
    ensures t > 60 ==> t >= 90
    ensures payload > threshold && t < 600 ==> payload < (t - 60 + 1) * 20_480
    ensures t > 90 ==> (t - 60) * 20_480 <= payload
    ensures t == 600 <==> payload > threshold && payload >= 540 * 20_480
  {
    if !ShouldUseStreaming(threshold, payload) then OPERATION_TTL
    else
      var total := OPERATION_TTL + Max(payload / THROUGHPUT_FLOOR, MIN_DRAIN);
      if total < ATTEMPT_CAP then total else ATTEMPT_CAP
  }

  /** A larger payload never gets less time, nor does a smaller threshold. */
  lemma TimeoutMonotone(threshold: nat, payload: nat, threshold': nat, payload': nat)
    requires payload <= payload' && threshold >= threshold'
    ensures AttemptTimeout(threshold, payload) <= AttemptTimeout(threshold', payload')
  {
    assert payload / THROUGHPUT_FLOOR <= payload' / THROUGHPUT_FLOOR;
  }
}
