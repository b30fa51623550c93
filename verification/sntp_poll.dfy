/**
  The start-up wait for SNTP: instead of asking the SNTP client for its
  status, the firmware samples the local calendar time up to ten times,
  2000 ms apart, and accepts the clock once `tm_year` (years since
  1900) says 2020 or later. The clock is an input: `yearAt(k)` is the
  `tm_year` that the k-th sample (counting from 0) reads. Delays are
  counted, not timed.
*/
module SntpPoll {
  import opened Wrappers

  const MaxRetries: nat := 10
  /** 2020 - 1900: the first `tm_year` taken to mean the clock has been set. */
  const SyncedYear: int := 2020 - 1900

  /** The calendar year of the sample, `tm_year + 1900`, is 2020 or later. */
  predicate IsPlausible(tmYear: int) {
    tmYear >= SyncedYear
  }

  datatype PollOutcome =
    | Synced(attempts: nat, tmYear: int)   // sample number `attempts` (from 1) read a plausible year
    | Exhausted                            // all samples were implausible; a warning is logged

  /** The index of the first plausible sample among the first `n`, if any. */
  function FirstPlausible(yearAt: nat -> int, n: nat): (r: Option<nat>)
    ensures r.Some? ==> r.value < n && IsPlausible(yearAt(r.value))
                        && forall j :: 0 <= j < r.value ==> !IsPlausible(yearAt(j))
    ensures r.None? <==> forall j :: 0 <= j < n ==> !IsPlausible(yearAt(j))
  {
    if n == 0 then None
    else
      match FirstPlausible(yearAt, n - 1)
      case Some(k) => Some(k)
      case None => if IsPlausible(yearAt(n - 1)) then Some(n - 1) else None
  }

  /**
    `wait_for_sntp_sync`: returns how it ended, how many times the clock was
    sampled and how many delays were taken. A plausible k-th sample ends the
    loop at once, after k samples and k - 1 delays; otherwise the loop runs
    all ten rounds, each ending in a delay, and gives up without an error.
  */
  method WaitForSntpSync(yearAt: nat -> int) returns (outcome: PollOutcome, samples: nat, delays: nat)
    ensures samples <= MaxRetries && delays <= MaxRetries
    ensures outcome == (match FirstPlausible(yearAt, MaxRetries)
                        case Some(k) => Synced(k + 1, yearAt(k))
                        case None => Exhausted)
    ensures outcome.Synced? ==> samples == outcome.attempts && delays == samples - 1
    ensures outcome.Exhausted? ==> samples == MaxRetries && delays == MaxRetries
  {
    var retry := 0;
    samples, delays := 0, 0;
    while retry < MaxRetries
      invariant 0 <= retry <= MaxRetries
      invariant samples == retry && delays == retry
      invariant forall j :: 0 <= j < retry ==> !IsPlausible(yearAt(j))
      decreases MaxRetries - retry
    {
      var year := yearAt(retry);
      samples := samples + 1;
      if IsPlausible(year) {
        outcome := Synced(samples, year);
        return;
      }
      retry := retry + 1;
      delays := delays + 1;
    }
    outcome := Exhausted;
  }

  /** A clock that is still unset for two samples and reads 2025 on the third. */
  function SetOnThirdSample(k: nat): int {
    if k < 2 then 70 else 2025 - 1900
  }

  /** With that clock the poller stops after exactly three samples. */
  lemma ThirdSampleSyncs()
    ensures FirstPlausible(SetOnThirdSample, MaxRetries) == Some(2)
  {
  }

  /** A clock that never leaves 1970 makes the poller give up. */
  lemma NeverSetExhausts()
    ensures FirstPlausible(k => 70, MaxRetries) == None
  {
  }

  /** The poller on the clock set at the third sample: synced after three samples and two delays. */
  method PollSetOnThirdSample() returns (outcome: PollOutcome, samples: nat, delays: nat)
    ensures outcome == Synced(3, 2025 - 1900) && samples == 3 && delays == 2
  {
    ThirdSampleSyncs();
    outcome, samples, delays := WaitForSntpSync(SetOnThirdSample);
  }

  /** The poller on a clock that never leaves 1970: all ten samples and ten delays, then it gives up. */
  method PollNeverSet() returns (outcome: PollOutcome, samples: nat, delays: nat)
    ensures outcome == Exhausted && samples == MaxRetries && delays == MaxRetries
  {
    NeverSetExhausts();
    outcome, samples, delays := WaitForSntpSync(k => 70);
  }
}
