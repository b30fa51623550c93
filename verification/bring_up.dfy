/**
  The network and time part of `app_main`: after Wi-Fi has been started
  it blocks on the connected bit with no timeout, then waits for
  SNTP, then goes on to build the clock labels whatever the poller
  reported. `trace` is the sequence of events the handler has processed
  by the time the wait is decided; the clock samples are `yearAt`.
*/
module BringUp {
  import opened Wrappers
  import opened WifiEvents
  import opened SntpPoll

  datatype StartUp =
    | Blocked                                            // the wait never returns on this trace
    | Ready(poll: PollOutcome, samples: nat, delays: nat) // the labels are created next

  /**
    Reaches the display set-up iff some GOT_IP arrived; the poller runs
    only then, and a poller that gives up still lets start-up continue.
  */
  method StartNetworkAndTime(trace: seq<Event>, yearAt: nat -> int) returns (r: StartUp)
    ensures r.Ready? <==> HasGotIp(trace)
    ensures r.Ready? ==> r.poll == (match FirstPlausible(yearAt, MaxRetries)
                                    case Some(k) => Synced(k + 1, yearAt(k))
                                    case None => Exhausted)
    ensures r.Ready? && r.poll.Synced? ==> r.samples == r.poll.attempts && r.delays == r.samples - 1
    ensures r.Ready? && r.poll.Exhausted? ==> r.samples == MaxRetries && r.delays == MaxRetries
  {
    if !WaitReleased(trace) {
      return Blocked;
    }
    var outcome, samples, delays := WaitForSntpSync(yearAt);
    r := Ready(outcome, samples, delays);
  }
}
