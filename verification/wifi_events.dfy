/**
  The firmware's Wi-Fi/IP event handler, as a pure step function over the
  one piece of state it touches: the `WIFI_CONNECTED_BIT` of the event
  group the start-up task waits on. The handler is registered for every
  Wi-Fi event id and for the IP "station got IP" event only, so those are
  the events it can be handed. Its side effects (connect requests, log
  lines, SNTP configuration calls) are returned, in order, as actions.
*/
module WifiEvents {
  import opened Wrappers
  import opened Ipv4

  datatype Event =
    | StaStart                 // WIFI_EVENT / WIFI_EVENT_STA_START
    | StaDisconnected          // WIFI_EVENT / WIFI_EVENT_STA_DISCONNECTED
    | OtherWifi(id: int)       // any other WIFI_EVENT id
    | GotIp(ip: uint32)        // IP_EVENT / IP_EVENT_STA_GOT_IP with the acquired address

  datatype Action =
    | Connect                               // esp_wifi_connect()
    | LogRetrying                           // "Wi-Fi disconnected, retrying..."
    | LogGotIp(quad: Quad)                  // "Got IP: " IPSTR with IP2STR of the address
    | SetConnectedBit                       // xEventGroupSetBits(..., WIFI_CONNECTED_BIT)
    | LogStartingSntp                       // "Starting SNTP"
    | SntpSetPollMode                       // esp_sntp_setoperatingmode(ESP_SNTP_OPMODE_POLL)
    | SntpSetServer(index: nat, host: string) // esp_sntp_setservername(index, host)
    | SntpInit                              // esp_sntp_init()

  /** The event group, reduced to the one bit the firmware uses. */
  datatype EventGroup = EventGroup(connected: bool)

  /** The event group as `xEventGroupCreate` returns it: no bit set. */
  const Created := EventGroup(false)

  const NtpServer := "pool.ntp.org"

  /** True for the two Wi-Fi events that make the handler request a connection. */
  predicate IsLinkEvent(e: Event) {
    e.StaStart? || e.StaDisconnected?
  }

  /** One invocation of the handler on event `e` with the event group in state `g`. */
  function Handle(g: EventGroup, e: Event): (r: (EventGroup, seq<Action>))
    // only GOT_IP sets the bit, and nothing clears it
    ensures r.0.connected <==> g.connected || e.GotIp?
    // the bit after the call is the bit before it plus whatever the actions set
    ensures r.0.connected <==> g.connected || SetConnectedBit in r.1
    // a start or a drop asks for a connection, with no retry limit, and nothing else does
    ensures Connect in r.1 <==> IsLinkEvent(e)
    // a start only asks for a connection; a drop logs the retry, then asks
    ensures e.StaStart? ==> r == (g, [Connect])
    ensures e.StaDisconnected? ==> r == (g, [LogRetrying, Connect])
    // any other Wi-Fi id is ignored
    ensures e.OtherWifi? ==> r.0 == g && r.1 == []
    // GOT_IP: log the address, set the bit, then configure and start SNTP, every time
    ensures e.GotIp? ==> r.1 == [LogGotIp(Ip2Str(e.ip)), SetConnectedBit, LogStartingSntp,
                                SntpSetPollMode, SntpSetServer(0, NtpServer), SntpInit]
    // SNTP is started by GOT_IP and by nothing else
    ensures SntpInit in r.1 <==> e.GotIp?
  {
    match e
    case StaStart => (g, [Connect])
    case StaDisconnected => (g, [LogRetrying, Connect])
    case OtherWifi(_) => (g, [])
    case GotIp(ip) =>
      (EventGroup(true),
       [LogGotIp(Ip2Str(ip)), SetConnectedBit, LogStartingSntp,
        SntpSetPollMode, SntpSetServer(0, NtpServer), SntpInit])
  }

  /** Delivering the events of `trace` one after another, from state `g`. */
  function Run(g: EventGroup, trace: seq<Event>): (r: (EventGroup, seq<Action>))
    // no event clears the bit
    ensures g.connected ==> r.0.connected
    // events are handled in delivery order: the first event's actions come first
    ensures |trace| > 0 ==> Handle(g, trace[0]).1 <= r.1
    decreases |trace|
  {
    if |trace| == 0 then (g, [])
    else
      var first := Handle(g, trace[0]);
      var rest := Run(first.0, trace[1..]);
      (rest.0, first.1 + rest.1)
  }

  predicate HasGotIp(trace: seq<Event>) {
    exists i :: 0 <= i < |trace| && trace[i].GotIp?
  }

  function NumGotIp(trace: seq<Event>): nat {
    if |trace| == 0 then 0 else (if trace[0].GotIp? then 1 else 0) + NumGotIp(trace[1..])
  }

  function NumLinkEvents(trace: seq<Event>): nat {
    if |trace| == 0 then 0 else (if IsLinkEvent(trace[0]) then 1 else 0) + NumLinkEvents(trace[1..])
  }

  /** The bit is set after a trace iff it was set before or the trace holds a GOT_IP. */
  lemma {:induction false} RunConnected(g: EventGroup, trace: seq<Event>)
    ensures Run(g, trace).0.connected <==> g.connected || HasGotIp(trace)
    decreases |trace|
  {
    if |trace| > 0 {
      RunConnected(Handle(g, trace[0]).0, trace[1..]);
      HasGotIpCons(trace);
    }
  }

  /** A non-empty trace holds a GOT_IP iff its head is one or its tail holds one. */
  lemma HasGotIpCons(trace: seq<Event>)
    requires |trace| > 0
    ensures HasGotIp(trace) <==> trace[0].GotIp? || HasGotIp(trace[1..])
  {
  }

  /** The actions a GOT_IP issues once per occurrence: the bit-set and the three SNTP calls. */
  predicate IsGotIpAction(a: Action) {
    a == SetConnectedBit || a == SntpSetPollMode || a == SntpSetServer(0, NtpServer) || a == SntpInit
  }

  /** A GOT_IP issues each of its actions exactly once. */
  lemma GotIpIssuesEachOnce(g: EventGroup, e: Event, a: Action)
    requires e.GotIp? && IsGotIpAction(a)
    ensures multiset(Handle(g, e).1)[a] == 1
  {
  }

  /** No other event issues any of them. */
  lemma OthersIssueNone(g: EventGroup, e: Event, a: Action)
    requires !e.GotIp? && IsGotIpAction(a)
    ensures multiset(Handle(g, e).1)[a] == 0
  {
  }

  /** One event issues one connect request if it is a start or a drop, and none otherwise. */
  lemma HandleConnectCount(g: EventGroup, e: Event)
    ensures multiset(Handle(g, e).1)[Connect] == (if IsLinkEvent(e) then 1 else 0)
  {
  }

  /** The actions of a non-empty trace are those of its first event followed by those of the rest. */
  lemma RunMultiset(g: EventGroup, trace: seq<Event>)
    requires |trace| > 0
    ensures var h := Handle(g, trace[0]);
      multiset(Run(g, trace).1) == multiset(h.1) + multiset(Run(h.0, trace[1..]).1)
  {
    var h := Handle(g, trace[0]);
    assert Run(g, trace).1 == h.1 + Run(h.0, trace[1..]).1;
  }

  /** Over a trace, each GOT_IP action is issued once per GOT_IP: nothing suppresses a repeat. */
  lemma {:induction false} RunGotIpCount(g: EventGroup, trace: seq<Event>, a: Action)
    requires IsGotIpAction(a)
    ensures multiset(Run(g, trace).1)[a] == NumGotIp(trace)
    decreases |trace|
  {
    if |trace| > 0 {
      RunMultiset(g, trace);
      if trace[0].GotIp? {
        GotIpIssuesEachOnce(g, trace[0], a);
      } else {
        OthersIssueNone(g, trace[0], a);
      }
      RunGotIpCount(Handle(g, trace[0]).0, trace[1..], a);
    }
  }

  /** Over a trace, one connect request per start or drop, with no retry limit. */
  lemma {:induction false} RunConnectCount(g: EventGroup, trace: seq<Event>)
    ensures multiset(Run(g, trace).1)[Connect] == NumLinkEvents(trace)
    decreases |trace|
  {
    if |trace| > 0 {
      RunMultiset(g, trace);
      HandleConnectCount(g, trace[0]);
      RunConnectCount(Handle(g, trace[0]).0, trace[1..]);
    }
  }

  /**
    Every GOT_IP re-issues the whole SNTP configuration (it is not guarded
    by the bit), and every start or drop issues exactly one connect request.
  */
  lemma {:induction false} RunCounts(g: EventGroup, trace: seq<Event>)
    ensures var acts := Run(g, trace).1;
      && multiset(acts)[SntpInit] == NumGotIp(trace)
      && multiset(acts)[SntpSetPollMode] == NumGotIp(trace)
      && multiset(acts)[SntpSetServer(0, NtpServer)] == NumGotIp(trace)
      && multiset(acts)[SetConnectedBit] == NumGotIp(trace)
      && multiset(acts)[Connect] == NumLinkEvents(trace)
  {
    RunGotIpCount(g, trace, SntpInit);
    RunGotIpCount(g, trace, SntpSetPollMode);
    RunGotIpCount(g, trace, SntpSetServer(0, NtpServer));
    RunGotIpCount(g, trace, SetConnectedBit);
    RunConnectCount(g, trace);
  }

  /** Setting the bit a second time leaves the event group as it was, but SNTP is configured again. */
  lemma SecondGotIp(g: EventGroup, a: uint32, b: uint32)
    ensures var g1 := Handle(g, GotIp(a)).0;
      && Handle(g1, GotIp(b)).0 == g1
      && multiset(Handle(g1, GotIp(b)).1)[SntpInit] == 1
  {
  }

  /**
    `xEventGroupWaitBits(group, WIFI_CONNECTED_BIT, pdFALSE, pdTRUE, portMAX_DELAY)`
    after the events of `trace` were handled: it returns iff the bit is set.
    With no timeout, a trace that never sets the bit leaves the caller blocked.
  */
  function WaitReleased(trace: seq<Event>): (released: bool)
    ensures released <==> HasGotIp(trace)
  {
    RunConnected(Created, trace);
    Run(Created, trace).0.connected
  }

  /** The index of the first GOT_IP of a trace, if any: the event that releases the waiter. */
  function ReleaseIndex(trace: seq<Event>): (r: Option<nat>)
    ensures r.Some? ==> r.value < |trace| && trace[r.value].GotIp?
                        && forall j :: 0 <= j < r.value ==> !trace[j].GotIp?
    ensures r.None? <==> !HasGotIp(trace)
    decreases |trace|
  {
    if |trace| == 0 then None
    else if trace[0].GotIp? then Some(0)
    else
      match ReleaseIndex(trace[1..])
      case Some(k) => Some(k + 1)
      case None => None
  }

  /** The waiter stays blocked through every event before the first GOT_IP and is released by it. */
  lemma ReleasedExactlyAtFirstGotIp(trace: seq<Event>, k: nat)
    requires ReleaseIndex(trace) == Some(k)
    ensures !WaitReleased(trace[..k])
    ensures WaitReleased(trace[..k + 1])
  {
    assert trace[..k + 1][k].GotIp?;
  }

  /**
    Events are handled in delivery order: running two traces one after the
    other is running their concatenation, and the actions of the first
    trace come before those of the second.
  */
  lemma {:induction false} RunAppend(g: EventGroup, t1: seq<Event>, t2: seq<Event>)
    ensures var m := Run(g, t1);
      Run(g, t1 + t2) == (Run(m.0, t2).0, m.1 + Run(m.0, t2).1)
    decreases |t1|
  {
    if |t1| == 0 {
      assert t1 + t2 == t2;
      assert [] + Run(g, t2).1 == Run(g, t2).1;
    } else {
      var e, rest := t1[0], t1[1..];
      var h := Handle(g, e);
      assert t1 == [e] + rest;
      assert t1 + t2 == [e] + (rest + t2);
      RunCons(g, e, rest);
      RunCons(g, e, rest + t2);
      RunAppend(h.0, rest, t2);
      var m := Run(h.0, rest);
      var n := Run(m.0, t2);
      assert h.1 + (m.1 + n.1) == (h.1 + m.1) + n.1;
    }
  }

  /** Delivering one more event in front of a trace. */
  lemma RunCons(g: EventGroup, e: Event, rest: seq<Event>)
    ensures var h := Handle(g, e);
      Run(g, [e] + rest) == (Run(h.0, rest).0, h.1 + Run(h.0, rest).1)
  {
  }

  /** Start, drop and start from a clear bit only ask for connections. */
  lemma ExampleLinkPrefix(rest: seq<Event>)
    ensures Run(Created, [StaStart, StaDisconnected, StaStart] + rest)
      == (Run(Created, rest).0, [Connect, LogRetrying, Connect, Connect] + Run(Created, rest).1)
  {
    var r := Run(Created, rest);
    var t2 := [StaStart] + rest;
    var t3 := [StaDisconnected] + t2;
    assert Run(Created, t2) == (r.0, [Connect] + r.1) by {
      RunCons(Created, StaStart, rest);
    }
    assert Run(Created, t3) == (r.0, [LogRetrying, Connect] + ([Connect] + r.1)) by {
      RunCons(Created, StaDisconnected, t2);
    }
    assert Run(Created, [StaStart] + t3)
        == (r.0, [Connect] + ([LogRetrying, Connect] + ([Connect] + r.1))) by {
      RunCons(Created, StaStart, t3);
    }
    assert [StaStart] + t3 == [StaStart, StaDisconnected, StaStart] + rest;
    assert [Connect] + ([LogRetrying, Connect] + ([Connect] + r.1))
        == [Connect, LogRetrying, Connect, Connect] + r.1;
  }

  /**
    Start, drop, start, then an address: three connect requests, one retry
    log line, the address logged, the bit set and SNTP started once.
    (For 203.0.113.5 the logged text is given by `Ipv4.ExampleAddressText`.)
  */
  lemma ExampleBringUp(ip: uint32)
    ensures Run(Created, [StaStart, StaDisconnected, StaStart, GotIp(ip)])
      == (EventGroup(true),
          [Connect, LogRetrying, Connect, Connect,
           LogGotIp(Ip2Str(ip)), SetConnectedBit, LogStartingSntp,
           SntpSetPollMode, SntpSetServer(0, "pool.ntp.org"), SntpInit])
  {
    var tail := [LogGotIp(Ip2Str(ip)), SetConnectedBit, LogStartingSntp,
                 SntpSetPollMode, SntpSetServer(0, NtpServer), SntpInit];
    assert Run(Created, [GotIp(ip)]) == (EventGroup(true), tail) by {
      assert Handle(Created, GotIp(ip)) == (EventGroup(true), tail);
      RunCons(Created, GotIp(ip), []);
      assert [GotIp(ip)] + [] == [GotIp(ip)];
      assert Run(EventGroup(true), []) == (EventGroup(true), []);
      assert tail + [] == tail;
    }
    assert Run(Created, [StaStart, StaDisconnected, StaStart, GotIp(ip)])
        == (EventGroup(true), [Connect, LogRetrying, Connect, Connect] + tail) by {
      ExampleLinkPrefix([GotIp(ip)]);
      assert [StaStart, StaDisconnected, StaStart] + [GotIp(ip)]
          == [StaStart, StaDisconnected, StaStart, GotIp(ip)];
    }
    assert [Connect, LogRetrying, Connect, Connect] + tail
        == [Connect, LogRetrying, Connect, Connect,
            LogGotIp(Ip2Str(ip)), SetConnectedBit, LogStartingSntp,
            SntpSetPollMode, SntpSetServer(0, "pool.ntp.org"), SntpInit];
  }
}
