# Wi-Fi bring-up, SNTP wait and clock face of the greenwood clock firmware

The firmware (`main/main.cpp`) joins a Wi-Fi network, waits for an IPv4
address, starts SNTP, waits until the calendar clock looks set and then
shows a 12-hour clock. This project models the logic of that start-up and
of the clock text in Dafny:

- `WifiEvents`: the Wi-Fi/IP event handler as a pure step function
  `Handle(eventGroup, event) -> (eventGroup', actions)`. The event group is
  reduced to its single `WIFI_CONNECTED_BIT`; connect requests, log lines
  and the SNTP calls are returned as an ordered list of actions. `Run` folds
  the handler over a trace of events, and `WaitReleased` is the start-up
  task's `xEventGroupWaitBits` call (wait for the bit, do not clear it, no
  timeout) asked about the trace.
- `SntpPoll`: `wait_for_sntp_sync`, a loop of at most ten rounds that
  samples `tm_year` and stops at the first sample of 2020 or later. It
  returns the outcome and the number of samples and delays.
- `ClockFace`: the 12-hour conversion and the `%02d` label text of the
  clock callback, written through `snprintf` into the 8- and 4-byte buffers.
- `Ipv4`: the `IP2STR` macro that splits the address into four octets,
  lowest byte first, and the `IPSTR` dotted-quad text.
- `Printf`: the `%d` and `%02d` conversions and the truncation rule of
  `snprintf`.
- `BringUp`: the order of the start-up task. It blocks until the bit is set,
  then polls the clock, then goes on whatever the poller reported.

The properties are stated against independent definitions: decimal text is parsed back
(`ParseDigits`, `ParseDottedQuad`, `ReadFace`), octets are packed back
(`Pack`), the 12-hour form is mapped back (`TwentyFourHour`), and the
poller is related to an independent definition of the first plausible
sample (`FirstPlausible`).

The code configures SNTP on every `IP_EVENT_STA_GOT_IP`, not only the
first. The SNTP set-up is not guarded by the connected bit: setting the bit
again changes nothing, but `esp_sntp_init()`, with the two set-up calls
before it, is called once per GOT_IP. What a repeated `esp_sntp_init()`
does inside the SNTP client is not part of this model. See `WifiEvents.RunCounts` and
`WifiEvents.SecondGotIp`.

## Model

| member | source | states |
|---|---|---|
| `WifiEvents.Handle` | main/main.cpp:90-112 | Only GOT_IP sets the connected bit and no event clears it. A connect request is issued iff the event is STA_START or STA_DISCONNECTED, with no retry counter. STA_START emits only the connect request; STA_DISCONNECTED logs the retry, then requests. Any other Wi-Fi id changes nothing and emits nothing. GOT_IP emits, in order: log the IP, set the bit, log, poll mode, server 0 = "pool.ntp.org", SNTP init. SNTP is started iff the event is GOT_IP. |
| `WifiEvents.Run` | main/main.cpp:90-112 | Delivering a trace never clears the bit: once set, it stays set for any later events. The first event's actions come first in the result. |
| `WifiEvents.RunAppend` | main/main.cpp:90-112 | Events are handled in delivery order: running two traces one after the other gives the same bit as running their concatenation, and the first trace's actions come before the second's. |
| `WifiEvents.WaitReleased` | main/main.cpp:265-266 | The wait for the connected bit (not cleared on exit, no timeout) returns iff the trace holds at least one GOT_IP. |
| `WifiEvents.RunConnected` | main/main.cpp:101-104 | After any trace, the bit is set iff it was set before or the trace holds a GOT_IP. |
| `WifiEvents.RunCounts` | main/main.cpp:93-111 | Over a trace, SNTP init, poll mode, the server setting and the bit-set each happen once per GOT_IP. Connect requests happen once per start or drop event. |
| `WifiEvents.GotIpIssuesEachOnce` | main/main.cpp:104-110 | A GOT_IP issues the bit-set, poll mode, the server setting and SNTP init exactly once each. |
| `WifiEvents.OthersIssueNone` | main/main.cpp:93-100 | No Wi-Fi event issues the bit-set or any SNTP call. |
| `WifiEvents.HandleConnectCount` | main/main.cpp:93-100 | One event issues one connect request if it is STA_START or STA_DISCONNECTED, and none otherwise. |
| `WifiEvents.RunGotIpCount` | main/main.cpp:101-111 | Over a trace, each of the bit-set and the three SNTP calls is issued once per GOT_IP. |
| `WifiEvents.RunConnectCount` | main/main.cpp:93-99 | Over a trace, a connect request is issued once per start or drop event. |
| `WifiEvents.SecondGotIp` | main/main.cpp:101-111 | A second GOT_IP leaves the event group unchanged, but it still issues another SNTP init. |
| `WifiEvents.ReleaseIndex` | main/main.cpp:265-266 | Returns the first GOT_IP of the trace, if any. The result is None iff the trace has no GOT_IP. |
| `WifiEvents.ReleasedExactlyAtFirstGotIp` | main/main.cpp:265-266 | The waiter is still blocked on the trace just before the first GOT_IP and is released by that event. |
| `WifiEvents.ExampleBringUp` | main/main.cpp:93-111 | Start, drop, start, GOT_IP gives three connect requests, one retry log line, the address logged, the bit set and SNTP configured once. |
| `SntpPoll.FirstPlausible` | main/main.cpp:124-138 | Finds the first of the first n samples whose tm_year is at least 120, or reports that none of them is. |
| `SntpPoll.WaitForSntpSync` | main/main.cpp:116-148 | If the k-th sample (k ≤ 10) is the first with tm_year ≥ 120, the result is Synced after k samples and k−1 delays. Otherwise it is Exhausted after exactly 10 samples and 10 delays. It always returns and never goes past 10 rounds. |
| `SntpPoll.ThirdSampleSyncs` | main/main.cpp:124-138 | A clock that reads 2025 on the third sample, after two unset readings, is accepted at sample index 2. |
| `SntpPoll.PollSetOnThirdSample` | main/main.cpp:124-138 | With a clock that is unset for two samples and reads 2025 on the third, the poller returns Synced after 3 samples and 2 delays. |
| `SntpPoll.PollNeverSet` | main/main.cpp:124-147 | With a clock that never leaves 1970, the poller gives up (Exhausted) after 10 samples and 10 delays. |
| `SntpPoll.NeverSetExhausts` | main/main.cpp:124-147 | A clock that stays in 1970 never gets a plausible sample in the ten rounds. |
| `ClockFace.CRem12` | main/main.cpp:178 | The C remainder by 12 lies in 0..11 for a non-negative dividend and in -11..0 for a negative one. It differs from the dividend by a multiple of 12. |
| `ClockFace.TwelveHour` | main/main.cpp:178-179 | For hour 0..23 the shown hour is in 1..12 and agrees with the hour modulo 12. |
| `ClockFace.MeridiemOf` | main/main.cpp:180 | For hour 0..23, the marker together with the 12-hour number recovers the hour of the day. |
| `ClockFace.TwelveHourRoundTrip` | main/main.cpp:178-180 | For hour 0..23: the hour is in 1..12, the marker is AM iff hour < 12, and (h12 % 12) + (PM ? 12 : 0) recovers the hour. |
| `ClockFace.TwentyFourHourRoundTrip` | main/main.cpp:178-180 | Every (1..12, AM/PM) face belongs to exactly one hour 0..23, so the conversion is a bijection. |
| `ClockFace.HmLayout` | main/main.cpp:185 | For h12 in 1..12 and minute in 0..59, "%02d:%02d" is exactly two digits, a colon and two digits. |
| `ClockFace.FitsUntruncated` | main/main.cpp:185-186 | Text shorter than the buffer is stored whole and `snprintf` reports no truncation. |
| `ClockFace.RenderClock` | main/main.cpp:177-186 | For hour 0..23, minute 0..59 and second 0..60, "HH:MM" is exactly 5 characters in `buf_hm[8]` and "SS" is exactly 2 in `buf_sec[4]`, with no truncation. The digits read back as the 12-hour hour, the minute and the second. The marker is "AM" iff hour < 12. |
| `ClockFace.ReadFaceRoundTrip` | main/main.cpp:177-191 | The labels shown for a time of day read back as that same time of day. |
| `Printf.Format02d` | main/main.cpp:185-186 | `%02d` of a value in 0..99 is exactly two digits that parse back to the value. A wider non-negative value prints all its digits. A negative value is printed as by `%d`. |
| `Printf.Snprintf` | main/main.cpp:185-186 | Never writes more than the buffer size. Returns the full text length. The stored text is the first `size - 1` characters of the text, or all of it when it fits. The write is untruncated iff the whole text and its NUL were stored. |
| `Printf.FormatD` | main/main.cpp:31 | `%d` prints digits that parse back to the value, after a '-' when the value is negative, in the shortest form: no leading zero. |
| `Printf.Digits` | main/main.cpp:31 | The digits of n parse back to n. Their count is the least k with n < 10^k. |
| `Ipv4.Ip2Str` | main/main.cpp:34-38 | Gives four octets in 0..255, lowest byte first. o0 + 256·o1 + 65536·o2 + 16777216·o3 is the address. |
| `Ipv4.UnpackPack` | main/main.cpp:34-38 | Splitting a packed value gives back its octets, so the split is a bijection on 32-bit values. |
| `Ipv4.DottedQuad` | main/main.cpp:31-38 | The logged "%d.%d.%d.%d" text (line 103) splits at its dots into exactly the four `%d` texts of the octets, so no octet is zero-padded. It is 7 to 15 characters long and parses back to the octets it was printed from. |
| `Ipv4.ExampleAddressText` | main/main.cpp:103 | The address with octets 203, 0, 113, 5 is logged as "203.0.113.5". |
| `BringUp.StartNetworkAndTime` | main/main.cpp:261-272 | Start-up reaches the clock set-up iff a GOT_IP arrived. The poller runs only after that, and its result (Synced or Exhausted) is as `WaitForSntpSync` states. An Exhausted poll does not stop start-up. |

## Left out

- Real concurrency: the handler runs on the event-loop task and the start-up task blocks on the event group. Here event delivery is a finite sequence, already handled when the wait is decided. A trace without GOT_IP stands for the wait that never returns, since `portMAX_DELAY` means no timeout.
- IP events other than `IP_EVENT_STA_GOT_IP` are not modelled. The handler is registered only for that IP event id, so no other IP event reaches it.
- The numeric Wi-Fi event ids are abstract: `OtherWifi(id)` stands for every id other than STA_START and STA_DISCONNECTED.
- The results of `esp_wifi_connect` and of the SNTP calls are ignored by the code, and the model ignores them too. They appear only as actions.
- What a repeated `esp_sntp_init()` does to an SNTP client that is already running happens inside the SNTP library. The model records only that the call is made again on every GOT_IP.
- `vTaskDelay(pdMS_TO_TICKS(2000))`: delays are counted, not timed. The tick rate belongs to the FreeRTOS configuration, which is not part of this model.
- `time`, `localtime_r` and the TZ rule `EST5EDT,M3.2.0/2,M11.1.0/2` are in libc. The sampled `tm_year` values and the calendar fields of the clock callback are inputs.
- Log line texts other than the address are left out. This covers the "System time set" timestamp, the "(n/10)" progress line and the give-up warning. They show up only as counts or outcomes.
- SPIFFS mount and unmount, NVS init and erase, display and LVGL set-up, the splash screen, label styling and alignment, and the 1 s timer registration are calls into storage and UI libraries with no logic of their own.
- The ESP-IDF network bring-up calls and the `ESP_ERROR_CHECK` aborts are left out, and so are the station credentials.
- components/images/image_converter.py is not part of this model. It is a command-line wrapper around an external image library.
