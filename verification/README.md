# Protocol model of the rigplane test kit

`rigplane_testkit` simulates amateur-radio transceivers for tests: an Icom radio on three UDP
ports, serial CI-V and CAT devices, recorders that sit between a client and a real radio, and
the tables that replay what was recorded. This project models the parts of it that carry
protocol state and proves what they promise.

| files | what they model |
|---|---|
| `SerialNumbers`, `GapTracker`, `GapInvariant`, `GapOrder`, `GapRecovery`, `GapRounds`, `GapPacing`, `GapBudget`, `GapReceiver` | The selective-repeat receiver of one CI-V client: 16-bit wrapping numbers (the comparison of section 3.2 of RFC 1982 with SERIAL_BITS = 16; distance 0x8000 counts as behind), missing set, held packets, ordered drain, retransmit rounds (each number may arrive any number of times), inherited trackers with their fill budget and their giving up. |
| `RetransmitRequest` | The retransmit-request packet, and its decoder in the production client. |
| `Session`, `SessionFence`, `SessionTokens`, `SessionOwner`, `SessionOrder`, `SessionOutage`, `Simulator` | The session of the Icom simulator: one owner, keepalive hold, token epochs, the fence after a reboot or a drop, CI-V stream owner, orphaned stream state, and the dark, busy, notice, silence, standby and unavailability windows. One event is one atomic step; the run theorems quantify over every event sequence. |
| `CivFraming`, `FrameFilter`, `LineFilter`, `FrameReassembly` | The incremental byte-stream filters, each against a reference that sees the whole stream at once. |
| `WindowExtract`, `SweepAssembly`, `AnswerTable` | A recording to request/reply rows and scope sweeps, and the rows to a stateful answer table. |
| `ReplyScheduler`, `FaultRule`, `AudioSource`, `ScopePump`, `EffectClosure` | The delayed-reply scheduler of a serial connection, the fault rule of a packet stream, the file audio source and its burst clock, scope wave pacing, and the call-graph closure of the real-time guard. |
| `Modular`, `Wrappers` | Helpers. |

Code that updates fields in place is modelled by a class whose methods do the same
(`GapReceiver.Receiver`, `Simulator.MockIcomRadio`, `FrameFilter.CivFrameFilter`,
`LineFilter.CatLineFilter`, `WindowExtract.Extractor`, `AnswerTable.RecordedAnswerTable`,
`ReplyScheduler.Connection`, `FaultRule.FaultRule`, `AudioSource.WavSource`,
`AudioSource.BurstClock`, `ScopePump.ScopeStream`). Each method is proved to be one step of a
pure step function; the theorems over all runs are about that function.

Times are integers in microseconds. Clock readings, random draws, guards and shuffles are
inputs: any values, any predicate on byte strings, any permutation. Unless a theorem says so,
clocks need not be monotone. `hide F;` in a proof only keeps the definition of `F` away from
the solver.

## Where the code differs from what is written about it

- **The fence lifts without a fresh login.** The descriptions of `reboot` and `drop_session`
  (`rigplane_testkit/icom/simulator.py:1057-1066`, `:1164-1180`) and the comments at
  `:1785-1799` and `:1859-1869` say that only a client that logs in afresh after the event can
  lift the fence. The code keeps `_last_login` across the event and refuses only *retired*
  tokens, so the client that was the last login lifts the fence with any token that is not
  retired. `SessionFence.FreshLoginIff` gives the exact condition: an event keeps the promise
  over everything that can follow if and only if nobody had logged in before it, or every
  possible token is retired. `SessionFence.FenceLiftsWithoutFreshLogin` carries the other case
  through to a processed frame, from any state, and `SessionFence.GrantIff` says in one step
  who gets the permission. `SessionFence.FenceSafety` states what the code does guarantee.
- **An inherited tracker is not always silent before a packet past its frontier.** The class
  description (`simulator.py:335-338`) promises no retransmit request until then. With `f` the
  inherited frontier, a packet `f` followed by a packet `f + 0x8000` draws one: the second is
  behind `f` but ahead of `f + 1`. `GapPacing.InheritedSilence` proves that this pair of
  arrivals is the only way.
- **A held copy can stay behind.** If the expected number is already held while numbers are
  missing, a duplicate of it is processed at once and the held copy stays
  (`simulator.py:2160-2165`). `GapInvariant.HeldStaysAheadIff` gives the exact condition and
  `GapInvariant.StaleHeldCopy` a run.
- **The loop can drop missing numbers without draining** (`simulator.py:2313-2329`).
  `GapInvariant.TickKeepsDrainedIff` says exactly when a held packet is then left waiting, and
  `GapInvariant.LoopStrandsHeld` gives a reachable run.
- **One request does not always close a gap.** The production client resends at most 50
  numbers of one range (`src/rigplane/core/transport.py:51`, `:830`).
  `GapRounds.GapClosesIff` says that `n` rounds close the gap if and only if no run is longer
  than `50 n`; `GapRounds.CapLeavesOne` is a gap of 51 that one round leaves open.

## Model

| member | source | states |
|---|---|---|
| SerialNumbers.MaskedArithmetic | rigplane_testkit/icom/simulator.py:2147-2159 | The case-split arithmetic is the `& 0xFFFF` arithmetic of the source, and addition undoes distance |
| GapInvariant.AcceptKeeps | rigplane_testkit/icom/simulator.py:2115-2242 | One packet keeps: missing and held disjoint, every missing number 0..0x7FFE ahead of the expected one, every number up to the furthest missing one missing or held, nothing left to drain |
| GapInvariant.TickKeeps | rigplane_testkit/icom/simulator.py:2302-2334 | A loop tick keeps soundness and `held`, never adds a missing number, and removes one only from an inherited tracker with the drop knob on |
| GapInvariant.FreshRunsKeepInv | rigplane_testkit/icom/simulator.py:2115-2338 | Every reachable state of a fresh tracker satisfies the whole gap invariant, for any events and knobs |
| GapInvariant.RunsKeepInv | rigplane_testkit/icom/simulator.py:2115-2338 | The whole gap invariant holds on over any run from any state that has it |
| GapInvariant.RunsStaySound | rigplane_testkit/icom/simulator.py:1336-1360 | A tracker inherited with any sound gap list stays sound over every run |
| GapInvariant.OpenGapOnlyShrinks | rigplane_testkit/icom/simulator.py:2166-2195 | While a gap is open no event adds a missing number, and a packet removes at most its own |
| GapInvariant.HeldStaysAheadIff | rigplane_testkit/icom/simulator.py:2159-2194 | "Every held number is ahead of the expected one" survives a packet if and only if the packet is not a duplicate of an expected number that is already held |
| GapInvariant.StaleHeldCopy | rigplane_testkit/icom/simulator.py:2160-2165 | A run from a fresh tracker (0, 4, 2, 1, 2) that leaves a held copy behind the expected number |
| GapInvariant.TickKeepsDrainedIff | rigplane_testkit/icom/simulator.py:2313-2329 | A tick leaves a held expected packet waiting with nothing missing if and only if its drop empties the missing set |
| GapInvariant.LoopStrandsHeld | rigplane_testkit/icom/simulator.py:2313-2329 | A reachable run of that kind: an orphan with 10 and 12 missing, 11 and 10 arrive, one tick drops 12 and leaves 11 held and expected |
| GapOrder.OrderIndependence | rigplane_testkit/icom/simulator.py:2115-2242 | After a first number s, s+1..s+n (n <= 0x7FFF, wrapping) in any order with any duplicates and ticks: consumed log exactly s..s+n in order, nothing missing, s+n+1 expected |
| GapOrder.ConsumedInOrder | rigplane_testkit/icom/simulator.py:2115-2242 | At every moment of such a run, whatever is still lost, the log is a gapless prefix |
| GapOrder.OnlyArrivals | rigplane_testkit/icom/simulator.py:2194-2195 | Over any run, consumed and held packets are packets that arrived, under their own number |
| GapOrder.SameLog | rigplane_testkit/icom/simulator.py:2115-2242 | Two interleavings of the same window consume the same packets in the same order |
| GapOrder.ConsumptionIgnoresClock | rigplane_testkit/icom/simulator.py:1026-1038 | Neither the clock nor standby decides what is consumed: the same arrivals at other times, with standby toggled at will, consume the same packets and leave the same tracker but for the time of its last round |
| GapOrder.WindowBoundIsTight | rigplane_testkit/icom/simulator.py:2166-2193 | One number more and the theorem fails: a duplicate of s then opens a gap of numbers never sent |
| RetransmitRequest.MissingRunsExact | rigplane_testkit/icom/simulator.py:348-356 | The runs cover exactly the missing numbers, ordered, and no two touch |
| RetransmitRequest.GroupRuns | rigplane_testkit/icom/simulator.py:348-356 | The grouping loop computes those runs |
| RetransmitRequest.WriteRuns | rigplane_testkit/icom/simulator.py:2262-2265 | The loop writes the little-endian pairs behind the header, in place, and leaves the header alone |
| RetransmitRequest.BuildRequest | rigplane_testkit/icom/simulator.py:2244-2266 | The packet built in place is the encoding the round-trip lemmas are about: single form for one number, ranges otherwise |
| RetransmitRequest.PairsRoundTrip | rigplane_testkit/icom/simulator.py:2262-2265 | Reading the ranges of a packet back gives exactly the encoded runs |
| RetransmitRequest.RequestNamesMissing | rigplane_testkit/icom/simulator.py:2244-2266 | For every non-empty set the packet names exactly the missing numbers, runs of any length and gaps across 65535 to 0 included, and its ranges are the canonical runs |
| RetransmitRequest.RequestHeader | rigplane_testkit/icom/simulator.py:3077-3085 | Field by field, little-endian: the packet's length, type 0x01, the one missing number in the single form else 0, the id of the radio, then that of the client |
| RetransmitRequest.DecodeEncode | src/rigplane/core/transport.py:816-841 | The client's range loop serves the first 50 numbers of each encoded range, in order |
| RetransmitRequest.RequestServes | src/rigplane/core/transport.py:807-842 | Decoding the request, in either form, yields distinct ascending numbers: the first 50 of every missing run |
| RetransmitRequest.ServesExactly | src/rigplane/core/transport.py:816-841 | For any packet of the range form: the client resends exactly what a complete pair asks for, forward from its first number over less than half the circle, at most 50; backward and partial pairs carry nothing |
| RetransmitRequest.RequestExactIff | src/rigplane/core/transport.py:820-841 | The client resends only missing numbers, at least one, and all of them if and only if no run exceeds 50 |
| GapRecovery.RoundSuffices | rigplane_testkit/icom/simulator.py:2115-2242 | From any reachable open gap of a fresh tracker, when all the missing packets arrive, in any order and each any number of times, the missing set empties, they and the contiguous held run behind them are consumed once each and in order, and the first unseen number is expected |
| GapRecovery.RoundSufficesIff | rigplane_testkit/icom/simulator.py:2159-2218 | That holds for all such runs if and only if no missing number lies more than 0x8000 behind where the round ends; otherwise one more duplicate reopens the gap or is consumed again |
| GapRecovery.HeldAheadInWindow | rigplane_testkit/icom/simulator.py:2159-2218 | The window is met whenever no stale copy is held behind the expected number |
| GapRecovery.SoundRunsAreShort | rigplane_testkit/icom/simulator.py:2244-2266 | Reachable trackers never ask for a range that the client would take for a backward one |
| GapRecovery.RequestRound | rigplane_testkit/icom/simulator.py:2244-2288 | Through packet and client, duplicates allowed: one round removes exactly what the client resends, at least one number, consumes in order, and closes the gap if and only if no run exceeds the client's cap |
| GapRounds.RoundsLeaveTails | src/rigplane/core/transport.py:816-841 | After n answered rounds exactly the numbers past the first 50 n of their run are missing |
| GapRounds.GapClosesIff | rigplane_testkit/icom/simulator.py:2244-2334 | n answered rounds close the gap and release everything contiguous, in order, if and only if no run is longer than 50 n |
| GapRounds.CapLeavesOne | src/rigplane/core/transport.py:830-841 | Packets 0 and 52 of a fresh client open a gap of 51 that one round leaves open |
| GapPacing.StepRounds | rigplane_testkit/icom/simulator.py:2196-2206 | A step sends at most one round, for the numbers still missing, never in standby, at least 75 ms after the previous one (100 ms from the loop) |
| GapPacing.RunIsPaced | rigplane_testkit/icom/simulator.py:2268-2334 | In every run the rounds to one tracker are at least 75 ms apart, packet- or loop-triggered |
| GapPacing.RoundRate | rigplane_testkit/icom/simulator.py:2268-2334 | Any k+1 rounds span at least k times 75 ms |
| GapPacing.GapIsAsked | rigplane_testkit/icom/simulator.py:2196-2206 | No open gap goes unasked: in every run, a held packet or a loop tick out of standby that leaves a gap open finds a round younger than 75 ms (100 ms for a tick) or sends one |
| GapPacing.ArmedIff | rigplane_testkit/icom/simulator.py:2149-2158 | An inherited tracker is armed if and only if some packet strictly past its frontier arrived |
| GapPacing.InheritedSilence | rigplane_testkit/icom/simulator.py:2149-2158 | Before such a packet, a round goes out if and only if f and then, out of standby, f+0x8000 arrived |
| GapBudget.BudgetExact | rigplane_testkit/icom/simulator.py:2176-2188 | In every run of an inherited tracker a fill from ahead of the expected number is accepted, leaving the gap and being held or released, if and only if the knob is off or fewer than `civ_inherited_fills_per_round` such fills were accepted since the last tick of the armed tracker; otherwise nothing happens at all |
| GapBudget.CounterIsFills | rigplane_testkit/icom/simulator.py:2313-2314 | The tracker's count is the number of those fills, which a tick of the armed tracker, and nothing else, sets back to 0 |
| GapBudget.DroppedExactlyWhen | rigplane_testkit/icom/simulator.py:2315-2329 | In every run a tick drops a missing number if and only if the knob is on, a packet past the frontier came, and this is the `drop_after`-th such tick in a row at which the number is missing |
| GapBudget.FirstCopyStays | rigplane_testkit/icom/simulator.py:2194-2195 | A later copy of a held number never replaces the first; when the number is consumed the first copy is, unless the later one came just as the number was expected |
| GapBudget.HeldPacketStays | rigplane_testkit/icom/simulator.py:2194-2195 | Over whole runs: as long as a number stays held, it is with the packet it was first held with |
| GapReceiver.Receiver.DrainPackets | rigplane_testkit/icom/simulator.py:2220-2242 | The drain loop pops held packets in number order, only with nothing missing |
| GapReceiver.Receiver.OpenGap | rigplane_testkit/icom/simulator.py:2190-2193 | The marking loop adds exactly the skipped numbers that are not held |
| GapReceiver.Receiver.GateAheadPacket | rigplane_testkit/icom/simulator.py:2166-2211 | The ahead branch in place: budget, fill, open, hold, round or drain |
| GapReceiver.Receiver.GatePacket | rigplane_testkit/icom/simulator.py:2115-2218 | The gate in place, with its verdict |
| GapReceiver.Receiver.AcceptPacket | rigplane_testkit/icom/simulator.py:2018-2027 | Gate, process and drain as one step of the model |
| GapReceiver.Receiver.TickLoop | rigplane_testkit/icom/simulator.py:2307-2334 | One tracker's share of a loop tick, with its counting and dropping |
| GapReceiver.Receiver.Inherit | rigplane_testkit/icom/simulator.py:1349-1358 | A seeded tracker holds frontier and gap list of the orphan, nothing held, not armed |
| SessionFence.WhoIsServed | rigplane_testkit/icom/simulator.py:1921-1960 | While fenced, the stream owner and the tracked identities grow only by an allowed open |
| SessionFence.WhoIsGranted | rigplane_testkit/icom/simulator.py:1785-1799 | The permission changes only at an accepted conninfo of the last login, not carrying a retired token |
| SessionFence.WhoIsProcessed | rigplane_testkit/icom/simulator.py:2012-2027 | A frame is processed only in a packet of its own sender, which the fence admits |
| SessionFence.FenceHolds | rigplane_testkit/icom/simulator.py:1116-1204 | Over every run after a reboot or drop: the fence stays, and permission, owner and trackers all trace to that event |
| SessionFence.FenceSafety | rigplane_testkit/icom/simulator.py:1845-1876 | Every CI-V frame processed after the event, directly or by a drain, comes from an identity that since then opened from the IP and declared port of an accepted conninfo of the last login with no retired token |
| SessionFence.PingsBehindFence | rigplane_testkit/icom/simulator.py:1903-1912 | Outside a keepalive-silence window: after a drop every CI-V ping is answered, fenced or not; after a reboot none from an identity that has not opened since |
| SessionFence.FenceLiftedBy | rigplane_testkit/icom/simulator.py:1785-1799 | Whoever lifts the fence logged in since the event or was the last login before it (exact condition: `FreshLoginIff`) |
| SessionFence.GrantIff | rigplane_testkit/icom/simulator.py:1785-1799 | With no permission in force, an event grants one if and only if it is a conninfo that is heard, comes from the last login, carries no retired token, and is accepted |
| SessionFence.GrantedIffGrants | rigplane_testkit/icom/simulator.py:1384-1422 | The same, for the events of a run that `FenceSafety` traces permissions to; accepted means past the busy window and, in single-owner mode, free or own session and CI-V available |
| SessionFence.FreshLoginIff | rigplane_testkit/icom/simulator.py:1057-1066 | From any state, a reboot or drop keeps "only a fresh login lifts the fence" over everything that can follow if and only if nobody had logged in before or no unretired token is left |
| SessionFence.FenceLiftsWithoutFreshLogin | rigplane_testkit/icom/simulator.py:1697-1702 | The other case to the end, from any state, mode and event: with no login since, the last login sends a conninfo with any unretired token, opens, and its frame is processed |
| SessionFence.FenceLiftsForFreshLogin | rigplane_testkit/icom/simulator.py:1859-1876 | Liveness, in both modes: login, conninfo with any unretired token and open from the declared port (or any port of the IP when 0) make the client the served stream owner; its next frame is processed unless it inherits an orphan or the radio is in standby |
| SessionTokens.TokensDiffer | rigplane_testkit/icom/simulator.py:1271-1281 | Fewer than 2^32 retirements apart, two epochs never share a token |
| SessionTokens.TokensRepeat | rigplane_testkit/icom/simulator.py:1281 | At 2^32 they do |
| SessionTokens.StepTokens | rigplane_testkit/icom/simulator.py:1271-1281 | A step leaves the epoch alone or retires exactly the current token |
| SessionTokens.EveryEndRetires | rigplane_testkit/icom/simulator.py:1271-1279 | Every step that ends a held session leaves it free and retires its token |
| SessionTokens.TokenHistory | rigplane_testkit/icom/simulator.py:1271-1281 | After any run the live token is that of the current epoch and the retired set is that of all earlier ones |
| SessionTokens.LiveTokenNeverRetired | rigplane_testkit/icom/simulator.py:1697-1702 | Below 2^32 retirements the live token is never refused as retired |
| SessionTokens.RenewalNamesItsEpoch | rigplane_testkit/icom/simulator.py:1684-1695 | A renewal is answered OK if and only if it carries the current epoch's token |
| SessionOwner.TimerRun | rigplane_testkit/icom/simulator.py:1293-1304 | On every run: owner set if and only if the timer is armed, for the hold past the last refresh |
| SessionOwner.HandoverThroughNone | rigplane_testkit/icom/simulator.py:1384-1422 | Between two different owners the session is free at some step, and its token retired there |
| SessionOwner.ForeignControlTraffic | rigplane_testkit/icom/simulator.py:1667-1840 | No foreign control packet ends, transfers or re-times a held session (but for a renewal with the live token); a foreign conninfo changes nothing; only a login clears trackers |
| SessionOwner.DecidedEnds | rigplane_testkit/icom/simulator.py:1758-1770 | Token-remove and disconnect of the owner and close of the stream owner end the session at once, retire the token and drop the orphan |
| SessionOwner.OwnerRefreshes | rigplane_testkit/icom/simulator.py:1379-1382 | The owner's pings, acks, renewals and conninfos, and anyone's live-token renewal, re-arm the hold and keep the stream |
| SessionOwner.HoldExpires | rigplane_testkit/icom/simulator.py:1306-1312 | A hold that was not refreshed ends the session when the timer runs, and not before |
| SessionOwner.KeptAliveHolds | rigplane_testkit/icom/simulator.py:1293-1312 | Over whole runs: an owner refreshed less than a hold before each run of the timer keeps the session and its token until somebody decides to end it |
| SessionOwner.HeldThroughoutIff | rigplane_testkit/icom/simulator.py:1293-1312 | Exactly: with no decided end, the session is held throughout if and only if every run of the timer finds it refreshed less than a hold ago |
| SessionOwner.SoundRun | rigplane_testkit/icom/simulator.py:1314-1360 | On every run from power-on, every client's tracker and every kept orphan is sound |
| SessionOwner.OrphanHistory | rigplane_testkit/icom/simulator.py:1314-1334 | A kept orphan is always what the latest hold expiry left, undisturbed since |
| SessionOwner.OrphanProvenance | rigplane_testkit/icom/simulator.py:1336-1360 | Inherited state is the frontier and gap list of a session whose hold expired on its own, with no session end and no seeding since, within the expiry; the seeding consumes it |
| SessionOwner.SeedsIff | rigplane_testkit/icom/simulator.py:1336-1360 | An open inherits if and only if it is heard, allowed, of an untracked identity, and an unexpired orphan is kept |
| SessionOwner.HoldExpiryIsInherited | rigplane_testkit/icom/simulator.py:1306-1360 | The other direction, end to end: the hold of a tracked stream owner runs out, and a new identity opening within the expiry inherits its frontier and gap list |
| SessionOwner.OneOrphanOneTracker | rigplane_testkit/icom/simulator.py:1349-1360 | Between two seedings another hold must run out |
| SessionOrder.TrackerFollows | rigplane_testkit/icom/simulator.py:1878-2027 | A client's tracker in a session run is the run of a fresh tracker over that client's packets and the loop ticks, whatever else happens |
| SessionOrder.FramesInSequence | rigplane_testkit/icom/simulator.py:1966-2027 | From the open that starts it to the end of its tracker, the frames processed for a client are those of DATA packets it sent, with strictly ascending numbers, for any order, loss, repetition, standby and foreign traffic |
| SessionOrder.AllFramesInSequence | rigplane_testkit/icom/simulator.py:1966-2027 | Once all of f..f+n came in, out of standby, the frames processed are all the DATA of a log numbered exactly f..f+n |
| SessionOutage.StepWindows | rigplane_testkit/icom/simulator.py:1116-1162 | Only the radio's own events move a window or the standby switch, to where the event says; the busy window starts when the darkness ends |
| SessionOutage.DarkHearsNothing | rigplane_testkit/icom/simulator.py:1578-1579 | From a reboot or the end of its notice until `down_for` later no packet on either port has any effect or answer, in any run |
| SessionOutage.NoticeHearsLittle | rigplane_testkit/icom/simulator.py:1580-1586 | For 20 ms after a power-off notice nothing but discovery and pings has any effect or answer |
| SessionOutage.DiscoveryIsAnswered | rigplane_testkit/icom/simulator.py:1605-1619 | Whenever the radio is not dark, notice or not: Are-You-There and Are-You-Ready are answered on both ports, control pings outside a silence window |
| SessionOutage.HeardAgain | rigplane_testkit/icom/simulator.py:1578-1586 | Once both are over, a conninfo with an unretired token gets exactly one answer |
| SessionOutage.BusyAfterDark | rigplane_testkit/icom/simulator.py:1396-1402 | In the `busy_for` after the darkness every heard conninfo with an unretired token is refused as busy and leaves everything as it was, in both ownership modes |
| SessionOutage.ServedAfterBusy | rigplane_testkit/icom/simulator.py:1404-1422 | From then on: accepted in default mode; else busy for a foreign session, not ready while the CI-V port is out of service, and accepted for a free or own one, which it claims; refusals change nothing |
| SessionOutage.AcceptedClaims | rigplane_testkit/icom/simulator.py:1362-1377 | An accepted conninfo holds the session for a whole hold; trackers and stream owner start over if and only if the client did not hold it before; token, retired tokens and orphan stay |
| SessionOutage.NotReadyUntil | rigplane_testkit/icom/simulator.py:1416-1418 | The CI-V port is refused as not ready exactly until the time that was set last |
| SessionOutage.PingsInSilence | rigplane_testkit/icom/simulator.py:1717-1723 | A heard ping, on the control port or of an unfenced client on the CI-V port, is answered if and only if the latest silence window is over |
| SessionOutage.StandbyProcessesNothing | rigplane_testkit/icom/simulator.py:1026-1038 | From the switch into standby to its next turn no event processes a frame or announces a stream |
| SessionOutage.DiscoveredIff | rigplane_testkit/icom/simulator.py:1704-1708 | An id is discovered if and only if it sent a heard Are-You-There on the control port and no heard disconnect since |
| SessionOutage.LoginAnswered | rigplane_testkit/icom/simulator.py:1725-1750 | Over a run: a login is ignored while discovery is required and not made or taken back, refused when authentication fails, else accepted; only an accepted one changes anything |
| SessionOutage.RetiredTokenIgnored | rigplane_testkit/icom/simulator.py:1697-1702 | Everything but a renewal that carries a retired token has no effect and no answer |
| SessionOutage.OnlyAckIsAnswered | rigplane_testkit/icom/simulator.py:1752-1782 | Of token acks, removes and disconnects only the ack is answered |
| SessionOutage.EpochEndsIff | rigplane_testkit/icom/simulator.py:1271-1281 | A step changes the token, and retires the old one, if and only if it is one of the listed ends: the owner's remove or disconnect, in default mode a remove with the live token, the stream owner's close of a held session, an expired hold, a reboot, a drop, the test helper |
| SessionOutage.OpenAnswered | rigplane_testkit/icom/simulator.py:1921-1953 | A heard open is without effect when the fence holds its sender off; else the sender owns the stream and gets the stream marker, but for standby |
| SessionOutage.UntrackedServed | rigplane_testkit/icom/simulator.py:2012-2027 | DATA of a client whose stream never opened is processed at once, unless fenced off or in standby; its idle packets do nothing |
| SessionOutage.FreedAtOnce | rigplane_testkit/icom/simulator.py:1015-1024 | The test helper frees the session with all that a decided end takes along, and leaves stream and fence |
| Simulator.MockIcomRadio.KeepCivOrphan | rigplane_testkit/icom/simulator.py:1314-1334 | The orphan is a copy; live trackers stay |
| Simulator.MockIcomRadio.HoldTimerFires | rigplane_testkit/icom/simulator.py:1306-1312 | Keep, release, retire as one step |
| Simulator.MockIcomRadio.ClaimSession | rigplane_testkit/icom/simulator.py:1362-1377 | A new owner starts numbering and stream over; a refresh keeps both |
| Simulator.MockIcomRadio.StatusFor | rigplane_testkit/icom/simulator.py:1384-1422 | The conninfo verdict and its claim |
| Simulator.MockIcomRadio.SeedFromOrphan | rigplane_testkit/icom/simulator.py:1336-1360 | The tracker map after an open of a known or a new identity |
| Simulator.MockIcomRadio.ControlPacket | rigplane_testkit/icom/simulator.py:1667-1840 | The control-port handler, branch by branch |
| Simulator.MockIcomRadio.CivPacket | rigplane_testkit/icom/simulator.py:1878-2027 | The CI-V-port handler, branch by branch |
| Simulator.MockIcomRadio.StartReboot | rigplane_testkit/icom/simulator.py:1116-1156 | A reboot, with or without the notice window |
| Simulator.MockIcomRadio.DropSession | rigplane_testkit/icom/simulator.py:1187-1204 | A radio-initiated drop |
| Simulator.MockIcomRadio.GapLoopTick | rigplane_testkit/icom/simulator.py:2302-2334 | A tick over all trackers, each of them once |
| Simulator.MockIcomRadio.OnPacket | rigplane_testkit/icom/simulator.py:1564-1603 | A datagram is one step of the session model: dark, nothing is heard; in the notice window only discovery and pings |
| FrameFilter.ScanSound | rigplane_testkit/serial/civ_filter.py:48-95 | One feed conserves the bytes, allows only whole frames the guard accepts, and keeps at most 128 bytes |
| FrameFilter.FeedSound | rigplane_testkit/serial/civ_filter.py:48-95 | The same for every input and chunking: outputs plus buffer are the input; allowed entries are FE FE, a body with no FD and no FE FE, FD |
| FrameFilter.ScanAgrees | rigplane_testkit/serial/civ_filter.py:60-95 | Under the length bound, one feed finds the frames of the segment-wise reference |
| FrameFilter.ChunkingIndependent | rigplane_testkit/serial/civ_filter.py:48-95 | If no run from a preamble to its FD or to the end exceeds 128 bytes, frames and verdicts are those of the whole input, for every chunking |
| FrameFilter.LongFrameDependsOnChunking | rigplane_testkit/serial/civ_filter.py:72-83 | The bound is needed: every longer frame is found in one chunk and lost when its FD comes alone |
| FrameFilter.CivFrameFilter.Feed | rigplane_testkit/serial/civ_filter.py:48-95 | The in-place loop terminates and computes the scan |
| FrameFilter.CivFrameFilter.TakeFrame | rigplane_testkit/serial/civ_filter.py:71-94 | One round of the loop from a preamble at the head: wait, block or emit, each time on a shorter buffer |
| CivFraming.SkipGarbage | rigplane_testkit/serial/civ_filter.py:61-70 | Dropping bytes before a preamble changes neither the frames nor what is remembered |
| CivFraming.KeptSuffices | rigplane_testkit/serial/civ_filter.py:62-67 | What a splitter keeps of an unfinished segment determines everything that follows |
| CivFraming.Continue | rigplane_testkit/serial/recorder.py:50-81 | A stream continues from its open last segment |
| LineFilter.RefinesSplitThenFilter | rigplane_testkit/yaesu/recorder.py:169-188 | With a guard that rejects lines over 65 bytes, the allowed lines of any chunking are the lines of the whole input that the guard accepts |
| LineFilter.RefinesIff | rigplane_testkit/yaesu/recorder.py:169-188 | It refines split-then-filter for all inputs and chunkings if and only if the guard rejects every longer line |
| LineFilter.FeedSound | rigplane_testkit/yaesu/recorder.py:169-188 | For every guard and chunking: bytes conserved, at most 64 kept, allowed entries are whole accepted lines, never the tail of an oversized one |
| LineFilter.LongLineDependsOnChunking | rigplane_testkit/yaesu/recorder.py:184-187 | Any longer line a guard accepts passes in one chunk and is blocked when its `;` comes alone |
| LineFilter.CatLineFilter.Feed | rigplane_testkit/yaesu/recorder.py:169-188 | The in-place feed computes the scan |
| LineFilter.CatLineFilter.CutLines | rigplane_testkit/yaesu/recorder.py:179-183 | Its loop cuts every terminated line |
| FrameReassembly.TakeIsReference | rigplane_testkit/serial/recorder.py:66-81 | What the inner loop takes from a buffer are the buffer's frames, and what it keeps is what the rest needs |
| FrameReassembly.ChunkingIndependent | rigplane_testkit/serial/recorder.py:50-81 | Per direction, the frames are those of that direction's whole byte stream, however chunks split, join and interleave |
| FrameReassembly.CompletedWellFormed | rigplane_testkit/serial/recorder.py:70-80 | Every frame is FE FE ... FD with no FD inside |
| FrameReassembly.StampedOnCompletion | rigplane_testkit/serial/recorder.py:50-81 | A frame carries the time and direction of the chunk that completed it, and later chunks change nothing about it |
| FrameReassembly.TakeFrames | rigplane_testkit/serial/recorder.py:66-81 | The inner loop |
| FrameReassembly.CivFrames | rigplane_testkit/serial/recorder.py:50-81 | The whole loop yields each frame with the chunk that completed it |
| WindowExtract.EachRequestOnce | rigplane_testkit/serial/fixtures.py:148-152 | Every distinct client request is decided exactly once, in order of first arrival, for any interleaving |
| WindowExtract.ClosingsEchoFirst | rigplane_testkit/serial/fixtures.py:174-178 | A reply with the bytes of its own request was preceded by that request's echo |
| WindowExtract.WalkOrder | rigplane_testkit/serial/fixtures.py:148-194 | Requests leave the queue in the order they entered it |
| WindowExtract.EachGetsItsReply | rigplane_testkit/serial/fixtures.py:128-141 | For a radio described by labels alone (it answers pipelined requests in order with an ACK or NAK, data that extends the request, or its command repeated; echoes, waves, unsolicited frames and unanswered requests in between), the k-th request is closed with the radio's reply to it, or with none |
| WindowExtract.MatchIs | rigplane_testkit/serial/fixtures.py:128-142 | The frame that answers request k, by body or by command, is matched to it and to no older or newer one |
| WindowExtract.ClosesExactly | rigplane_testkit/serial/fixtures.py:128-142 | In bytes: an ACK or NAK closes the oldest request, data the first request whose body it begins with, failing that the first with the same first two bytes, else none |
| WindowExtract.OnlyWavesPass | rigplane_testkit/serial/fixtures.py:155-173 | Of the frames that extend the oldest request exactly the scope waves (27 00, longer than 9 bytes) close nothing |
| WindowExtract.ExtractedRowsAreEntries | rigplane_testkit/serial/fixtures.py:144-194 | Every row is an entry of the recording, with its own time and direction; echoes and replies are entries from the radio |
| WindowExtract.Extractor.Frame | rigplane_testkit/serial/fixtures.py:144-192 | One turn of the loop, in place |
| WindowExtract.ExtractWindow | rigplane_testkit/serial/fixtures.py:81-194 | The pair rows are the rows of all closings, unanswered requests included; the echo flag says whether any request was echoed, and the blocked count is that of the blocked entries |
| SweepAssembly.WalkHolds | rigplane_testkit/serial/fixtures.py:161-172 | The sweep under assembly is always what the stream ends with |
| SweepAssembly.AssembledIffWhole | rigplane_testkit/serial/fixtures.py:161-172 | A sweep is assembled if and only if all its packets 1..n, announcing n, stand in the stream without a gap |
| SweepAssembly.WavesAreEntries | rigplane_testkit/serial/fixtures.py:155-160 | The packets walked are exactly the wave frames from the radio, their number and total the packed decimals of bytes 7 and 8 |
| SweepAssembly.AssembledFrames | rigplane_testkit/serial/fixtures.py:157-172 | An assembled sweep in bytes: frames of the recording, byte 7 of the j-th the packed decimal of j, byte 8 of each that of the length of the sweep |
| SweepAssembly.FirstSweepsAre | rigplane_testkit/serial/fixtures.py:166-170 | The rows kept are those of the first `scope_sweeps` sweeps, one sweep after the other |
| SweepAssembly.ScopeRows | rigplane_testkit/serial/fixtures.py:155-173 | The scope rows are those of the first `scope_sweeps` whole sweeps |
| AnswerTable.LongestPrefixUnique | rigplane_testkit/icom/replay.py:189-194 | The longest proper prefix exists if and only if some key is one, is the longest, and is unique |
| AnswerTable.LearnedConsistent | rigplane_testkit/icom/replay.py:271-287 | Writable keys are always registers |
| AnswerTable.AnswersRefineLastWrite | rigplane_testkit/icom/replay.py:289-304 | After any requests each register holds the remainder of the latest write to it, else its recorded value; everything else is as learned |
| AnswerTable.ReadReturnsLastWrite | rigplane_testkit/icom/replay.py:289-298 | Reading a register that no NAK or fixed entry hides returns its last write |
| AnswerTable.WriteThenRead | rigplane_testkit/icom/replay.py:299-304 | A write is acknowledged, read back, and touches no other register |
| AnswerTable.LearnedRemembers | rigplane_testkit/icom/replay.py:271-304 | Pairs with distinct bodies, once learned, are each answered as recorded |
| AnswerTable.LearnedIsLatest | rigplane_testkit/icom/replay.py:271-287 | With repeated bodies a table knows any NAK, the latest fixed reply and the latest register value of each body |
| AnswerTable.RecordedBodyAnswers | rigplane_testkit/icom/replay.py:289-304 | After any requests a recorded body is NAKed if it ever was, else gets its latest fixed reply, else its register's last write |
| AnswerTable.PairingRoundTrip | rigplane_testkit/icom/replay.py:246-269 | For any interleaving, pairing the extracted rows again gives exactly the pairs the extraction decided |
| AnswerTable.RecordingAnswersItself | rigplane_testkit/icom/replay.py:236-304 | When the decided bodies are distinct, the table built from a recording answers each of them as the radio did |
| AnswerTable.RawRecordingAnswersItself | rigplane_testkit/icom/replay.py:236-304 | The same from raw chunks, through re-assembly, extraction and learning |
| AnswerTable.ReplyIsAddressedBack | rigplane_testkit/icom/replay.py:306-312 | A reply goes to the requester, from the one it asked, carries exactly the answered body, and is a whole frame when that body holds no FD |
| AnswerTable.RecordingAnswersFrames | rigplane_testkit/icom/replay.py:289-312 | Byte for byte: a request addressed from the controller to the radio gets the very frame the radio sent in the recording |
| AnswerTable.EchoesIff | rigplane_testkit/icom/replay.py:251-255 | The rows of a window show an echoing transport if and only if a request among them was echoed |
| AnswerTable.RecordedAnswerTable.FromRows | rigplane_testkit/icom/replay.py:236-269 | The pairing loop, in place |
| AnswerTable.RecordedAnswerTable.LearnReply | rigplane_testkit/icom/replay.py:271-287 | Learning one reply, in place |
| AnswerTable.RecordedAnswerTable.AnswerFrame | rigplane_testkit/icom/replay.py:289-312 | Answering one frame, addresses swapped, registers updated in place |
| ReplyScheduler.RepliesKeepOrder | rigplane_testkit/serial/civ_serial.py:988-1026 | For any delays, fault replies, baud changes and closes, delivered non-fault replies are a subsequence of the answers in answer order |
| ReplyScheduler.DueTimesIncrease | rigplane_testkit/serial/civ_serial.py:1002-1013 | A scheduled reply is due after every pending non-fault one; with a positive delay, after every pending one and not before its delay |
| ReplyScheduler.ScheduleIncreases | rigplane_testkit/serial/civ_serial.py:1002-1026 | Over a whole run the due times of scheduled non-fault replies strictly increase |
| ReplyScheduler.NothingLost | rigplane_testkit/serial/civ_serial.py:988-1026 | On a link that stays open at one rate every reply is in flight or delivered |
| ReplyScheduler.DeliveredIff | rigplane_testkit/serial/civ_serial.py:977-1026 | For every answer of every run: one that waits reaches the host if and only if its timer ran while the link was open and at the rate set when it was answered; one that does not wait, if and only if the link was open |
| ReplyScheduler.InFlightIff | rigplane_testkit/serial/civ_serial.py:981-1026 | A reply that waits is in flight until its own timer runs or the link is closed; a change of the rate leaves it in flight |
| ReplyScheduler.ClosedIsSilent | rigplane_testkit/serial/civ_serial.py:977-986 | After a close the host receives nothing any more |
| ReplyScheduler.DueExactly | rigplane_testkit/serial/civ_serial.py:1006-1013 | A reply with a positive delay is due exactly that much later unless something is scheduled up to then, else right after the latest of everything; one without, at once or right after the latest non-fault reply due later |
| ReplyScheduler.FaultRepliesAreOvertaken | rigplane_testkit/serial/civ_serial.py:1002-1004 | A zero-delay answer overtakes a pending fault reply |
| ReplyScheduler.Connection.AnswerAfter | rigplane_testkit/serial/civ_serial.py:988-1026 | `deliver_after`, in place |
| ReplyScheduler.Connection.TimerFires | rigplane_testkit/serial/civ_serial.py:1016-1020 | The timer callback, in place |
| ReplyScheduler.Connection.CloseLink | rigplane_testkit/serial/civ_serial.py:981-986 | Closing drops everything in flight |
| FaultRule.Conservation | rigplane_testkit/icom/faults.py:136-214 | For all draws: emitted + held = passed + (matched - dropped) + duplicates; held below the window; held if and only if a deadline is set; matched at most `max_packets` |
| FaultRule.DropsEveryNth | rigplane_testkit/icom/faults.py:155-160 | Without drop probability, dropped = matched / `drop_every` |
| FaultRule.ReorderKeepsPayloads | rigplane_testkit/icom/faults.py:190-214 | A rule that only delays and reorders keeps every payload exactly once, for any shuffles |
| FaultRule.Acts | rigplane_testkit/icom/faults.py:149-204 | A rule that acts drops the packet on its n-th match or draw, or else makes of it the packet or its corrupted form, cut to its first `truncate_to` bytes when that draw hits, at delay plus jitter, and maybe a duplicate with the same bytes; these go out, are held, or leave with all that was held |
| FaultRule.PassesThrough | rigplane_testkit/icom/faults.py:125-148 | A rule past `max_packets` or `duration_s` lets everything held out and the packet through, untouched and undelayed |
| FaultRule.ActsExactly | rigplane_testkit/icom/faults.py:125-151 | Over any run the rule acts on exactly the packets that come while fewer than `max_packets` were acted on and less than `duration_s` after the first of them |
| FaultRule.OverIsOver | rigplane_testkit/icom/faults.py:125-134 | On a clock that does not run backwards a rule that stopped acting never acts again |
| FaultRule.EmissionsStem | rigplane_testkit/icom/faults.py:136-214 | Over any run every emission, made or held, stems from a packet of the run: untouched where the rule did not act, else what that packet's draws make of its bytes at the delay they give |
| FaultRule.DelaysInRange | rigplane_testkit/icom/faults.py:178-190 | These delays lie between `delay_s` and `delay_s` plus jitter and duplicate delay |
| FaultRule.FaultRule.DecidePacket | rigplane_testkit/icom/faults.py:136-204 | `decide`, in place |
| FaultRule.FaultRule.Flush | rigplane_testkit/icom/faults.py:206-214 | `flush` empties the buffer into a permutation of it |
| AudioSource.WavSource.ReadBurst | rigplane_testkit/icom/rx_source.py:140-164 | After the silence, burst k is bytes 3840k..3840(k+1) of the endless repetition, or of the file padded with zeros |
| AudioSource.WavSource.ReadLooped | rigplane_testkit/icom/rx_source.py:148-164 | The looped branch, for files of any length from one frame on |
| AudioSource.WavSource.ReadOnce | rigplane_testkit/icom/rx_source.py:148-158 | The unlooped branch |
| AudioSource.WavSource.Reset | rigplane_testkit/icom/rx_source.py:128-138 | From the file head again |
| AudioSource.BurstClock.Turn | rigplane_testkit/icom/simulator_audio.py:534-559 | Deadlines stay on origin + 20 ms * j, a turn without a client passes its deadline unread, late skips land at most one period behind, and while there is a client exactly j-1 source bursts go before deadline j |
| EffectClosure.ResolveIsInnermost | rigplane_testkit/realtime_guard.py:359-368 | The fixture found is the one of the longest enclosing scope that has it |
| EffectClosure.ResolveFixture | rigplane_testkit/realtime_guard.py:359-368 | The scope loop |
| EffectClosure.ScopeIsBeforeLastDot | rigplane_testkit/realtime_guard.py:356-357 | The scope of a path is its dotted name up to the last dot |
| EffectClosure.AutouseApplies | rigplane_testkit/realtime_guard.py:370-378 | By the source's own test on dotted names: the module's autouse fixtures, those of the test's class, and those of every enclosing class apply, and no others |
| EffectClosure.EdgeIff | rigplane_testkit/realtime_guard.py:391-402 | An edge is a call to a module-level definition, a self-call within the same scope, or a parameter naming the fixture of the innermost enclosing scope that has one |
| EffectClosure.ReachesFrom | rigplane_testkit/realtime_guard.py:380-403 | The effects are those at the end of any chain of edges from the test or an applicable autouse fixture |
| EffectClosure.Closure | rigplane_testkit/realtime_guard.py:380-403 | The worklist terminates and returns exactly the effects of everything reachable from the test and its applicable autouse fixtures, in whatever order |
| ScopePump.PumpLooksAhead | rigplane_testkit/icom/simulator.py:2876-2913 | After every pump each streaming receiver is due in the future |
| ScopePump.CadenceHolds | rigplane_testkit/icom/simulator.py:2845-2913 | At unchanged speed the n-th wave never leaves before the first due time plus n-1 gaps, whatever the pumps, stalls and toggles |
| ScopePump.DueWithinOneGap | rigplane_testkit/icom/simulator.py:2861-2913 | At unchanged speed a due time is never more than one gap ahead of the clock |
| ScopePump.PumpServes | rigplane_testkit/icom/simulator.py:2876-2913 | So a pump one gap after everything before it sends a wave of every timed streaming receiver |
| ScopePump.StreamsIff | rigplane_testkit/icom/simulator.py:2845-2859 | After any run a receiver streams if and only if the owner is open, output is on, its waves are loaded, and dual mode is on or it was selected last |
| ScopePump.SpeedIs | rigplane_testkit/icom/simulator.py:2823-2834 | After any run SUB is fast and MAIN is at the speed set last, at first mid speed |
| ScopePump.PhaseKept | rigplane_testkit/icom/simulator.py:2889-2912 | No drift: undisturbed and with no pump a whole gap late, the n-th wave is due exactly n-1 gaps after the first and goes out less than a gap later |
| ScopePump.MissedIsGone | rigplane_testkit/icom/simulator.py:2881-2887 | A pump that finds the stream silenced or a whole gap late starts the phase over |
| ScopePump.SwitchesKeepPhase | rigplane_testkit/icom/simulator.py:2861-2874 | The switches keep the phase of a receiver that goes on streaming, a speed that is set starts MAIN over, new receivers start a gap later, nobody else is due, and the end of a session clears all |
| ScopePump.NoPeerNoWave | rigplane_testkit/icom/simulator.py:2881-2910 | No wave goes out unless a pump finds a peer and is not silenced |
| ScopePump.ScopeStream.RetimeAll | rigplane_testkit/icom/simulator.py:2861-2874 | `_scope_retime`, in place |
| ScopePump.ScopeStream.PumpStream | rigplane_testkit/icom/simulator.py:2876-2913 | `pump_scope_stream`, in place, with the receivers it sends for |

## Left out

- FrameFilter.ChunkingIndependent: one direction, under the 128-byte bound; the other is given for every single overlong frame (`LongFrameDependsOnChunking`), because an overlong run with a later preamble may still come out alike.
- SessionTokens.LiveTokenNeverRetired: for fewer than 2^32 retirements; at that number the tokens repeat (`TokensRepeat`).
- ReplyScheduler.RepliesKeepOrder: the `1e-6` step between due times is the constant 1 of an integer clock, so floating-point absorption of the step is not modelled.
- AudioSource.BurstClock.Turn: a stream with a source; packets built without one are left out.
- Simulator.MockIcomRadio.SeedFromOrphan: the eviction of idle trackers beyond 32 (`simulator.py:2105-2113`) is left out.
- Simulator.MockIcomRadio.StartReboot: the held notice window (`hold_notice_window`, `end_notice_window`) is left out; the start of darkness after a notice is an event of its own (`GoDark`) that may come at any time.
- Simulator.MockIcomRadio.OnPacket: the fault plan and the response delay in front of the handlers are left out, and messages arrive parsed.
- ScopePump.CadenceHolds: needs a monotone clock, as the source has; the waves' contents and template rotation are not modelled.
- FaultRule.ReorderKeepsPayloads: for rules without drops, duplicates, corruption and truncation; `flush_due_in` and the routing of streams in `FaultPlan` are left out.
- EffectClosure.Closure: takes the call graph as given; scanning Python sources, the virtual-clock and real-time marks and the baseline are left out.
- GapOrder.OrderIndependence: for a window below half the number circle (`WindowBoundIsTight`), and per tracker; the eviction of idle trackers beyond 32 (`simulator.py:2105-2113`) is left out, so theorems hold for a tracker's lifetime.
- A retransmit round is one event that stands for both copies of its packet; the theorems about rounds let every number arrive any number of times. The request log and counters are left out, and the CI-V listener is taken to exist.
- Sockets, asyncio, TCP and PTY pumps, file and JSON input and output, the aiohttp control server.
- CI-V command semantics: "process a DATA packet" is a log entry.
- Packet layouts other than the retransmit request; messages arrive already parsed.
- The session fields for audio formats, PTT, scope output and statistics, response delay, and the fault plan in front of the handlers.
- The power-off and drop notices themselves.
- Rows keep their exact times: the rounding to milliseconds when a row is written is left out.
- The unsolicited-frame and scope summaries of `extract_window`, and `merge_window`: in the merged file scope rows follow pair rows, so the round trip is for the pair rows of one window.
- `SweepAssembly` walks the recording on its own; in the source it is a branch of the loop that `WindowExtract` models, and the two share no variable.
- `ReplayResponder`, `cat_lines`, the regular-expression guard of the CAT recorder (any predicate stands for it), and the sub-command templates.
- The choice of a reply's delay (`_answer_delay_s`), scope streaming of the serial fake, and its inbound splitter, which drops a trailing lone FE and so does depend on chunking.
- Loading and resampling WAV files and the slot-start wait (its number of silent bursts is an input), packet headers and payload sizes of audio bursts.
- Web fixtures, documentation builders, generators and the redaction gate.
