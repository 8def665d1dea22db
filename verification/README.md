# RaspiProv: a verified model

RaspiProv lets a phone or laptop provision a Raspberry Pi over Bluetooth Low Energy: a browser page
scans for Wi-Fi networks through the Pi, picks one and has the Pi join it. This project models the parts
of it that have to get something right and proves what they promise.

* **Streaming scan** (`ScanStream`, `ScanService`, `ScanClient`, `ScanSystem`). A trigger write cancels
  the running stream task, awaits it and starts a new one; the task notifies `begin`, one `net` per
  network, then `end` or `err`; browser listeners fold the frames into a list and settle a promise. Code
  between two suspension points is one atomic step, and a requested cancel may land at any suspension or
  never. `ScanStream` is the service's step machine, `ScanService` the service object whose methods refine
  it, `ScanClient` the listener, and `ScanSystem` everything together: the service, a first-in first-out
  channel and any number of listeners, in any interleaving. `ScanAgreement` compares listeners, `ScanClock`
  puts the whole system on a clock, and `ScanPlay` holds the runs that show its bounds exact.
* **Scan reduction** (`Text`, `Terse`, `WifiScan`). From the text of `nmcli -t` to the list shown: line
  splitting, the escape-aware field splitter, the strongest network per SSID in a dictionary, a stable
  descending sort and a slice.
* **Connecting** (`NetworkManager`, `WifiConnect`, `WifiErrors`). A store of connection profiles and a sequence of
  nmcli commands, any of which may succeed, fail, or time out with or without having taken effect.
* **Around them**: shutdown, the status loop and the staged refreshes (`Lifecycle`), the background-rescan
  guard (`RescanGuard`), the browser's connect loop (`BleConnect`), the characteristic table
  (`GattTable`), and the legacy read: its size in bytes (`Utf8`, `LegacyRead`) and its JSON text from the
  service to the page (`LegacyReply`).

Check it with `dafny verify dfyconfig.toml` (Dafny 4.11).

## How the pieces meet

Objects that the program updates in place are classes here (`ProvisioningService`, `StreamWifi`,
`ServiceTasks`, `Scanner`, `Nmcli`, `PiBleClient`, `Peripheral`, `Characteristic`), and its loops are loops.
Where many tasks interleave, each method is one stretch of code between two suspension points, and its
`ensures` equates the object's new state with one step of a machine on values (`Apply`, `OnEvent`, `Next`,
`Do`). The theorems are then about every run of that machine.

Environment, as parameters: the outcome of every nmcli command (`world`), what `wifi.scan` returns to a
stream, when a cancel lands, what the channel loses, when timers fire, the delays of transport.

## Hypotheses

* **Serialised triggers.** A trigger write does not arrive while another trigger's handler is suspended.
  One ATT bearer gives this (Bluetooth Core Specification, Vol 3, Part F, section 3.3.2).
  `ExclusionNeedsSerialTriggers` shows that it is exactly what mutual exclusion of streams needs.
* **The channel** keeps order and loses nothing but `net` frames.
* **The profile store**: profile names are unique, and names and types hold no line break. Where a theorem
  also needs that no non-matching profile is named like the SSID, it says `NoNamesake`;
  `ForcingSparesOthersIff` shows that this too is exact. `StoreStaysOkIff` says when a connect leaves the
  store such that the next one finds it so again.
* A listener *gave up* if its 20 s timer fired before anything settled it, or its subscription failed first
  (`ScanSystem.GaveUp`); the theorems that say a listener is resolved except these two and nothing else, and
  `ScanClock` derives from bounds on the delays that the timer did not fire.
* Callbacks given to `streamWifi` do not throw, and every frame is valid JSON of a known type.

## Where the code and its documentation part ways

The model follows the code.

* `README.md:93-95` promises refreshes 2, 5 and 10 seconds after a connect. The sleeps are taken one after
  the other, so they come at 2, 7 and 17 seconds (`StagedRefreshTimes`), later still by the time the
  refreshes themselves take (`DelayedRefreshes`).
* `pi_ble_config/service.py:25-27` says the cap of five keeps the legacy read under 512 bytes.
  `FiveNetworksMayNotFit` gives a listing where it does not; `FitsIff` says exactly when it does.
* `pi_ble_config/service.py:127-133` promises a coherent sequence however fast triggers come. With
  overlapping handlers two streams can run at once, and only then (`ExclusionNeedsSerialTriggers`).
* `pi_ble_config/wifi.py:229-233` says every profile of the SSID is wiped. The comparison at line 186 sets
  nmcli's escaped, stripped output for the stored SSID against the raw requested one, so a stored SSID is
  found under its own name exactly when it has no `:`, no `\` and no whitespace at its edges
  (`MatchIsExactIffClean`). Profiles for any other SSID are never wiped by their own connects and pile up
  (`UncleanPilesUp`, `ExactlyOneProfileIff`; `ConnectedAgain` is the run). And they can be wiped by another
  network's: what counts is the stored SSID, not the requested one, so that the clean request "Home" takes the
  profile of "Home " with it (`TrailingBlankMatches`), for nothing if its password is then rejected
  (`OtherNetworkLost`). Profiles of other networks are safe from every request if and only if each stored
  Wi-Fi SSID is clean or reads as blank (`OnlyOwnMatchedIff`, `OtherNetworksKept`).
* A password of the wrong length is rejected only after the wipe (`pi_ble_config/wifi.py:258-280`).
  `RejectedPassword` shows what that leaves, `WorkingProfileIsLost` a store that loses its working profile,
  and `RejectionHarmlessIff` says that nothing is lost if and only if no profile matched.
* `shutdown` cancels the stream task it saw when it was called. If a trigger handler is suspended at that
  moment, it can start a new stream after `shutdown` has returned, the closing of the peripheral included
  (`ShutdownLeaksIff`); what the disconnected bus makes of that stream's notifications is not modelled.
* An `end` of a stream already under way settles a listener that attached too late with what is left of
  that stream (`WholeListIff`; `StaleEndKeepsPart` is a history in which it does); the `n` in `end` is never
  looked at.
* A weaker access point in use loses its flag to a stronger one of the same SSID
  (`InUseFlagFollowsStrongest`).

## Main results

Every run, both directions where it says so: `StreamsNeverInterleave`, `EveryTriggerCounts`,
`ExclusionNeedsSerialTriggers`, `StreamSettles` with `ListenerOutcome`, `WholeListIff`, `EndToEnd`,
`NextStreamResolves`, `ListenersAgree`, `LossyStream`, `AnswersInTime` with `TimeoutIff` (scanning); `RoundTrip`,
`EveryCharacterAccounted`, `ScanShowsWhatIsThere` with `ScanIsTheOnlyResult` (reading nmcli); `Connect` with
`ConnectFrame`, `ForcingSparesOthersIff`, `ExactlyOneProfileIff`, `OnlyOwnMatchedIff`, `RejectionHarmlessIff`,
`StoreStaysOkAfterWipeIff` (connecting);
`StatusLoopRefreshes`, `StagedTaskRefreshes`, `QuietAfterShutdown`, `ShutdownReturns`, `ShutdownLeaksIff`,
`LoopsEnd` (lifecycle); `OnReadScan` (legacy read). The last rows of the table are small facts
that the sections above refer to.

## Model

| member | source | states |
|---|---|---|
| `ScanStream.StreamsNeverInterleave` | pi_ble_config/service.py:127-177 | In every run with serialised triggers, whether or not cancels land, the notifications are the tasks' blocks one after the other, each a prefix of begin, nets, end(count) or begin, err; only the newest task may be live. |
| `ScanStream.OnlyTheNewestBlockGrows` | pi_ble_config/service.py:134-142 | From any state of such a run on, finished tasks stay exactly as they are, the log only grows, and of all blocks only the newest can still get a frame. |
| `ScanStream.InvStep` | pi_ble_config/service.py:127-181 | Every atomic step (trigger, resumed handler, resumed task, landed cancel, crash) keeps the invariant behind both. |
| `ScanStream.TaskBlockLegal` | pi_ble_config/service.py:144-177 | A task's block is legal wherever the task stands, holds one begin, at its start, and a terminator only as its last frame, which it has exactly when the task ended by itself. |
| `ScanStream.StreamsEnd` | pi_ble_config/service.py:144-177 | In every serialised run whose scans return at most 30 networks no stream task is resumed more than 33 times, and one resumed so often is over, so the handler awaiting it can go on. |
| `ScanStream.StreamsAreFinite` | pi_ble_config/service.py:144-177 | The step behind it: every resumption uses up one of those left to the task. |
| `ScanStream.EveryTriggerCounts` | pi_ble_config/service.py:134-142 | In every run, serialised or not, streams started plus handlers waiting grow by exactly the number of triggers: no trigger is dropped and none counts twice. |
| `ScanStream.TriggerActs` | pi_ble_config/service.py:135-142 | In any state of a serialised run a trigger at once asks the running stream to cancel and awaits it, and no other; with none running a new stream stands ready; nothing is notified. |
| `ScanStream.HandlerGoesOnIff` | pi_ble_config/service.py:137-142 | The waiting handler goes on if and only if the stream it awaits is over, which a landing cancel makes it; then a new stream stands ready. |
| `ScanStream.ExclusionNeedsSerialTriggers` | pi_ble_config/service.py:135-142 | In any state of a serialised run, one more trigger keeps streams exclusive on every continuation if and only if no handler is suspended when it arrives. |
| `ScanStream.OverlapBreaksExclusion` | pi_ble_config/service.py:135-142 | The run that shows it while the stream is live: two handlers awaiting one task each start a stream, and two begins stand side by side. |
| `ScanStream.LateTriggerBreaksExclusion` | pi_ble_config/service.py:135-142 | And after the awaited stream is over but before its handler goes on: the new trigger starts a stream at once, the handler another. |
| `ScanService.ProvisioningService.OnWriteScan` | pi_ble_config/service.py:127-139 | The trigger handler up to its await is the machine's trigger step: cancel and wait if the task is live, else start one; `TriggerActs` and `EveryTriggerCounts` say what that step comes to. |
| `ScanService.ProvisioningService.ResumeWriteScan` | pi_ble_config/service.py:140-142 | After the await it starts exactly one new task. |
| `ScanService.ProvisioningService.ResumeStream` | pi_ble_config/service.py:144-177 | The stream coroutine between two suspensions is one run step of the machine. |
| `ScanService.ProvisioningService.NotifyScan` | pi_ble_config/service.py:179-181 | One frame to the channel and to the task's block, without suspending. |
| `ScanService.ProvisioningService.SendNetworks` | pi_ble_config/service.py:165-174 | One net frame and 50 ms of sleep per network, in list order. |
| `ScanService.ProvisioningService.StreamScan` | pi_ble_config/service.py:144-177 | An undisturbed stream notifies begin, the scan's list and its count, or begin and the error; it sleeps 50(n+1) ms beside the scan, and each frame leaves at its own recorded time. |
| `ScanService.ProvisioningService.EndStream` | pi_ble_config/service.py:157-159 | A landed cancel or an escaping exception ends the task without a terminator. |
| `ScanService.UndisturbedStream` | pi_ble_config/service.py:144-177 | The coroutine as a whole and the step machine reach the same end, in n + 3 resumptions; the sleeps stay within 1550 ms. |
| `ScanService.ResolvesBeforeTimeout` | web/ble.js:299-302 | With the send times of `StreamScan`, in-order delivery within a delay, and any leftovers before it that hold no terminator: if start, scan and delay take less than 18450 ms together, the client settles before its 20 s timer, on the scan's list of at most 30 or on its error, whose text is "scan error" if it has none. |
| `ScanService.PipelineResolves` | pi_ble_config/service.py:151-177 | For all access points whose SSIDs and security names are on one line: rendering, parsing, reduction, streaming and the client's fold end in the declarative list of the networks there are, the first 30. |
| `ScanClient.StreamWifi.Handler` | web/ble.js:256-297 | One notification: begin empties the list, net appends, end and err clean up, call back and settle; nothing happens once detached. `BlockIsTold` and `ErrorIsTold` say what the page is told by it. |
| `ScanClient.StreamWifi.Timeout` | web/ble.js:299-307 | The timer detaches and rejects. |
| `ScanClient.StreamWifi.AfterSubscribe` | web/ble.js:309-315 | A failed subscription cleans up before throwing. |
| `ScanClient.StreamWifi.AfterWrite` | web/ble.js:317-321 | A failed trigger write throws and leaves handler and timer in place; after a good one `done` is what the caller gets (`FailedWriteReturns`, `CallReturns`). |
| `ScanClient.SettlesAtMostOnce` | web/ble.js:249-322 | In every life of a listener the promise settles at most once, is rejected only by a remote error or the timer, and handler and timer are there or gone together. |
| `ScanClient.DetachedIsSilent` | web/ble.js:304-307 | A detached listener makes no callback and keeps its outcome and list, whatever arrives. |
| `ScanClient.ReturnedSettlesOnce` | web/ble.js:310-321 | The promise `streamWifi` returns, its own error if it threw and else `done`, settles once and for all in every life. |
| `ScanClient.CallReturns` | web/ble.js:249-322 | Subscription and write succeed and a whole block comes: the call returns a promise resolved with the block's networks, and the page was told begin, each network with its number, and the count. |
| `ScanClient.FailedWriteReturns` | web/ble.js:317-321 | A failed trigger write is the result of the call, whatever comes then; handler and timer are left behind. |
| `ScanClient.FailedSubscriptionReturns` | web/ble.js:309-315 | So is a failed subscription, which leaves nothing behind, and the page is told nothing. |
| `ScanClient.BlockIsTold` | web/ble.js:267-287 | Any attached listener that hears a whole block makes exactly the callbacks onBegin, onNetwork(nets[i], i + 1) in order, onEnd(count). |
| `ScanClient.ErrorIsTold` | web/ble.js:267-293 | One that hears begin and err calls onBegin and onError, detaches, and rejects with the message, or with "scan error" if that is empty. |
| `ScanClient.HearBlock` | web/ble.js:267-287 | After anything without a terminator, a full block resolves the listener with exactly its networks, in order. |
| `ScanClient.SameBeginSameOutcome` | web/ble.js:267-293 | Two listeners that hear the same frames from a begin on agree on list and outcome, whatever they heard before. |
| `ScanClient.LossKeepsOrder` | pi_ble_config/service.py:29-33 | If only net frames are lost, the outcome is of the same kind and the list an in-order subsequence. |
| `ScanClient.LossyStream` | web/ble.js:267-287 | Then the resolved list still has distinct SSIDs and descending signals, and at most n networks. |
| `ScanSystem.SystemStep` | web/ble.js:256-307 | Every step of service, channel and listeners keeps the invariant tying each listener to the frames sent past it. |
| `ScanSystem.StreamSettles` | web/ble.js:256-307 | In every reachable state: when the end of stream i is the first to have gone by since a listener attached, the listener is detached, and unless its timer fired before or its subscription failed it settled there, on what that stream sent after it attached. |
| `ScanSystem.ListenerOutcome` | web/ble.js:283-287 | Conversely a resolved listener resolved at the first end of a stream since it attached, that stream completed, and the list is the networks it notified after the listener attached; under loss an in-order subsequence of them. |
| `ScanSystem.ListenerRejection` | web/ble.js:288-293 | A listener rejected by the remote side met, as the first end since it attached, that of a failed stream, and carries its message. |
| `ScanSystem.WholeListIff` | web/ble.js:283-287 | Without loss, a listener that did not give up and whose first end is that of a completed stream is resolved, with the whole list if and only if it attached before the stream's first net. |
| `ScanSystem.StaleEndKeepsPart` | web/ble.js:283-287 | For any two networks, a lossless history in which a listener that attached late is resolved with the second alone, while the stream sent both. |
| `ScanSystem.TerminatorReleases` | web/ble.js:283-302 | Once the end of any stream k has gone by since a listener attached, the listener is released, timer and all, and was settled at the first such end, of a stream no later than k, unless it had given up. |
| `ScanSystem.QuietListenerResolves` | web/ble.js:249-322 | A listener attached while nothing runs and nothing is in flight is resolved with the complete sorted list of the first stream since that was not aborted, once its end has arrived, if that stream completed and the listener did not give up. |
| `ScanSystem.QuietListenerIsExact` | web/ble.js:249-322 | Conversely it resolves only with the complete sorted list of a later stream, at that stream's end, the first since it attached. |
| `ScanSystem.NextStreamResolves` | web/ble.js:249-322 | The same from the call on: `streamWifi` is called in any reachable state in which no stream is live and all is delivered; whatever happens then, the first stream since that was not aborted is what it resolves with, once its end has arrived, if that stream completed, nothing was lost and the listener did not give up. |
| `ScanSystem.LostNetIsMissing` | pi_ble_config/service.py:29-33 | For any two networks, a history in which the channel loses the first and the listener resolves with the second alone. |
| `ScanSystem.EndToEnd` | pi_ble_config/service.py:151-177 | In every reachable state without loss: if stream i completed and its scan read what nmcli lists of some access points, each listener that attached before its begin, met no terminator until then and did not give up is resolved once the end has gone by, with the access points' own reduction: per SSID the first strongest, strongest first, the first 30, signal, security and in-use flag as they are. |
| `ScanSystem.TableToPage` | pi_ble_config/service.py:151-177 | The same for any table of raw rows, whatever stands in the signal and in-use columns. |
| `ScanAgreement.ListenersAgree` | web/ble.js:267-293 | In every reachable state, over a lossy channel too, two listeners attached before the same begin, with no terminator until it and neither having given up, hold the same list or error once that stream's end has gone by. |
| `ScanClock.StreamOverInTime` | pi_ble_config/service.py:144-177 | On the clock, 1550 ms plus the scan, 33 times the lateness of resumptions and the channel's lag after it started, a stream is over and all its frames have left the channel. |
| `ScanClock.NoTimeoutBefore` | web/ble.js:299-302 | A listener does not time out if that moment lies before its 20 s are over and the stream's end is the first it met. |
| `ScanClock.AnswersInTime` | web/ble.js:249-322 | So, without supposing that anything arrived or that no timer fired: once the time is up, each listener that attached before the begin of a stream that completed, in time, with no terminator until it, and subscribed, holds the stream's whole list if nothing was lost. |
| `ScanPlay.TimeoutIff` | web/ble.js:299-302 | The bound is exact: a stream of 30 networks can complete without loss and the listener that waited for it from the start have timed out, if and only if start, 1550 ms, scan, 33 times the lateness and lag can add up to 20 s. |
| `ScanPlay.PageGetsList` | pi_ble_config/service.py:144-177 | For every pace and every descending list of at most 30 networks: a run on the clock, everything as late as allowed, in which that list is what the call returns. |
| `Terse.ParseTerse` | pi_ble_config/wifi.py:52-71 | The loop over the line computes the splitter function the lemmas below are about, on every line. |
| `Terse.RoundTrip` | pi_ble_config/wifi.py:52-71 | Parsing the colon-joined escaped fields gives back any non-empty list of fields. |
| `Terse.ColonSeparates` | pi_ble_config/wifi.py:52-71 | A field without colon or backslash, and a colon: the field stands first and the rest is split by itself. |
| `Terse.BackslashQuotes` | pi_ble_config/wifi.py:52-71 | A backslash makes the next character content, whatever it is; alone at the end it stands for itself. |
| `Terse.ReprintIsCanonical` | pi_ble_config/wifi.py:52-71 | For every line, trailing lone backslash included, parse after print after parse is parse; lines parse alike exactly when they reprint alike. |
| `Terse.EveryCharacterAccounted` | pi_ble_config/wifi.py:52-71 | The fields run together are the line without its separators and escape marks, in order; fields are one more than separators; the lengths add up. |
| `Text.SplitUnlines` | pi_ble_config/wifi.py:124 | Splitting printed lines gives them back when none holds a line boundary. |
| `Text.SplitAtBreak` | pi_ble_config/wifi.py:124 | Any line boundary ends a line, and CR LF is one. |
| `Text.StripIsCore` | pi_ble_config/wifi.py:186 | `strip` cuts whitespace off both edges, all of it and nothing else. |
| `Text.ParseSignedDecimal` | pi_ble_config/wifi.py:131-134 | Reading a printed integer, of either sign, gives it back. |
| `Text.MoreDigits` | pi_ble_config/wifi.py:131-134 | A digit more is ten times the number and the digit; an underscore between digits counts for nothing. |
| `Text.NotANumber` | pi_ble_config/wifi.py:131-134 | A text with any character but digits, underscores and signs inside is no number. |
| `WifiScan.Scan` | pi_ble_config/wifi.py:123-148 | The dictionary loop, sort and slice return the declarative result of the lines' networks; `ScanShowsWhatIsThere` says which networks those are. |
| `WifiScan.ScanMeetsSpec` | pi_ble_config/wifi.py:123-148 | Each entry is the first line to reach its SSID's maximum; order is by signal, ties by the SSID's first appearance; a network is left out only when the limit is filled by networks that come before it. |
| `WifiScan.ScanIsTheOnlyResult` | pi_ble_config/wifi.py:123-148 | A list meets that specification if and only if it is the one computed. |
| `WifiScan.ScanShape` | pi_ble_config/wifi.py:129-148 | SSIDs are non-empty and distinct, signals never increase. |
| `WifiScan.ScanLength` | pi_ble_config/wifi.py:147-148 | The length is the smaller of a positive limit and the number of distinct SSIDs; limit 0 is none. |
| `WifiScan.ResortIsIdentity` | pi_ble_config/service.py:161-163 | The stream's second sort changes nothing. |
| `WifiScan.ListingReads` | pi_ble_config/wifi.py:124-141 | Rendering a table as nmcli does and splitting it again gives the rows back, for all fields without line breaks; `PointReads` says what a row shows. |
| `WifiScan.PointReads` | pi_ble_config/wifi.py:126-141 | A row nmcli made of an access point reads as that access point: SSID, signal of either sign, in-use flag, and its security or "--" for none; one without an SSID is passed over. |
| `WifiScan.ScanShowsWhatIsThere` | pi_ble_config/wifi.py:123-148 | For all access points whose SSIDs and security names are on one line: what nmcli lists of them reads as exactly the networks there are, and the scan's answer is the declarative result over those. |
| `WifiScan.BadSignalIsZero` | pi_ble_config/wifi.py:131-134 | A signal that is no number counts as 0. |
| `WifiScan.NegativeLimit` | pi_ble_config/wifi.py:148 | A negative limit drops that many from the end of the unlimited result, and nothing else. |
| `WifiScan.WifiIface` | pi_ble_config/wifi.py:74-82 | The device of the first line of type wifi, else wlan0. |
| `WifiScan.FirstWifiDevice` | pi_ble_config/wifi.py:74-82 | For every list of devices, whatever their names hold but line breaks: the interface is the name of the first of type wifi, and wlan0 if there is none or the listing failed. |
| `NetworkManager.Nmcli.Run` | pi_ble_config/wifi.py:37-49 | One command: reply and effect by the world's outcome for it, recorded with its timeout; a failure has any exit code but 0 and any output, and like a timeout may or may not have taken effect. |
| `WifiConnect.MatchIsExactIffClean` | pi_ble_config/wifi.py:186 | A clean stored SSID matches itself alone; an unclean one never matches itself and does match some other. |
| `WifiConnect.ProfilesForSsid` | pi_ble_config/wifi.py:151-188 | Exactly the names of those matching profiles of which a read told so, each once: a failing read hides its own profile and no other; all matching ones if listing and reads succeed; every Wi-Fi profile listed is read; the store is untouched; command count and timeouts. |
| `WifiConnect.Wipe` | pi_ble_config/wifi.py:258-265 | Under any failures the store keeps, in order, every profile but those an applied delete removed, all of them matching; each profile a read found matching is deleted; none matching is left if everything succeeded. |
| `WifiConnect.DeleteAll` | pi_ble_config/wifi.py:262-265 | One delete for each name in order, going on after a failing one and stopping at a timeout; drops exactly the profiles named in the deletes that took effect. |
| `WifiConnect.AddProfile` | pi_ble_config/wifi.py:267-295 | Issues the one add command it is given; the new profile stands at the end exactly if the add took effect, whatever was reported; a failure carries nmcli's text, stripped, which `WifiErrors.Message` turns into the error's. |
| `WifiConnect.Verify` | pi_ble_config/wifi.py:297-312 | Reads key-mgmt back, and forces it if and only if the read succeeded and showed none; a lone profile has it afterwards unless the forcing failed. |
| `WifiConnect.Activate` | pi_ble_config/wifi.py:314-320 | Success makes a lone bearer of the name the active profile; a failure carries nmcli's text, which `WifiErrors.Message` turns into the error's. |
| `WifiErrors.FirstKnownIff` | pi_ble_config/wifi.py:191-217 | The friendly message is that of the first known text that occurs, and there is none if and only if none occurs. |
| `WifiErrors.ShortTextIsShown` | pi_ble_config/wifi.py:205-217 | Whatever the table, a text of fewer than 200 characters is still part of the message shown. |
| `WifiErrors.KnownTextIsExplained` | pi_ble_config/wifi.py:205-217 | A known text is shown by the meaning of the first entry that occurs, followed by the text itself only if that has fewer than 200 characters. |
| `WifiErrors.UnknownTextIsKept` | pi_ble_config/wifi.py:205-217 | An unknown one is shown as it is, without the prefix "Error: ". |
| `WifiErrors.EmptyTextIsUnknown` | pi_ble_config/wifi.py:205-217 | None at all is shown as an unknown error. |
| `WifiConnect.Install` | pi_ble_config/wifi.py:267-320 | At most one profile is added, at the end; on a normal return it is active, on the chosen interface, hidden and secured as asked; a password not of 8 to 63 characters stops it before any command. |
| `WifiConnect.Connect` | pi_ble_config/wifi.py:220-322 | The whole pipeline for every pattern of failures and timeouts: its effect on the store; every listed Wi-Fi profile read and every one found matching deleted, rejected password or not, and a complete wipe if all that succeeds; the result as the last command's (the first timeout ends everything at once), with "bad password" exactly for a non-empty one not of 8 to 63 characters; after a normal return the fresh profile, on the interface `get_wifi_iface` chose, with the given password itself and wpa-psk, or neither if none or an empty one was given; at most 6+c+m commands and 120+5(c+m) s of timeouts for c Wi-Fi profiles and m matching names. |
| `WifiConnect.ConnectFrame` | pi_ble_config/wifi.py:258-320 | Whatever fails: non-matching profiles are the same, in the same order; matching after = matching before - applied deletes + applied add (under a clean SSID). |
| `WifiConnect.RejectionHarmlessIff` | pi_ble_config/wifi.py:258-280 | When the wipe was complete and nothing was added, exactly the non-matching profiles are left; the store is as before if and only if no profile matched. |
| `WifiConnect.RejectedPassword` | pi_ble_config/wifi.py:258-280 | For every store: if all commands succeed, a password of the wrong length ends in that error and leaves only the profiles that do not match. |
| `WifiConnect.WorkingProfileIsLost` | pi_ble_config/wifi.py:258-280 | A store on which that loses something: the working profile of any clean SSID. |
| `WifiConnect.OnlyOwnMatchedIff` | pi_ble_config/wifi.py:178-188 | No request matches a profile of another network if and only if every stored Wi-Fi SSID is clean or reads as blank. |
| `WifiConnect.OtherNetworksKept` | pi_ble_config/wifi.py:258-320 | Then a connect, whatever fails, keeps every profile of another network or kind that is not named like the SSID. |
| `WifiConnect.OtherNetworkLost` | pi_ble_config/wifi.py:258-280 | Otherwise, for each profile that is neither: a run requesting another SSID with a short password ends in that error and an empty store. |
| `WifiConnect.TrailingBlankMatches` | pi_ble_config/wifi.py:186 | Any clean SSID matches, as a request, the stored SSID that has a blank more at its end. |
| `WifiConnect.ForcingSparesOthersIff` | pi_ble_config/wifi.py:307-312 | Forcing key-mgmt by name spares every non-matching profile, for any password and any choice of bearer, if and only if none of them has the SSID as its name. |
| `WifiConnect.ExactlyOneProfileIff` | pi_ble_config/wifi.py:229-233 | After a complete wipe and an add, exactly one profile for the SSID exists if and only if the SSID is clean or had none before. |
| `WifiConnect.UncleanPilesUp` | pi_ble_config/wifi.py:258-295 | Whatever fails: a connect that adds a profile for an SSID that is not clean leaves one more for it than before. |
| `WifiConnect.ConnectedAgain` | pi_ble_config/wifi.py:220-322 | For every store: if all commands succeed, a connect returns normally, and the last profile has the given SSID, flag and password; one profile for the SSID is left if and only if it is clean or had none, and one more than before if it is not clean. |
| `WifiConnect.StoreStaysOkIff` | pi_ble_config/wifi.py:258-295 | Names are unique and on one line after a connect if and only if, should it have added, the SSID is on one line and no kept profile bears it as its name. |
| `WifiConnect.StoreStaysOkAfterWipeIff` | pi_ble_config/wifi.py:258-295 | After a complete wipe and an add: if and only if the SSID is on one line and only a matching profile bore it as its name. |
| `Lifecycle.ServiceTasks.ResumeStatusLoop` | pi_ble_config/service.py:283-290 | The status loop between two suspensions is one step of the lifecycle machine; `StatusTurn` and `StatusLoopRefreshes` say that it refreshes. |
| `Lifecycle.ServiceTasks.ResumeDelayedRefreshes` | pi_ble_config/service.py:207-218 | So is a staged refresh; see `StagedTaskRefreshes`. |
| `Lifecycle.StatusTurn` | pi_ble_config/service.py:283-290 | One turn of the loop while nobody has stopped the service: three resumptions begin a refresh, push the status and the addresses, each unless it fails by itself, and the loop waits again. |
| `Lifecycle.StatusLoopRefreshes` | pi_ble_config/service.py:283-290 | In every course without a shutdown, whatever else goes on, the number of refreshes begun follows from the number of resumptions, three to a refresh, and the loop never ends. |
| `Lifecycle.DelayTurn` | pi_ble_config/service.py:207-218 | A staged task goes from its k-th delay through one refresh to the next delay, or to its end after the third. |
| `Lifecycle.StagedTaskRefreshes` | pi_ble_config/service.py:207-218 | In every course without a shutdown it begins its refreshes one by one, three resumptions each, three in all: notes and program counter agree. |
| `Lifecycle.ConnectStages` | pi_ble_config/service.py:205 | Every connect that succeeds starts one staged task of its own, at its first delay. |
| `Lifecycle.ServiceTasks.CallShutdown` | pi_ble_config/service.py:336-340 | `shutdown`, called at any time and any number of times, sets the stop event, notes both tasks, and cancels the first it has. |
| `Lifecycle.ServiceTasks.ResumeShutdown` | pi_ble_config/service.py:338-345 | It goes on to the noted stream task when the status task is over, to closing the peripheral after that, and returns when that is done. |
| `Lifecycle.NoRefreshAfterStop` | pi_ble_config/service.py:207-218 | After the stop event no refresh begins any more, periodic or staged, in any course of events. |
| `Lifecycle.LoopsEnd` | pi_ble_config/service.py:283-290 | After it the loops are resumed a bounded number of times and end. |
| `Lifecycle.QuietAfterShutdown` | pi_ble_config/service.py:336-345 | With no handler suspended at the call and no trigger since, nothing of scan or status is emitted after that call of `shutdown` returned, and no task is started, whatever other calls are under way or follow. |
| `Lifecycle.ShutdownReturns` | pi_ble_config/service.py:336-345 | In every state a called `shutdown` can return after at most five steps, all of them its own or the ends of the tasks it cancelled, with no stream running then. |
| `Lifecycle.ShutdownLeaksIff` | pi_ble_config/service.py:336-345 | Without later triggers, a stream frame can follow the return of `shutdown` if and only if a trigger handler is suspended at the call. |
| `Lifecycle.DelayedRefreshes` | pi_ble_config/service.py:207-218 | The k-th staged refresh begins after the sum of the delays so far and of the refreshes in between; all those before the stop begin and none after it. |
| `RescanGuard.Scanner.ResumeScan` | pi_ble_config/wifi.py:109-121 | The guard's check and the creation are one step of the machine, skipped when the interface lookup raises. |
| `RescanGuard.AtMostOneRescan` | pi_ble_config/wifi.py:109-113 | In every interleaving of scans at most one background rescan runs; a scan that asks for one leaves one running if its interface lookup succeeds; one that does not ask, or whose lookup raises, starts none. |
| `RescanGuard.StartsWhenIdle` | pi_ble_config/wifi.py:109-113 | A scan that asks starts a rescan of its own if and only if none is running. |
| `BleConnect.PiBleClient.TryConnectOnce` | web/ble.js:103-130 | One attempt succeeds exactly when server, service and all six characteristics are obtained, and then all handles are of its session. |
| `BleConnect.SixHandles` | web/ble.js:113-120 | All of a session's handles are six, one for each UUID. |
| `BleConnect.PiBleClient.Connect` | web/ble.js:73-100 | Succeeds if and only if one of the first maxAttempts attempts does, with that attempt's handles and no stale one; otherwise forgets everything; attempts and back-offs are counted. |
| `GattTable.Peripheral.AddCharacteristic` | pi_ble_config/ble_server.py:362-374 | Map, list and paths stay in agreement if and only if the UUID is new. |
| `GattTable.Peripheral.Lookup` | pi_ble_config/ble_server.py:376-377 | Finds exactly the UUIDs that were added, and their objects. |
| `GattTable.Peripheral.PathsInjective` | pi_ble_config/ble_server.py:370-371 | No two objects share a path. |
| `GattTable.Peripheral.GetManagedObjects` | pi_ble_config/ble_server.py:241-246 | One entry for the service and one per characteristic, each under its own path. |
| `LegacyRead.EncodedSize` | pi_ble_config/protocol.py:34-35 | The exact number of UTF-8 bytes of any encoded list. |
| `LegacyRead.LegacyReadFits` | pi_ble_config/service.py:25-27 | Five networks with percentage signals take at most 271 bytes beside their escaped strings, so 241 bytes of those fit; five ordinary ones take at most 511. |
| `LegacyRead.FiveNetworksMayNotFit` | pi_ble_config/service.py:25-27 | A listing with five SSIDs of at most 32 bytes whose legacy read is longer than 512. |
| `LegacyReply.OnReadScan` | pi_ble_config/service.py:109-125 | The legacy read, read as JSON, is the scan's list of at most five or the error with its text, for all strings. |
| `LegacyReply.ScanWifi` | web/ble.js:225-234 | The page returns the list read, throws the text of an error unless it is empty, and takes an empty read for an empty list. |
| `LegacyReply.ListReads` | pi_ble_config/protocol.py:34-35 | Any list of networks, encoded, reads back as itself, whatever characters its strings hold. |
| `LegacyReply.ErrorReads` | pi_ble_config/protocol.py:34-35 | So does any error text. |
| `LegacyRead.BytesAreOctets` | pi_ble_config/protocol.py:34-35 | The bytes counted are those of the UTF-8 encoding. |
| `Utf8.RoundTrip` | pi_ble_config/protocol.py:34-35 | Which decodes back to the text, for every text (section 3 of RFC 3629). |
| `WifiScan.InUseFlagFollowsStrongest` | pi_ble_config/wifi.py:135-145 | A listed network is flagged in use if and only if its first strongest access point is. |
| `Lifecycle.StagedRefreshTimes` | pi_ble_config/service.py:205 | The service's delays add up to 2, 7 and 17 seconds. |
| `LegacyRead.FitsIff` | pi_ble_config/service.py:120-122 | A non-empty list fits 512 bytes if and only if its strings, digits and flags take at most 511 - 46 per network. |
| `GattTable.Characteristic.UpdateValue` | pi_ble_config/ble_server.py:173-181 | Stored value and emitted notification are the same bytes. |
| `ScanClient.TimerDetaches` | web/ble.js:299-302 | A listener whose timer fires is detached and rejected, even if its trigger write had failed. |

## Left out

- ScanStream.InvStep: holds for serialised triggers only; without them the invariant is false, as `OverlapBreaksExclusion` shows.
- ScanClock.AnswersInTime: bounds delays from above only; the time between trigger write and start of the stream is part of when the stream started.
- Lifecycle.ShutdownLeaksIff: closing the peripheral is one suspension of any length that does not fail.
- ScanStream.StreamsEnd: counts resumptions; that the event loop does resume every task is taken for granted.
- ScanSystem.EndToEnd: the frames of a stream carry networks as values; that their JSON text reads back is taken as given there, and proved for the legacy read.
- LegacyReply.ScanWifi: reads the two shapes the service writes, with no space between tokens, and no escape above U+00FF; what the page does with any other text is left open.
- ScanSystem.ListenerOutcome: a trigger is a step of the environment, not tied to the listener whose write caused it, which is more general; clocks appear only in `ScanService` and `ScanClock`.
- WifiConnect.ConnectFrame: needs `NoNamesake`; without it a namesake may be forced, as `ForcingSparesOthersIff` shows.
- WifiConnect.Connect: is stated for stores whose profile names are unique and on one line, since a name is all nmcli is given to tell profiles apart; raises reasons, whose texts are `WifiErrors.Message`, but for a timeout's, which quotes the command; profiles are looked up by name only, not by UUID or D-Bus path; two connects do not overlap.
- NetworkManager.Nmcli.Run: a command takes effect as a whole or not at all; the killing of processes is not modelled.
- Text.ParseSignedDecimal: `int()` is modelled on ASCII digits and underscores; other Unicode digits and the 4300-digit limit are not.
- Lifecycle.QuietAfterShutdown: staged refreshes are not cancelled by `shutdown` and may still finish the one in progress.
- Exceptions other than WifiError inside a stream count as an abort without a terminator.
- `_on_write_connect`: payload decoding, the result pushes and the immediate refresh around `wifi.connect`.
- D-Bus and BlueZ: registration, advertising, the pairing agent, read and write plumbing, `_power_on_adapter`.
- What `status`, `disconnect`, SSH, `primary_ip`, `interfaces` and the local name compute: they would only add easy members.
- The size of the interface payload (`pi_ble_config/service.py:242-247`): nothing in the code bounds the number of interfaces.
- The browser's pages and log, the development server, setup and shell scripts.
