# Verification of driver logic in Dafny

This project models eight pieces of the board's kernel drivers and proves what
they promise. Run `dafny verify dfyconfig.toml` to check all of it.

| area | files | in the drivers' terms |
|---|---|---|
| radar detection | `DfsPattern`, `DfsScan`, `DfsWrap`, `DfsSound`, `DfsBurst`, `DfsNoise`, `DfsComplete`, `DfsReport`, `DfsHalfway`, `DfsLive`, `DfsDetector`, `DfsContext` | pulses queued newest first, candidate pulse trains, detection alone and among other pulses, reset, unwrapping of 24-bit stamps |
| Multiple BSSID | `Elements`, `MbssidMerge`, `MbssidSize`, `MbssidBytes`, `MbssidBuffer`, `MbssidGenerate` | the element list of a non-transmitted BSS (sections 9.4.2.45 and 11.1.3.8 of IEEE Std 802.11-2020), merged with consumption marked in a scratch copy |
| report splitter | `MgmtSplit` | an oversized radio-measurement report cut at element boundaries |
| wake-up patterns | `WowPattern` | a masked byte pattern compiled into runs inside a fixed rule |
| Type-C port | `TypecPort`, `Husb320`, `HusbProbe` | the HUSB320 port state machine with every hardware step free to fail |
| fuel gauge | `OcvTable`, `GaugeRules`, `Gauge` | voltage tables, smooth, zero and finish display modes, catch-up after sleep |
| station | `StationRetry`, `StationSme` | authentication, association, join and unjoin, retries, frames |
| DMA ring | `EdmaRing` | elements packed into ring nodes, transmit and completion accounting |

`CInt` holds C's truncating integer operations, `ByteBuffer` bytes and their copying,
`Optional` an optional value.
State that the drivers update in place is a class whose methods are proved
against functions or exact old-to-new equations; the claims about those functions,
and about all runs, are lemmas or the contracts of the run methods. Kernel, bus
and firmware calls that may fail return arbitrary results; clocks, readings and
allocation outcomes are parameters.

## What the proofs found in the code

- The look-up of the non-inheritance element passes match offset 0, for which the
  unsigned test `datalen >= offset - 2 + len` wraps and nothing ever matches. The
  merge is therefore proved for every match offset, 0 included
  (`MbssidMerge.OffsetZeroFindsNothing`). The lemma covers the look-up of a profile
  continuation as well, which matches no byte at all.
- When a queue element cannot be allocated, `last_ts` has already moved and the
  queue is not trimmed, so the window claim fails; `DfsLive.QueueWindowExactly`
  gives the exact condition and `DfsLive.QueueWindowCanBeOverrun` an input.
- Ages of queued pulses are truncated to 32 bits. Detection stays sound without
  any assumption, because a sequence born from such a pulse is past its deadline
  and never grows. The early-exit and burst claims fail exactly when a wrapped age
  falls into the pattern's range: `DfsWrap.CreateScanExactly` and
  `DfsLive.RunStaysInBurst` give the condition, `DfsScan.CreateScanWrapsBeyond32Bits`
  and `DfsLive.RunCanLeaveStale` inputs.
- A byte 0 in the old element list is stepped over alone, so the length of a second
  SSID is taken for an id (`MbssidBytes.SecondSsidIsMisread`, exact condition in
  `MbssidBytes.OldElementsExactly`). The loop reads a length byte before it tests for
  the end, past a list that ends with its SSID (`MbssidBytes.RunsOutExactly`,
  `MbssidBytes.SsidAloneRunsOut`).
- The scan for older pulses starts from factor 0, not 1, so a second
  pulse one interval back counts as well and a new sequence can reach ppb + 1
  (`DfsBurst.CandidateCanBeLonger`).
- A burst's sequence counts as false only the pulses after the burst's second one, so
  earlier ones do not weigh. More than thresh * pri_num later ones hide the burst unless
  they make a radar with some of its pulses or by themselves
  (`DfsReport.NoisyBurstExactly`, an input in `DfsHalfway.RadarThroughNoiseIsReported`).
- `skw_edma_tx` always closes the current node. If the last element filled the
  previous one, an empty node goes out with the length left in its header
  (`EdmaRing.EmptyNodeGoesOut`, exact condition in `EdmaRing.Channel.Tx`).
- A negative voltage is compared as unsigned and reads as a full battery
  (`OcvTable.NegativeReadsFull`), so charge follows voltage exactly outside the pairs
  `OcvTable.MonotoneExactly` excludes (`OcvTable.MinusOneReadsAboveZero` is one). The
  display modes compare unsigned as well, so a negative voltage never leads to zero
  mode (`Gauge.ZeroModeExactly`).
- Three of the slow-downs at the end of the zero slope's adjustment (900 or 1000, and
  the two 800s below 15 % and 5 %) cannot be reached above the last percent, because the
  lead they test for was taken by an earlier branch (`GaugeRules.ZeroLinekExactly`).
- A display from 6 % on whose catch-up after a sleep would end in 5.x % stays where it
  was, because the target is compared as above 5 whole percents
  (the contract of `GaugeRules.CatchUpBehind`).
- `husb320_try_role_set` does not refresh the roles of an idle port; they follow at
  the next disconnect. `Husb320.Driver.TryRoleSet` says exactly when the port then
  shows another role than its default, `Husb320.Driver.PreferenceWaits` is a case.
- Every authentication frame of the joined BSS clears the retry counter and leaves
  the timer armed. Without SAE confirmation the worker then resends again, so a
  request is not limited to two resends but to 2 * (1 + n) after n such frames
  (`StationRetry.ResendsPerRequest`, `StationSme.Station.SlowAnswers`).
- In AUTHED neither `skw_auth` nor `skw_assoc` compares the requested BSS with the
  joined one. An accepted request for another BSS leaves the first joined and waits for
  the other (`StationSme.Station.Auth`, `StationSme.OtherBssIsRequested`).
- An authentication frame is matched by address alone, and before a join or after
  an unjoin the address is all zeros; an association response is matched by the
  context index alone, which is 0 before the first join. Both can give a state to a
  station without a join; the contracts of `StationSme.Station.RxAuth` and
  `StationSme.Station.RxAssoc` say exactly when.

## Model

| member | source | states |
|---|---|---|
| DfsPattern.EtsiPatternsUsable | overlay/drivers/net/wireless/ea6621q/skwifi/skw_dfs.c:62-70 | every row of the radar table fits its C types, separates neighbouring multiples (3 x tolerance < pri_min) and needs at least three pulses |
| DfsPattern.MultipleIsNear | overlay/drivers/net/wireless/ea6621q/skwifi/skw_dfs.c:171-195 | a positive answer k of the near-multiple test means the value lies within the tolerance of k intervals, for every interval and tolerance |
| DfsPattern.MultipleFindsOne | overlay/drivers/net/wireless/ea6621q/skwifi/skw_dfs.c:171-195 | the answer is 0 only if no positive multiple is within the tolerance |
| DfsPattern.MultipleIsUnique | overlay/drivers/net/wireless/ea6621q/skwifi/skw_dfs.c:171-195 | for intervals wider than twice the tolerance the answer is the one k >= 1 within tolerance, both directions |
| DfsScan.ScanOlderSeesAllRecent | overlay/drivers/net/wireless/ea6621q/skwifi/skw_dfs.c:226-247 | the inner early exit counts exactly what a scan of every recent queued pulse counts, because the queue is newest first |
| DfsScan.CreateScanLosesNothing | overlay/drivers/net/wireless/ea6621q/skwifi/skw_dfs.c:197-263 | both early exits together create exactly the sequences of a full scan, as long as no queued pulse is 2^32 ticks old |
| DfsScan.CreateScanWrapsBeyond32Bits | overlay/drivers/net/wireless/ea6621q/skwifi/skw_dfs.c:208-214 | without that bound it fails: the age of a pulse 2^32 + pri_min ticks old is truncated into range and a sequence is created from it |
| DfsWrap.CreateScanExactly | overlay/drivers/net/wireless/ea6621q/skwifi/skw_dfs.c:197-263 | for every queue, the early exits create exactly the sequences of a full scan if and only if the scan reaches no pulse 2^32 ticks old or more whose truncated age lies in the pattern's range while a count of two is enough |
| DfsDetector.TallyOlder | overlay/drivers/net/wireless/ea6621q/skwifi/skw_dfs.c:226-247 | the loop over older pulses computes the specified tally |
| DfsDetector.PriDetector.constructor | overlay/drivers/net/wireless/ea6621q/skwifi/skw_dfs.c:453-468 | a fresh detector is empty, queues fewer than 2 * ppb pulses and looks back pri_max * ppb * pri_num |
| DfsDetector.PriDetector.CreateSequences | overlay/drivers/net/wireless/ea6621q/skwifi/skw_dfs.c:197-263 | the nested loops push exactly the sequences of the specified scan, newest first, and report failure exactly when an allocation is missing |
| DfsDetector.PriDetector.AddToExisting | overlay/drivers/net/wireless/ea6621q/skwifi/skw_dfs.c:265-296 | expired sequences are dropped, the others grow or count a false pulse, and the largest grown count is returned |
| DfsDetector.PriDetector.CheckDetection | overlay/drivers/net/wireless/ea6621q/skwifi/skw_dfs.c:319-333 | what is returned has count >= thresh and count * pri_num >= count_falses, every sequence before it lacks one of these, and none is returned exactly when all lack one |
| DfsDetector.PriDetector.CheckWindow | overlay/drivers/net/wireless/ea6621q/skwifi/skw_dfs.c:357-375 | the queue loses from its old end exactly the pulses before the window |
| DfsDetector.PriDetector.EnqueuePulse | overlay/drivers/net/wireless/ea6621q/skwifi/skw_dfs.c:377-396 | the pulse is queued, the window and the length limit are enforced, and nothing changes when the element cannot be allocated |
| DfsDetector.PriDetector.Add | overlay/drivers/net/wireless/ea6621q/skwifi/skw_dfs.c:398-427 | one pulse changes the whole state and returns what the specification says, and the run is logged truthfully |
| DfsDetector.PriDetector.Clear | overlay/drivers/net/wireless/ea6621q/skwifi/skw_dfs.c:298-317 | a reset empties both lists and the count and sets last_ts |
| DfsSound.ExtendKeepsTrain | overlay/drivers/net/wireless/ea6621q/skwifi/skw_dfs.c:265-296 | a sequence that grows stays backed by received pulses, its false count by others of the right kind; one that thereby gets over the threshold has a train ending with the new pulse |
| DfsSound.CreateScanIsSound | overlay/drivers/net/wireless/ea6621q/skwifi/skw_dfs.c:197-263 | every created sequence is backed: the older pulses it counts sit within tolerance of strictly increasing multiples of pri, or it is so old that it can never reach the threshold |
| DfsSound.EnqueueKeepsQueue | overlay/drivers/net/wireless/ea6621q/skwifi/skw_dfs.c:377-396 | after queueing, the queue is newest first, shorter than max_count, within window_size, and made of received pulses |
| DfsSound.AddPulseKeepsSound | overlay/drivers/net/wireless/ea6621q/skwifi/skw_dfs.c:398-427 | each call keeps every sequence's count equal to the length of a list of pulses heard since the detector was last emptied, whatever the allocations do; a found sequence ends with this pulse unless one was over the threshold before |
| DfsSound.RunIsSound | overlay/drivers/net/wireless/ea6621q/skwifi/skw_dfs.c:398-427 | over every run of pulses and resets from an empty detector: each sequence's count is the number of its own pulses heard since the last reset or failed allocation, and count_falses at most the number of other pulses of the right kind heard since its first |
| DfsSound.DetectionIsSound | overlay/drivers/net/wireless/ea6621q/skwifi/skw_dfs.c:398-427 | in every run the reported sequence itself has count >= thresh and count * pri_num >= count_falses and is backed by that many distinct pulses heard since the detector was last emptied, spaced by multiples of one interval, inside one burst of pri * (ppb - 1) + 2 * tolerance; if earlier reports were answered by a reset, the train ends with the reported pulse |
| DfsSound.HeardSinceReset | overlay/drivers/net/wireless/ea6621q/skwifi/skw_dfs.c:298-317 | the pulses that can back a report are a suffix of those heard after any reset before it |
| DfsSound.AnsweredIsQuiet | overlay/drivers/net/wireless/ea6621q/skwifi/skw_dfs.c:470-489 | when every report is followed by a reset no stored sequence is over the threshold between calls |
| DfsBurst.NewSequencesAreShort | overlay/drivers/net/wireless/ea6621q/skwifi/skw_dfs.c:208-250 | a newly created sequence counts at most ppb + 1 pulses |
| DfsBurst.CandidateCanBeLonger | overlay/drivers/net/wireless/ea6621q/skwifi/skw_dfs.c:208-250 | the bound is met: a second pulse one interval back counts as well, and a new sequence counts ppb + 1 |
| DfsBurst.CleanBurstIsDetected | overlay/drivers/net/wireless/ea6621q/skwifi/skw_dfs.c:398-427 | completeness: an empty detector with memory reports a clean burst at its thresh-th pulse and not before |
| DfsBurst.EvenTrainIsDetected | overlay/drivers/net/wireless/ea6621q/skwifi/skw_dfs.c:398-427 | in particular the thresh-th of evenly spaced pulses is reported, for every allowed spacing, and no earlier one |
| DfsLive.SequencesStayInBurst | overlay/drivers/net/wireless/ea6621q/skwifi/skw_dfs.c:197-296 | after a matching pulse every live sequence has first_ts <= last_ts <= deadline_ts = first_ts + dur if and only if the pulse did not create one from an age that wrapped |
| DfsLive.RunStaysInBurst | overlay/drivers/net/wireless/ea6621q/skwifi/skw_dfs.c:197-427 | the same over every run of pulses, failed allocations and resets: it depends on the last matching pulse alone, because an expired sequence is dropped at the next one |
| DfsLive.RunCanLeaveStale | overlay/drivers/net/wireless/ea6621q/skwifi/skw_dfs.c:208-214 | every pattern has a run of two pulses that leaves a sequence outside its burst |
| DfsLive.QueueWindowExactly | overlay/drivers/net/wireless/ea6621q/skwifi/skw_dfs.c:357-427 | after a pulse that reports nothing, the queue lies within window_size of last_ts if and only if the element could be allocated, the detector was reset, or the old queue was still in the window |
| DfsLive.QueueWindowCanBeOverrun | overlay/drivers/net/wireless/ea6621q/skwifi/skw_dfs.c:377-427 | a concrete pulse for which a failed element allocation leaves a queued pulse outside the window |
| DfsContext.GetTsIsUnwrap | overlay/drivers/net/wireless/ea6621q/skwifi/skw_dfs.c:734-744 | the unwrapped stamp is the unique value in [pre, pre + 2^24) congruent to the raw one |
| DfsContext.UnwrapIsExact | overlay/drivers/net/wireless/ea6621q/skwifi/skw_dfs.c:786-805 | over any stream with gaps below 2^24 the unwrapped stamps differ from the true times by one constant |
| DfsContext.DetectorSet.AddPulse | overlay/drivers/net/wireless/ea6621q/skwifi/skw_dfs.c:470-489 | detectors hear the pulse in order up to the first that reports; that one is reset, later ones are left alone |
| DfsContext.DetectorSet.ResetAll | overlay/drivers/net/wireless/ea6621q/skwifi/skw_dfs.c:491-508 | an idle gap resets every detector and the last stamp |
| DfsContext.DeliveredIsUnwrapped | overlay/drivers/net/wireless/ea6621q/skwifi/skw_dfs.c:786-805 | from a fresh start the delivered pulses carry exactly the unwrapped stamps of the true times behind them, with zero-width pulses skipped anywhere |
| DfsContext.StreamIsOneEvent | overlay/drivers/net/wireless/ea6621q/skwifi/skw_dfs.c:759-832 | how the pulses are cut into events makes no difference to what is delivered |
| DfsContext.StreamIsExact | overlay/drivers/net/wireless/ea6621q/skwifi/skw_dfs.c:759-832 | over any number of events after a fresh start the delivered stamps differ from the true times by one constant if those are less than 2^24 apart |
| DfsContext.DetectorSet.HearRaw | overlay/drivers/net/wireless/ea6621q/skwifi/skw_dfs.c:786-815 | a raw pulse is unwrapped against the last stamp and its width halved; every detector up to the first that reports has heard it, only that one reports, and then a radar ending with this pulse is among those heard since that detector was last emptied |
| DfsContext.DetectorSet.PulseEvent | overlay/drivers/net/wireless/ea6621q/skwifi/skw_dfs.c:759-832 | every detector hears exactly the raw pulses of positive width, unwrapped, up to the reported one; radar is announced if and only if one detector reported once more, and then the last pulses it heard, none from before its last reset, hold a radar that ends with the very last; any allocation may fail at any pulse |
| Elements.EncodeParse | overlay/drivers/net/wireless/ea6621q/skwifi/skw_mbssid.c:36-50 | walking the element list of a well-formed buffer loses no byte |
| Elements.ParseEncode | overlay/drivers/net/wireless/ea6621q/skwifi/skw_mbssid.c:36-50 | parsing what was encoded gives the same elements back |
| MbssidMerge.OffsetZeroFindsNothing | overlay/drivers/net/wireless/ea6621q/skwifi/skw_mbssid.c:43-45 | with match offset 0 and at most one byte to match the unsigned length test wraps, so neither the non-inheritance element nor a profile continuation is ever found |
| MbssidMerge.WalkTracks | overlay/drivers/net/wireless/ea6621q/skwifi/skw_mbssid.c:200-242 | after any number of old elements each profile element is either untouched and not emitted, or emitted once and marked, with its data unchanged |
| MbssidMerge.ProfileElementsOnce | overlay/drivers/net/wireless/ea6621q/skwifi/skw_mbssid.c:169-261 | in the merged list every profile element other than SSID and capability occurs exactly once, the first SSID once, other SSIDs never |
| MbssidMerge.OldElementTimes | overlay/drivers/net/wireless/ea6621q/skwifi/skw_mbssid.c:200-242 | an old element occurs once if it is kept and never otherwise |
| MbssidMerge.OldElementFate | overlay/drivers/net/wireless/ea6621q/skwifi/skw_mbssid.c:200-242 | an old element is replaced by an unused profile element that matches it, or dropped because it is a Multiple BSSID element or listed as not inherited while the profile has no match, or kept; one that is not a vendor element is kept only if no unused profile element matches it, a vendor element only if the first unused vendor element is of another type |
| MbssidSize.MergeFits | overlay/drivers/net/wireless/ea6621q/skwifi/skw_mbssid.c:169-261 | the merged list takes at most as many bytes as the old elements and the profile together |
| MbssidBuffer.MarkIsSpend | overlay/drivers/net/wireless/ea6621q/skwifi/skw_mbssid.c:226-234 | overwriting one id byte in the scratch copy changes that element's id and no other element |
| MbssidBuffer.FindElem | overlay/drivers/net/wireless/ea6621q/skwifi/skw_mbssid.c:36-50 | the byte walk finds the first element with the id and data bytes, for every match whose bytes lie in the data or whose length test wraps |
| MbssidBuffer.IsElementInherited | overlay/drivers/net/wireless/ea6621q/skwifi/skw_mbssid.c:125-167 | an element is inherited unless it is a Multiple BSSID element or the list that governs it names it; malformed lists name nothing |
| MbssidBuffer.HandleOld | overlay/drivers/net/wireless/ea6621q/skwifi/skw_mbssid.c:206-236 | one turn of the loop appends what the element's fate, as fixed by FateExactly, emits and marks the profile element it used |
| MbssidBuffer.AppendUnspent | overlay/drivers/net/wireless/ea6621q/skwifi/skw_mbssid.c:244-256 | the last loop appends the unmarked profile elements in order and terminates at the end of the copy |
| MbssidBytes.VisitedFits | overlay/drivers/net/wireless/ea6621q/skwifi/skw_mbssid.c:197-242 | the elements the loop over the old list stands on never have id 0 and fit in the bytes walked over |
| MbssidBytes.OldElementsExactly | overlay/drivers/net/wireless/ea6621q/skwifi/skw_mbssid.c:194-242 | of whole elements the loop visits just those behind the SSID if and only if there are some and none of them has id 0 |
| MbssidBytes.RunsOutExactly | overlay/drivers/net/wireless/ea6621q/skwifi/skw_mbssid.c:194-197 | with nothing behind the SSID the loop reads a length byte past the list, and of whole elements without a second id 0 only then |
| MbssidBytes.SsidAloneRunsOut | overlay/drivers/net/wireless/ea6621q/skwifi/skw_mbssid.c:194-197 | a list that is an SSID alone is such a list |
| MbssidBytes.SecondSsidIsMisread | overlay/drivers/net/wireless/ea6621q/skwifi/skw_mbssid.c:198-201 | a second SSID is not skipped as an element: the loop steps one byte into it and merges an element that was never sent |
| MbssidGenerate.WalkOlds | overlay/drivers/net/wireless/ea6621q/skwifi/skw_mbssid.c:197-242 | the loop over the old elements writes exactly the specified bytes and stays inside the buffers, on any bytes it does not run out of |
| MbssidGenerate.GenNewIe | overlay/drivers/net/wireless/ea6621q/skwifi/skw_mbssid.c:169-261 | the output buffer holds exactly the encoded merge of the visited old elements and the profile's whole elements, at most ielen + subie_len bytes; nothing is returned when the copy cannot be allocated |
| MgmtSplit.PackKeepsElements | overlay/drivers/net/wireless/ea6621q/skwifi/skw_cfg80211.c:3593-3617 | the groups sent are the elements of the report, in order, none lost, repeated or cut |
| MgmtSplit.PackFits | overlay/drivers/net/wireless/ea6621q/skwifi/skw_cfg80211.c:3596-3606 | every frame carries at least one element and is shorter than 1500 bytes |
| MgmtSplit.PackIsGreedy | overlay/drivers/net/wireless/ea6621q/skwifi/skw_cfg80211.c:3596-3606 | no frame could have taken the first element of the next one as well |
| MgmtSplit.SplitBytesIsPack | overlay/drivers/net/wireless/ea6621q/skwifi/skw_cfg80211.c:3593-3617 | cutting the bytes by length fields is packing the parsed elements |
| MgmtSplit.SplitReport | overlay/drivers/net/wireless/ea6621q/skwifi/skw_cfg80211.c:3576-3620 | the loop terminates for every well-formed payload, sends exactly those frames and returns the last transmission's result |
| MgmtSplit.SplitIsFaithful | overlay/drivers/net/wireless/ea6621q/skwifi/skw_cfg80211.c:3576-3620 | every frame is the original 27-byte header plus whole elements and shorter than 1500 bytes, the length byte of the next frame's first element shows that it would not have fitted, and the payloads end to end are the original payload |
| WowPattern.DecodeInvertsEncode | overlay/drivers/net/wireless/ea6621q/skwifi/skw_cfg80211.c:4361-4365 | decoding encoded runs gives their constraints back |
| WowPattern.RuleMeans | overlay/drivers/net/wireless/ea6621q/skwifi/skw_cfg80211.c:4350-4382 | what was compiled when the loop stops means exactly the masked bytes of the longest prefix of the pattern that fits the rule |
| WowPattern.CompiledIsWhole | overlay/drivers/net/wireless/ea6621q/skwifi/skw_cfg80211.c:4339-4385 | such a rule means everything asked for if and only if the whole pattern needs at most 64 bytes |
| WowPattern.CompilePattern | overlay/drivers/net/wireless/ea6621q/skwifi/skw_cfg80211.c:4339-4385 | the emitted rule means exactly the masked bytes of the longest prefix that fits, and never exceeds the rule |
| TypecPort.GetState | overlay/drivers/usb/typec/husb320.c:479-497 | the port is a source only when attached with the source bit and no debug or sink bit; it is unattached exactly when detached or no type bit is set |
| TypecPort.UncachedAgrees | overlay/drivers/usb/typec/husb320.c:390-465 | one update of a driver that always writes agrees with the state read, from hardware in agreement with the last one |
| TypecPort.OutputsFollowLastUpdate | overlay/drivers/usb/typec/husb320.c:390-465 | over every run of such updates the hardware agrees with the last state read |
| TypecPort.TryUpdate | overlay/drivers/usb/typec/husb320.c:684-688 | rewriting the try field keeps the register an encoding of the configuration |
| TypecPort.ModeUpdate | overlay/drivers/usb/typec/husb320.c:656-659 | writing mode and try fields makes the register encode the configuration, whatever it held |
| Husb320.Driver.SetVbus | overlay/drivers/usb/typec/husb320.c:178-195 | VBUS and its vote change together, only when needed, and enabling is only ever asked for outside a shutdown |
| Husb320.Driver.SetMode | overlay/drivers/usb/typec/husb320.c:197-212 | the remembered mode is the last one the hardware accepted |
| Husb320.Driver.Disconnect | overlay/drivers/usb/typec/husb320.c:245-280 | every step is tried; success leaves the fully detached hardware and a valid state, any failure an invalid one; VBUS is never enabled |
| Husb320.Driver.ApplyState | overlay/drivers/usb/typec/husb320.c:390-465 | when it succeeds the hardware is what the uncached driver would have left, so skipped writes change nothing: host, device and power roles, VBUS, mode and accessory are stated for state and connector |
| Husb320.Driver.UpdateState | overlay/drivers/usb/typec/husb320.c:499-525 | a successful update leaves the state the controller reported, with the roles, VBUS, mode, accessory and current that state and connector call for |
| Husb320.Driver.ErrorRecovery | overlay/drivers/usb/typec/husb320.c:284-310 | from any point of any operation the port ends detached and valid, or shut down with the controller's switch-off tried; VBUS is never enabled |
| Husb320.Driver.ServicePort | overlay/drivers/usb/typec/husb320.c:571-584 | a successful update starts from the hardware a handled detach left and ends where the uncached driver would; a failed one recovers |
| Husb320.Driver.IrqThread | overlay/drivers/usb/typec/husb320.c:527-604 | the release invariant is kept under any pattern of failures; a shut-down driver touches nothing; a port that could not be updated is detached with VBUS off or shut down |
| Husb320.Driver.PortTypeSet | overlay/drivers/usb/typec/husb320.c:632-671 | success detaches, adopts the type, shows its default power and data roles and keeps the role register in step; failure keeps the type and recovers |
| Husb320.Driver.TryRoleSet | overlay/drivers/usb/typec/husb320.c:673-697 | the preference changes only with the register, which stays an encoding of it; an idle port shows its default role afterwards if and only if the default has not moved |
| Husb320.Driver.PreferenceWaits | overlay/drivers/usb/typec/husb320.c:673-697 | a dual-role port asked to give power goes on showing that it takes it, until a disconnect succeeds |
| Husb320.Driver.HwInit | overlay/drivers/usb/typec/husb320.c:717-775 | after initialisation the role register encodes the configuration, the control register advertises the current of the power role with interrupts masked, and the controller is enabled |
| Husb320.Driver.Start | overlay/drivers/usb/typec/husb320.c:1042-1089 | once the controller is initialised and the first update succeeded the release invariant holds; any failure leaves the port settled, and the configuration is kept |
| HusbProbe.ConnectorAccepted | overlay/drivers/usb/typec/husb320.c:818-869 | a connector is refused exactly when it names no usable current or a data role that does not match; an accepted idle port is a host exactly when it gives power |
| HusbProbe.Probe | overlay/drivers/usb/typec/husb320.c:997-1089 | success leaves a driver at the release invariant with the parsed configuration and, if it can source, a supply; a refused device, node or supply leaves the board untouched |
| Husb320.Driver.Remove | overlay/drivers/usb/typec/husb320.c:1108-1115 | removal ends detached and shut down without enabling VBUS |
| Husb320.Driver.Shutdown | overlay/drivers/usb/typec/husb320.c:1138-1155 | shutdown ends detached without enabling VBUS, and leaves sink mode only after a clean disconnect of a port that can sink |
| Husb320.Driver.Lifetime | overlay/drivers/usb/typec/husb320.c:527-1156 | over every run after a probe the release invariant holds at each lock release, and no regulator enable follows the start of a shutdown |
| OcvTable.Interpolate | overlay/drivers/power/supply/rk817_battery.c:651-676 | the table scan and the 16-bit arithmetic compute the specified interpolation |
| OcvTable.BetweenExact | overlay/drivers/power/supply/rk817_battery.c:664-667 | between knots at most 1310 mV apart nothing is truncated |
| OcvTable.AbDivCExact | overlay/drivers/power/supply/rk817_battery.c:679-698 | the scaling is the rounded quotient and does not exceed its maximum |
| OcvTable.ChargeFollowsVoltage | overlay/drivers/power/supply/rk817_battery.c:1298-1324 | charge and capacity are monotone in the voltage, run from 0 to 100 percent and to fcc, and reach both ends |
| OcvTable.NegativeReadsFull | overlay/drivers/power/supply/rk817_battery.c:659-660 | a negative voltage is compared as unsigned and reads as 100 percent and the full capacity |
| OcvTable.MonotoneExactly | overlay/drivers/power/supply/rk817_battery.c:651-676 | over all voltages an int can hold, a higher one reads no less than a lower one unless the lower is negative and the higher lies between zero and the last knot |
| OcvTable.SocMonotoneExactly | overlay/drivers/power/supply/rk817_battery.c:1298-1310 | the same for the percentage: from nine tenths of the way between the last two knots on it reads 100 |
| OcvTable.ReachesExactly | overlay/drivers/power/supply/rk817_battery.c:651-676 | the table reads at least r thousandths exactly from the voltage that lies that share between its knots on |
| OcvTable.CapMonotoneExactly | overlay/drivers/power/supply/rk817_battery.c:1313-1324 | the same for the capacity, which reads full from the voltage whose reading rounds to it on |
| OcvTable.MinusOneReadsAboveZero | overlay/drivers/power/supply/rk817_battery.c:659-660 | -1 reads as full and 0 as empty |
| GaugeRules.SmLinekValues | overlay/drivers/power/supply/rk817_battery.c:1528-1560 | the smooth slope is one of +-750, +-1000, +-1333 with the current's sign, steep exactly when the display has to catch up |
| GaugeRules.ZeroLinekKeepsMoving | overlay/drivers/power/supply/rk817_battery.c:2572-2650 | the zero slope is always at least 300, and at least 1000 when the display is above what the voltage allows |
| GaugeRules.FinishPassConserves | overlay/drivers/power/supply/rk817_battery.c:2779-2806 | one finish pass turns pending seconds into percents without losing any, and below full leaves at most the price of a percent pending |
| GaugeRules.FinishTimeIsConserved | overlay/drivers/power/supply/rk817_battery.c:2764-2806 | over any run of passes credited and pending seconds add up to the time elapsed, as the price of a percent changes |
| GaugeRules.SleepDsocBounds | overlay/drivers/power/supply/rk817_battery.c:3278-3345 | the display after a sleep is the catch-up, a percent less exactly under the reserve rule, never below zero and never above what was shown; one that starts above rsoc stays there unless the low-voltage or reserve rule fires |
| Gauge.Battery.CalcSmLinek | overlay/drivers/power/supply/rk817_battery.c:1528-1560 | the slope and the reference capacity are renewed together |
| Gauge.Battery.RunTimers | overlay/drivers/power/supply/rk817_battery.c:2647-2672 | the display goes to zero once the voltage has been far too low for more than 30 s, and down a percent each time the battery has been below the dead voltage for 15 s, and otherwise stays |
| Gauge.Battery.CalcZeroLinek | overlay/drivers/power/supply/rk817_battery.c:2496-2675 | the slope follows the adjustment chain and what is shown never rises |
| Gauge.Battery.ZeroAlgorithm | overlay/drivers/power/supply/rk817_battery.c:2691-2762 | what is shown never rises; a due pass takes the display to the zero value, a percent at most, less what the timers take, another leaves it, unless the counter is calibrated |
| Gauge.Battery.SmoothAlgorithm | overlay/drivers/power/supply/rk817_battery.c:2385-2494 | on discharge with some gain the display stays exactly when the smooth value is above it or in its percent and else becomes the larger of the smooth value and a percent less; on charge it ends in the smooth value's percent or above |
| Gauge.Battery.FinishAlgorithm | overlay/drivers/power/supply/rk817_battery.c:2764-2807 | the pass is the specified finish pass after the counter has been set to full |
| Gauge.Battery.DisplaySmooth | overlay/drivers/power/supply/rk817_battery.c:2809-2868 | mode changes as specified, with the unsigned comparisons; outside finish mode what is shown never rises without a charging current, outside zero mode dsoc never falls with one |
| Gauge.ZeroModeExactly | overlay/drivers/power/supply/rk817_battery.c:2826-2859 | on battery zero mode is entered and left by the voltage with 50 mV in between for readings from 0 on, and never holds for a negative one |
| Gauge.Battery.InitCapacity | overlay/drivers/power/supply/rk817_battery.c:3233-3246 | a recalibration sets the counter and never raises what is shown |
| Gauge.Battery.SleepDischrg | overlay/drivers/power/supply/rk817_battery.c:3259-3351 | the catch-up after a sleep is the specified one on the values after calibration |
| Gauge.Battery.Wake | overlay/drivers/power/supply/rk817_battery.c:3353-3390 | a resume never raises what is shown |
| Gauge.Battery.RunOnBattery | overlay/drivers/power/supply/rk817_battery.c:2709-3390 | over every run on battery, with arbitrary readings and sleeps, what is shown never rises |
| StationSme.Station.PeerCtx | overlay/drivers/net/wireless/ea6621q/skwifi/skw_iface.c:1063-1094 | the look-up returns a context of the interface with that address, or none exactly when there is none |
| StationSme.Station.OwnCtx | overlay/drivers/net/wireless/ea6621q/skwifi/skw_iface.c:1063-1094 | in a station it finds the joined BSS and nothing else |
| StationSme.Station.Join | overlay/drivers/net/wireless/ea6621q/skwifi/skw_cfg80211.c:2649-2707 | success binds one peer, the LMAC bit and the BSS together; every failure leaves all of them as they were |
| StationSme.Station.Unjoin | overlay/drivers/net/wireless/ea6621q/skwifi/skw_cfg80211.c:2709-2746 | an unknown BSS changes nothing, an accepted command undoes the join completely, a refused one leaves it outstanding and silent |
| StationSme.Station.Leave | overlay/drivers/net/wireless/ea6621q/skwifi/skw_cfg80211.c:2748-2779 | leaving ends without a state and without a timer whatever the commands do |
| StationSme.Station.Auth | overlay/drivers/net/wireless/ea6621q/skwifi/skw_cfg80211.c:2812-2931 | refused while waiting; every other failure ends without a state; success leaves the requested BSS joined, except in AUTHED, where it leaves the one that was |
| StationSme.Station.Assoc | overlay/drivers/net/wireless/ea6621q/skwifi/skw_cfg80211.c:2946-3028 | refused while waiting; every other failure ends without a state; success waits for the response or was already done, with the requested BSS joined except in AUTHED, where it is the one that was |
| StationSme.OtherBssIsRequested | overlay/drivers/net/wireless/ea6621q/skwifi/skw_cfg80211.c:2879-2980 | a station authenticated to one BSS whose request for another is accepted waits for the other with the first still joined |
| StationRetry.RunIsBounded | overlay/drivers/net/wireless/ea6621q/skwifi/skw_iface.c:399-466 | over every run of turns, frames and requests, one request is sent again at most twice for itself and twice for each authentication frame that cleared the retry counter without confirming SAE |
| StationRetry.WorstRunMeetsBound | overlay/drivers/net/wireless/ea6621q/skwifi/skw_iface.c:399-466 | for every number of such frames there is a run that uses every resend |
| StationRetry.ResendsPerRequest | overlay/drivers/net/wireless/ea6621q/skwifi/skw_msg.c:152-155 | so a limit holds for all runs with n clearing frames if and only if it is at least 2 * (1 + n) |
| StationRetry.TwoResendsExactly | overlay/drivers/net/wireless/ea6621q/skwifi/skw_msg.c:152-155 | two resends are all if and only if no frame clears the counter in between |
| StationSme.Station.RetryOrGiveUp | overlay/drivers/net/wireless/ea6621q/skwifi/skw_iface.c:407-466 | the station ends without a state if and only if the connect timeout passed, or the step timed out and it was the third time or the resend was refused; otherwise it waits on with the timer running, the counter and the resends up by one for a step timeout |
| StationSme.Station.Work | overlay/drivers/net/wireless/ea6621q/skwifi/skw_iface.c:384-482 | a waiting station, or an authenticated one without SAE confirmation, gives up under exactly those conditions and never waits past the connect timeout; every other station keeps its state; the invariant is kept |
| StationSme.Station.RxAuth | overlay/drivers/net/wireless/ea6621q/skwifi/skw_msg.c:136-176 | exact new state and counters for every frame; the invariant survives if and only if the frame is not a successful one without an address on a station that has no BSS address either |
| StationSme.StrayAuthHappens | overlay/drivers/net/wireless/ea6621q/skwifi/skw_msg.c:144-155 | such a frame makes a station that never joined authenticated |
| StationSme.Station.RxAssoc | overlay/drivers/net/wireless/ea6621q/skwifi/skw_msg.c:178-237 | exact new state for every response; the invariant survives if and only if it is not a successful one from a peer of another interface at the context index |
| StationSme.StrayAssocHappens | overlay/drivers/net/wireless/ea6621q/skwifi/skw_msg.c:178-237 | such a response makes a station that never joined associated |
| StationSme.Station.RxDeauth | overlay/drivers/net/wireless/ea6621q/skwifi/skw_msg.c:101-134 | only a deauthentication of the joined BSS ends the connection |
| StationSme.Station.ChangeStation | overlay/drivers/net/wireless/ea6621q/skwifi/skw_cfg80211.c:1525-1560 | authorising completes the connection of the joined BSS and of no other |
| StationSme.Station.Run | overlay/drivers/net/wireless/ea6621q/skwifi/skw_cfg80211.c:2649-3099 | over every run of requests, timeouts, failures and arbitrary frames the peer bindings and the resends per request stay within bounds; until a stray frame comes in a station with a state has its join in place and a waiting one has a timer |
| StationSme.Station.SlowAnswers | overlay/drivers/net/wireless/ea6621q/skwifi/skw_iface.c:399-466 | a run of the station itself in which n clearing frames let one request resend 2 * (1 + n) times, without a stray frame |
| EdmaRing.Channel.constructor | overlay/drivers/net/wireless/ea6621q/skwifi/skw_edma.c:146-217 | header links form the cycle i to i + 1 modulo the ring size and all nodes are free |
| EdmaRing.Channel.NextNode | overlay/drivers/net/wireless/ea6621q/skwifi/skw_edma.c:50-76 | the list walk follows the header links, one node moves from free to pending, and payloads not completed are untouched |
| EdmaRing.Channel.SetData | overlay/drivers/net/wireless/ea6621q/skwifi/skw_edma.c:78-102 | the element is appended whole to the accepted bytes, never past a node's end, and a node without room for another is left |
| EdmaRing.Channel.Tx | overlay/drivers/net/wireless/ea6621q/skwifi/skw_edma.c:104-119 | everything pending goes out in order; the hardware gets exactly the bytes set if and only if the current node holds data or its header length is zero |
| EdmaRing.Channel.Complete | overlay/drivers/net/wireless/ea6621q/skwifi/skw_edma.c:257-267 | completed nodes become free, oldest first, and until then held what was handed over |
| EdmaRing.Channel.Run | overlay/drivers/net/wireless/ea6621q/skwifi/skw_edma.c:50-267 | over any run within credit free, pending and in-flight nodes stay the whole ring, and handed bytes are a prefix of those set while no empty node is transmitted |
| EdmaRing.EmptyNodeGoesOut | overlay/drivers/net/wireless/ea6621q/skwifi/skw_edma.c:98-110 | transmitting right after a node became full sends an untouched node as well |

## Left out

- DfsReport.NoisyBurstIsReported: other pulses before the burst's second one are covered when they are closer than pri_min to its first and fewer than 2 * ppb - 1; later ones may start sequences with the first, and the burst's later pulses then join those. Allocations succeed during the burst.
- HusbProbe.Probe: the reading of the firmware node by the type-C core, the delay after power-up and the release of switch and node references are not modelled.
- MbssidGenerate.GenNewIe: covers every input the loops do not read beyond the end of, with data in extension elements and at least five bytes in vendor elements; what the bytes behind a shorter element are compared with is not modelled.
- EdmaRing.Channel.SetData: is stated within credit (a free node besides the current one) and for one element size per channel, as on the transmit channels; the one-node command channel always advances onto its own node and is not modelled.
- StationSme.Station.Join: assumes that the firmware hands out peer indices no other interface holds and that requested BSS addresses are valid unicast addresses.
- Gauge.Battery.RunOnBattery: covers the display algorithms and the sleep catch-up; other writers of dsoc (power-on, fake offline, low-power shutdown) are not modelled.
- Signed overflow of the fuel gauge's `int` arithmetic, and wrap-around of pulse, retry and node counters, are not modelled; unsigned truncations that decide a branch are.
- Fuel gauge: one voltage, current and clock reading per pass, fcc fixed during a run, charge status and fake finish as inputs; `powerpatch_res`, debug fields and prints dropped.
- The splitter reads length bytes as unsigned (`char` is unsigned on the target) and takes each transmission's result as a function of its position.
- Free lists of the radar detector, its allocation and teardown, and the commands that start and stop it: allocation only succeeds or fails.
- skw_gen_new_bssid and the copying in skw_merge_profile: short arithmetic and a bounded copy; because the continuation look-up never finds anything, only the first copy ever happens.
- TDLS peers, access-point mode, external authentication, key handling beyond its success, power save, and the internal SME build.
- Receive and free-list paths, header address arithmetic and unmapping of the DMA ring.
- Locks, RCU, timers and work queues as mechanisms: each lock-held section is one step; a timer is pending or not.
- rk817_charger.c, rk808.c, panfrost_device.c, the sensor drivers, the remaining Wi-Fi files and everything under tools/: register tables, event plumbing, procfs and calls into libraries that would only add easy members.
