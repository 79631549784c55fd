# Host driver model

A Dafny model of the host side of a full-MAC Wi-Fi driver, and proofs of what its stateful parts promise.

* **Receive reordering** (`SequenceNumbers`, `ReorderSpec`, `ReorderTheorems`, `ReorderSorting`, `ReorderTiming`,
  `ReorderBuffer`).
  The specification is a window over unbounded sequence numbers: a map and a head. The class `Session` is the
  driver's ring of slots with 12-bit numbers, updated in place; each of its handlers is proved to take the
  specification's step, a run of them is a run of the specification, and the theorems are about all runs.
* **The pairwise key state machine of the authenticator** (`PtkSpec`, `PtkLog`, `PtkInvariant`, `PtkTheorems`,
  `PtkKeys`, `PtkRuns`, `PtkNotices`, `PtkHandshake`, `PtkExact`, `PtkMachine`, `PtkCounterexample`). The specification gives every handler as a function on a record that
  also keeps a log of what was sent, accepted and installed; the properties are about every log of every run. The
  class `StateMachine` holds the driver's fields, refines it handler by handler, and keeps its invariant. MIC, key
  derivation and allocation are arbitrary functions or choices.
* **Power save and the station table** (`PowerSaveQueues`, `Stations`, `AccessPoint`, `StationMeanings`, `Protection`). The classes
  `ApInfo` and `Protection` hold the table, its counters, the identifier bitmap, the traffic indications, the
  neighbour table and the HT mode. One invariant, `ApInfo.Valid`, is kept by every handler: each counter is the
  sum over the table, the buffer stays within its pool, a station awake has nothing buffered, identifiers are
  unique and in step with the bitmap, every frame accepted for buffering was sent, was dropped or is buffered, and
  within a category of a record frames leave in the order in which they were accepted.
* **The command engine** (`CommandEngine`, `CommandFates`) and **three codecs** (`Tim`, `KeyData`, `RsnIe`).

Every handler is one atomic step, as it is under its lock. Clocks, random numbers, allocation results and what
the device reports are parameters. Ticks are 32-bit and wrap; what a
timeout means is stated on a clock that does not.

Where the code does not keep a property on all inputs, the model keeps the code and states the exact condition:

* A buffer size that does not divide 4096 lets two numbers of one window share a slot (`NoCollisionIffDivides`); of those
  that do, sizes 1 and 4096 shift the window wrongly (`ShiftRightIff`). So the arithmetic is right exactly for the
  divisors of 4096 from 2 to 2048 (`GoodSizeExact`). `Addba` accepts any size, as the driver does.
* The handshake property fails when an authentic request for a new key arrives while a 2/4 is awaited, an attempt is left,
  and the copy of the request cannot be kept: the 2/4 then makes the machine send another 1/4, and a 4/4 that echoes
  that one installs the key. With no attempt left the retry counter ends above its limit instead. These are the only
  inputs that do it, and each of them can (`ExactlyTheBreakingInputs`, `HandshakeNeedsKeptRequests`).
* A 4/4 is accepted for a 3/4 that took its counter but was never sent because its key data could not be wrapped
  (`ThirdNeverOnAir`): the 3/4 was on the air exactly if the wrapping succeeded (`KeyInstalledAfterHandshake`).
* The key installed is the one derived from the latest nonces, unless the 2/4 was accepted under a key that was still valid
  and does not fit the new nonce: associating again does not invalidate the old key, and then the old one is installed
  (`OldKeyInstalled`). Which of the two it is, is exact in `RunInstallsAgreedKey`; a 2/4 accepted without a key always
  leads to the derived one.
* A deauthentication leaves the machine out of the handshake unless a request for a new key had been forgotten and an
  attempt is left: the forgotten request then sends a 1/4 (`LeavingEnds`).
* Frames are sorted as long as, at no event that does not fill the gap at the head, the frame right behind the gap is late;
  then, and only then, the timeout skips the gap (`SortsOnIff`); late means held for more than ten ticks (`SortsOnTimed`).
* The bound on buffered frames needs a pool of at least one frame (`PoolBound`, `EmptyPoolOverflows`).
* A beacon with a zero address, or one heard at tick zero, puts the neighbour table and its count out of step, since zero
  marks an unused entry (`BeaconKeepsTable`).
* The RSN element in message 3 is copied with a fixed length of 22, which is its length exactly with one pairwise and
  one key-management suite; in every other configuration it is cut (`Message3CarriesIeIff`).

Differences from the letter of the code:

* `ieee80211_release_reorder_frame` reads the frame descriptor before its test for an empty slot; the model has the evident
  intent, an empty slot only advances the head.
* The trigger test of `rx_h_uapsd_and_pspoll` combines its flags so that any data frame with the power-management bit
  passes, QoS or not; the model follows the code, not the comment.
* `APStaInfo_free` and `change_sta_disassoc_to_deauth` clear a flag before steps that do not look at it; the model
  clears it after them.
* The HT operation mode is a record of its bit fields, and the identifier bitmap and the traffic indications of `ApInfo` are
  sequences of bits; `Tim` has the byte layout of the latter.

## Model

| member | source | states |
|---|---|---|
| `SequenceNumbers.UnwrapIsNearest` | host/core/txrx_hdl.c:586-589 | a 12-bit number read relative to the head is the nearest unbounded number with those bits, and `seq_less` against the head means exactly "behind the head" |
| `SequenceNumbers.SeqLessIsOrder` | host/core/txrx_hdl.c:586-589 | for numbers at most 2048 apart, `seq_less` agrees with the order of the unbounded numbers exactly unless the second is 2048 ahead, where it is false both ways |
| `SequenceNumbers.SeqLessAhead` | host/core/txrx_hdl.c:586-589 | `seq_less(head, to)` holds exactly when `to` is 1 to 2047 ahead modulo 4096 |
| `SequenceNumbers.RingIndexIsSlot` | host/core/txrx_hdl.c:803-803 | when the size divides 4096 the slot computed from 12-bit numbers is the slot of the unbounded number |
| `SequenceNumbers.NoCollisionIffDivides` | host/core/txrx_hdl.c:803-803 | two numbers of one window never share a slot, at any head, if and only if the buffer size divides 4096 |
| `SequenceNumbers.CollisionAtWrap` | host/core/txrx_hdl.c:803-803 | for every size that does not divide 4096, the window at the wrap has a collision |
| `ReorderTheorems.BetweenExact` | host/core/txrx_hdl.c:601-651 | the frames a release hands over are exactly those held in the released range |
| `ReorderTheorems.TimeoutStopUnique` | host/core/txrx_hdl.c:699-724 | the description of where the timeout path stops determines the stop |
| `ReorderTheorems.TimeoutEndMeaning` | host/core/txrx_hdl.c:699-724 | the timeout scan stops right after a released frame, on an empty number; each run of frames it passes starts with a late one, and the next run does not |
| `ReorderTheorems.ReleasePointMeaning` | host/core/txrx_hdl.c:685-751 | after a release the head stays inside the old window and rests on a missing number |
| `ReorderTheorems.ReceiveMpduOk` | host/core/txrx_hdl.c:759-835 | a received frame keeps the window invariant; what it releases is in increasing order and below the new head |
| `ReorderTheorems.StepOk` | host/core/txrx_hdl.c:419-835 | the same for a frame, a BlockAckReq and a timer tick |
| `ReorderTheorems.InOrderDelivery` | host/core/txrx_hdl.c:601-835 | over every run of frames, BlockAckReqs and ticks: numbers are released in strictly increasing order, none twice, all between the first head and the last, and every frame still held lies in the window |
| `ReorderTheorems.StepConserves` | host/core/txrx_hdl.c:758-835 | one step neither loses nor doubles a frame |
| `ReorderTheorems.FramesConserved` | host/core/txrx_hdl.c:601-835 | over every run, each frame was released, dropped or is still held, as often as it entered |
| `ReorderSorting.MissingPlusReleased` | host/core/txrx_hdl.c:704-724 | released plus missing numbers make up the distance the head moves |
| `ReorderSorting.TimeoutReleases` | host/core/txrx_hdl.c:685-730 | the timeout path advances the head by exactly the missing numbers plus the released frames; each released frame is late itself or directly follows a released one |
| `ReorderSorting.RingHoldsWaiting` | host/core/txrx_hdl.c:892-951 | the occupied slots hold exactly the waiting frames; slot order is sequence order rotated, so a flush returns each waiting frame once |
| `ReorderSorting.HeadStaysIff` | host/core/txrx_hdl.c:699-724 | the timeout scan leaves the head where it is if and only if the frame right behind the gap is not late, however late those further behind are |
| `ReorderSorting.TickNothing` | host/core/txrx_hdl.c:654-724 | a timer tick does nothing if and only if the frame right behind the gap is not late |
| `ReorderSorting.ReceiveNew` | host/core/txrx_hdl.c:759-835 | a new frame of the window, arriving while the frame behind the gap is not late or filling the gap itself, moves the head to the next number that has not arrived |
| `ReorderSorting.UndisturbedRunSorts` | host/core/txrx_hdl.c:654-835 | frames of the window arriving in any order, with timer ticks between them, leave as the sorted complete prefix and the rest stays, as long as at no event the frame right behind the gap is late |
| `ReorderSorting.SortsOnIff` | host/core/txrx_hdl.c:654-835 | the condition is exact: on a tick, or a new frame of the window that does not fill the gap, the buffer goes on sorting if and only if the frame right behind the gap is not late |
| `ReorderSorting.PermutationDelivered` | host/core/txrx_hdl.c:654-835 | under the same condition any arrival order of n consecutive frames is delivered in order, each frame under its own number, and the buffer ends empty |
| `ReorderTiming.ExpiredMeaning` | host/include/priv/dev.h:235-235 | on a clock that does not wrap, for waits up to 2^31 + 10 ticks: a frame has waited too long exactly after more than ten ticks |
| `ReorderTiming.LateMeaning` | host/core/txrx_hdl.c:711-713 | on that clock, the frames counted as late are exactly those held for more than ten ticks |
| `ReorderTiming.TickReleasesIff` | host/core/txrx_hdl.c:654-724 | with the head number missing, a tick releases something exactly if the frame right behind the gap has waited more than ten ticks, and then it releases that frame |
| `ReorderTiming.SortsOnTimed` | host/core/txrx_hdl.c:654-835 | on a tick, or a new frame of the window that does not fill the gap, the buffer goes on sorting if and only if the frame right behind the gap has waited ten ticks at most |
| `ReorderTiming.TimedRunSorts` | host/core/txrx_hdl.c:654-835 | a session in which no gap keeps the frame behind it waiting for more than ten ticks hands the frames on in order, whatever order they arrived in |
| `ReorderTiming.FrameFate` | host/core/txrx_hdl.c:759-835 | a frame that stands for number u is dropped, and nothing else happens, exactly if u lies behind the head or is held already; otherwise it is handed on, or held with its arrival time, and the window reaches it |
| `ReorderTiming.BarFate` | host/core/txrx_hdl.c:419-449 | a BlockAckReq for a number not behind the head moves the head there and releases exactly what was held before it; any other does nothing |
| `ReorderBuffer.RingRelease` | host/core/txrx_hdl.c:601-637 | emptying the head slot of a ring is advancing the represented window by one |
| `ReorderBuffer.RingStore` | host/core/txrx_hdl.c:825-829 | filling the computed slot of a ring is adding the frame to the represented window |
| `ReorderBuffer.RingEmptyIff` | host/core/txrx_hdl.c:725-741 | no slot is occupied exactly when the window holds nothing |
| `ReorderBuffer.BeyondWindow` | host/core/txrx_hdl.c:791-795 | the test against head + size says exactly whether the frame lies beyond the window |
| `ReorderBuffer.ShiftReaches` | host/core/txrx_hdl.c:791-795 | the shift puts the new frame at the end of the window, except exactly for size 1 at distance 2048 |
| `ReorderBuffer.ShiftReachesAll` | host/core/txrx_hdl.c:791-795 | for sizes 2 to 2048 test and shift together move the head to where the specification has it, at every head and for every number |
| `ReorderBuffer.ShiftRightIff` | host/core/txrx_hdl.c:791-795 | of the sizes that divide 4096, test and shift are right at every head and for every number exactly for 2 to 2048 |
| `ReorderBuffer.ShiftFails` | host/core/txrx_hdl.c:791-795 | the inputs on which sizes 1 and 4096 fail |
| `ReorderBuffer.GoodSizeExact` | host/core/txrx_hdl.c:791-803 | for every size: the ring arithmetic is right (no two numbers of a window share a slot, every shift is right) if and only if the size divides 4096 and lies in 2..2048 |
| `ReorderBuffer.Session.PlaceFrame` | host/core/txrx_hdl.c:800-835 | a frame of the window is dropped as a duplicate, handed up at once, or stored and followed by what became ready |
| `ReorderBuffer.Session.Dispatch` | host/core/txrx_hdl.c:654-890 | any event of an open session takes the specification's step; what leaves is handed up or freed in its order |
| `ReorderBuffer.Session.Drive` | host/core/txrx_hdl.c:419-890 | a run of the driver's handlers, with interfaces going down and up between events, is a run of the specification: frames leave in order, each frame that was waiting or entered is handed up, freed or still waiting as often, and with all interfaces up the data handler sees exactly the released frames in order |
| `ReorderBuffer.SplitAccounts` | host/core/txrx_hdl.c:601-890 | what was handed up and what was freed in a run, with what still waits, accounts for every frame that was waiting or entered, as often |
| `ReorderBuffer.LeavingConserves` | host/core/txrx_hdl.c:601-637 | what leaves is split into frames handed up and frames freed, as often as they left |
| `ReorderBuffer.SidesByInterface` | host/core/txrx_hdl.c:601-637 | a frame that leaves is freed exactly if its interface is down, and handed up otherwise |
| `ReorderBuffer.Session.constructor` | host/core/host_apis.c:1158-1183 | a session without a buffer size and with empty slots |
| `ReorderBuffer.Session.ReleaseReorderFrame` | host/core/txrx_hdl.c:601-637 | one slot is emptied, its frame handed up or freed, the count and the 12-bit head follow |
| `ReorderBuffer.Session.ReleaseNumber` | host/core/txrx_hdl.c:704-724 | releasing past known gaps advances the represented window past them |
| `ReorderBuffer.Session.ReleaseReorderFrames` | host/core/txrx_hdl.c:639-651 | releases up to a 12-bit number exactly as the specification's BlockAckReq step: 1 to 2047 steps, or none |
| `ReorderBuffer.Session.ReleaseTimedOut` | host/core/txrx_hdl.c:699-724 | the timeout loop stops where the specification says (after more than ten ticks, `ReorderTiming.TickReleasesIff`), and reports a stop exactly when frames are left waiting |
| `ReorderBuffer.Session.ReleaseInOrder` | host/core/txrx_hdl.c:725-730 | releases the unbroken run at the head |
| `ReorderBuffer.Session.FindWaiting` | host/core/txrx_hdl.c:734-741 | a positive count makes the search end at an occupied slot or at the end mark |
| `ReorderBuffer.Session.ReorderRelease` | host/core/txrx_hdl.c:685-751 | refines the specification's release; the head slot is empty afterwards |
| `ReorderBuffer.Session.ManageReorderBuf` | host/core/txrx_hdl.c:759-835 | refines the specification's reception, with stale and duplicate drops, shift and store |
| `ReorderBuffer.Session.StoreAndRelease` | host/core/txrx_hdl.c:825-835 | storing a new frame and releasing what became ready |
| `ReorderBuffer.Session.RxReorderAmpdu` | host/core/txrx_hdl.c:842-890 | with a session the frame takes the specification's step, without one it passes straight through |
| `ReorderBuffer.Session.RxBar` | host/core/txrx_hdl.c:419-449 | a BlockAckReq takes the specification's step, or nothing without a session |
| `ReorderBuffer.Session.TimerReorderRelease` | host/core/txrx_hdl.c:654-673 | a tick takes the specification's step, or nothing without a session |
| `ReorderBuffer.Session.Flush` | host/core/txrx_hdl.c:892-917 | every slot is emptied and each stored frame leaves once, in slot order |
| `ReorderBuffer.Session.DeleteAmpduRx` | host/core/txrx_hdl.c:892-917 | flushes and closes the session |
| `ReorderBuffer.Session.Addba` | host/core/txrx_hdl.c:930-951 | flushes and opens a session at the start number, in order for every good size there are slots for |
| `PtkSpec.StateStepShrinks` | host/ap/wpa_auth.c:1817-1896 | a state change made for an event uses up the event or moves down the state order |
| `PtkSpec.StepShrinks` | host/ap/wpa_auth.c:1793-1896 | each pass that reports a change decreases (requests, events, state rank), so the step loop terminates from every state |
| `PtkLog.AtMostFourAttempts` | host/ap/wpa_auth.c:1531-1536 | between counter resets messages 1/4 and 3/4 together are sent or tried at most four times |
| `PtkLog.DoneAfterHandshake` | host/ap/wpa_auth.c:1878-1881 | PTKINITDONE is entered only right after an accepted 4/4 verified under some key, answering a 3/4 built under it while valid with nothing but negotiation between |
| `PtkLog.KeyInstalledAfterHandshake` | host/ap/wpa_auth.c:1757-1782 | a key is installed only on entering PTKINITDONE, right after an accepted 4/4 verified under that key, answering a 3/4 built under it while valid with nothing but negotiation between; that 3/4 went out exactly if its key data could be wrapped |
| `PtkLog.AuthorizedAfterDone` | host/ap/wpa_auth.c:1757-1782 | the station is authorised only on entering PTKINITDONE |
| `PtkLog.WindowFresh` | host/ap/wpa_auth.c:1181-1190 | every acceptable entry of the replay window was taken after the last acceptance |
| `PtkLog.AcceptedWasSentSince` | host/ap/wpa_auth.c:647-659 | an accepted counter belongs to a message built since the last acceptance, which went out exactly if it was a 1/4, or its key was valid and its key data could be wrapped |
| `PtkLog.NewestCounter` | host/ap/wpa_auth.c:1181-1190 | the newest counter is the number of messages built in the association, up to the 64-bit wrap |
| `PtkLog.SentCounter` | host/ap/wpa_auth.c:1181-1190 | each message carries its own number |
| `PtkLog.AcceptedCountersIncrease` | host/ap/wpa_auth.c:1015-1021 | within one association accepted counters strictly increase |
| `PtkLog.RequestCountersIncrease` | host/ap/wpa_auth.c:817-826 | in a log in order, the counters of requests taken strictly increase until they are forgotten |
| `PtkLog.InstalledKeyIs` | host/ap/wpa_auth.c:1591-1646 | in a log in order, an installed key is the one derived from the configured key, the nonce of the last entry of AUTHENTICATION2 and the nonce of the 2/4 last checked, if that 2/4 is authentic under it, and else the key the 2/4 was accepted under |
| `PtkInvariant.RemovePtkKeeps` | host/ap/wpa_auth.c:1324-1334 | removing an installed key touches nothing but the key and keeps the log in order |
| `PtkInvariant.StaDisconnectZeroes` | host/ap/wpa_auth.c:408-426 | disconnecting a station that is found leaves a machine as good as new, with all its aspects in order |
| `PtkInvariant.InitializeKeeps` | host/ap/wpa_auth.c:1414-1432 | entering INITIALIZE gives a machine in motion, within its retry limit, and with the handshake in order |
| `PtkInvariant.DisconnectKeeps` | host/ap/wpa_auth.c:1435-1441 | entering DISCONNECT keeps the invariant, or ends the machine if the station is found |
| `PtkInvariant.DisconnectedKeeps` | host/ap/wpa_auth.c:1443-1448 | entering DISCONNECTED keeps the invariant |
| `PtkInvariant.AuthenticationKeeps` | host/ap/wpa_auth.c:1450-1458 | entering AUTHENTICATION keeps the invariant |
| `PtkInvariant.Authentication2Keeps` | host/ap/wpa_auth.c:1460-1479 | entering AUTHENTICATION2 keeps the invariant (that it takes the nonce supplied: `PtkKeys.Authentication2Keys`, `PtkRuns.RunNonceSupplied`) |
| `PtkInvariant.InitPmkKeeps` | host/ap/wpa_auth.c:1481-1508 | entering INITPMK keeps the invariant |
| `PtkInvariant.InitPskKeeps` | host/ap/wpa_auth.c:1510-1520 | entering INITPSK keeps the invariant |
| `PtkInvariant.PtkStartKeeps` | host/ap/wpa_auth.c:1522-1588 | entering PTKSTART keeps the invariant, also with a second message still to be looked at |
| `PtkInvariant.CalcKeeps` | host/ap/wpa_auth.c:1591-1646 | entering PTKCALCNEGOTIATING keeps key and integrity code valid together |
| `PtkInvariant.Calc2Keeps` | host/ap/wpa_auth.c:1649-1653 | entering PTKCALCNEGOTIATING2 keeps the invariant |
| `PtkInvariant.ThirdSent` | host/ap/wpa_auth.c:1655-1755 | after a 3/4 was built, every counter that is acceptable belongs to a 3/4 of this negotiation |
| `PtkInvariant.InitNegotiatingKeeps` | host/ap/wpa_auth.c:1655-1755 | entering PTKINITNEGOTIATING keeps the invariant |
| `PtkInvariant.DoneKeeps` | host/ap/wpa_auth.c:1757-1790 | entering PTKINITDONE keeps the log in order: the key goes in only after an accepted 4/4 of this negotiation |
| `PtkInvariant.StepKeeps` | host/ap/wpa_auth.c:1793-1896 | one pass keeps the invariant, and a pass that changes nothing leaves the machine at rest |
| `PtkInvariant.SettleRests` | host/ap/wpa_auth.c:1933-1964 | the step loop brings a machine in motion to rest, with CALCNEGOTIATING at rest having neither a valid key nor a verified MIC; retry limit and handshake stay safe |
| `PtkTheorems.HandleGood` | host/ap/wpa_auth.c:551-1394 | every handler restores the invariant, and keeps retry limit and handshake safe unless it forgets a request at the wrong moment |
| `PtkTheorems.EveryRunIsGood` | host/ap/wpa_auth.c:551-1394 | every run from power-up, whatever fails in it, satisfies the invariant and has counters and attempts in order throughout its log |
| `PtkTheorems.UnbrokenRunInOrder` | host/ap/wpa_auth.c:551-1394 | retry limit between calls and handshake are in order in every run without a breaking input |
| `PtkTheorems.RunInstallsAfterHandshake` | host/ap/wpa_auth.c:847-1041 | the key-installation property for every run that never forgets an authentic request for a new key while a 2/4 is awaited, an attempt is left and there is a buffer for it |
| `PtkTheorems.RunDoneAfterHandshake` | host/ap/wpa_auth.c:1878-1881 | the same of every entry of PTKINITDONE, whether or not a key is installed |
| `PtkTheorems.RunAuthorizesAfterHandshake` | host/ap/wpa_auth.c:1757-1790 | and so of every authorisation of the station |
| `PtkTheorems.RunInstallsAfterSentThird` | host/ap/wpa_auth.c:1757-1782 | in such a run the 3/4 answered was on the air, if key data can always be wrapped |
| `PtkTheorems.RunAcceptsFreshCounters` | host/ap/wpa_auth.c:829-845 | the replay property for every run |
| `PtkTheorems.RunCountersIncrease` | host/ap/wpa_auth.c:1015-1021 | accepted counters strictly increase within an association, for every run |
| `PtkTheorems.RunRetriesBounded` | host/ap/wpa_auth.c:1852-1892 | at most four attempts between counter resets, at every point of every run |
| `PtkKeys.Authentication2Keys` | host/ap/wpa_auth.c:1460-1479 | entering AUTHENTICATION2 keeps the machine's nonce equal to the last one logged as taken |
| `PtkKeys.CalcKeys` | host/ap/wpa_auth.c:1591-1646 | checking a 2/4 leaves a valid key only if it is the one agreed on |
| `PtkKeys.RequestKeys` | host/ap/wpa_auth.c:817-826 | a request that is taken has a counter above the last one taken, and is authentic |
| `PtkKeys.EveryRunKeysOk` | host/ap/wpa_auth.c:551-1394 | after every run: nonce and request counter are what the log says, from PTKSTART on the master key is the configured one, and a valid key under negotiation is the one agreed on |
| `PtkRuns.RunNonceSupplied` | host/ap/wpa_auth.c:1468-1471 | in every run, each nonce taken is the one supplied with the input being handled just then |
| `PtkRuns.RunInstallsAgreedKey` | host/ap/wpa_auth.c:1591-1782 | in every run, an installed key is derive(configured key, a, s), with a the nonce supplied with the input of the last entry of AUTHENTICATION2 and s the nonce of the 2/4 last checked, if that 2/4 is authentic under it; if not, it is the key the 2/4 was accepted under; a 2/4 accepted without a key always leads to the derived one |
| `PtkRuns.RunSendsNonce` | host/ap/wpa_auth.c:1540-1588 | in every run, each message carries the nonce taken at the last entry of AUTHENTICATION2 |
| `PtkRuns.RunRequestsIncrease` | host/ap/wpa_auth.c:817-826 | in every run, the counters of requests taken strictly increase between two clearings, and each is authentic under the key it was verified by |
| `PtkRuns.RunIgnoresStaleRequest` | host/ap/wpa_auth.c:817-826 | after every run, a request with a counter not above the last one taken leaves the machine as it was |
| `PtkRuns.RunWindow` | host/ap/wpa_auth.c:647-659 | after every run, a counter is acceptable exactly if one of the last four messages sent since the last acceptance or reset carried it |
| `PtkRuns.RunTakesIff` | host/ap/wpa_auth.c:696-1041 | after every run, a frame is accepted, or taken as a request, exactly if its format, state, counter and integrity code are right; any other changes at most the note that the code was verified, or is a 2/4 with a foreign element |
| `PtkNotices.NoticeRevokes` | host/ap/wpa_auth.c:1337-1394 | after any notice no key is valid, and unless it is a re-authentication over EAPOL none is installed |
| `PtkNotices.LeavingEnds` | host/ap/wpa_auth.c:1357-1360 | after a deauthentication or disassociation the machine is in INITIALIZE, unless a request for a new key had been forgotten and an attempt is left: then, and only then, in PTKSTART |
| `PtkNotices.ReauthStarts` | host/ap/wpa_auth.c:1361-1384 | a re-authentication starts a new handshake: the nonce supplied, the first of four attempts, a 1/4 with that nonce |
| `PtkNotices.ReassociationStarts` | host/ap/wpa_auth.c:570-574 | so does an association of a started machine; but a valid key stays valid |
| `PtkNotices.TimerResends` | host/ap/wpa_auth.c:1078-1089 | while an answer is awaited the timer sends the message again with the next counter, and gives the station up after the fourth attempt |
| `PtkNotices.RequestRestarts` | host/ap/wpa_auth.c:990-1000 | a request that counts, for a pairwise key or with an error, gives the key up and sends a 1/4, or gives the station up when no attempt is left |
| `PtkNotices.GroupRequestKeepsKey` | host/ap/wpa_auth.c:1002-1013 | a request for a group key leaves state and pairwise key alone |
| `PtkNotices.ForeignElement` | host/ap/wpa_auth.c:894-911 | a 2/4 whose information element is not the one of the association costs the station its place |
| `PtkNotices.NoWpaSendsNothing` | host/ap/wpa_auth.c:588-597 | a station that associates without protection is sent no message |
| `PtkHandshake.HonestHandshake` | host/ap/wpa_auth.c:563-1790 | after any run, a station that associates, answers authentically under the derived key and acknowledges, gets exactly that key installed and is authorised if the table knows it; 1/4 and 3/4 carried the nonce supplied and the counters 1 and 2 |
| `PtkHandshake.SecondAssociation` | host/ap/wpa_auth.c:570-574 | a second association takes the new nonce and keeps the key |
| `PtkHandshake.SecondTaken` | host/ap/wpa_auth.c:847-1041 | an authentic 2/4 leads to the 3/4, under the derived key if it fits and under the old one if not |
| `PtkHandshake.FourthTaken` | host/ap/wpa_auth.c:1757-1790 | an authentic 4/4 with an acceptable counter leads to PTKINITDONE, the key and the authorisation |
| `PtkExact.ExactlyTheBreakingInputs` | host/ap/wpa_auth.c:996-1030 | the conditions are exact: after any run without a breaking input, an input leaves the handshake (or the retry limit) in order whatever harmless inputs follow, if and only if it is not a breaking one |
| `PtkExact.AnswersFirst` | host/ap/wpa_auth.c:996-1041 | after any input that breaks the handshake, the next two frames install a key on an answer to a 1/4 |
| `PtkExact.RestsAboveLimit` | host/ap/wpa_auth.c:996-1041 | after any input that breaks the retry limit, the next frame leaves the counter at five between calls |
| `PtkCounterexample.HandshakeNeedsKeptRequests` | host/ap/wpa_auth.c:996-1030 | a concrete seven-event run in which a copy cannot be kept and a 4/4 echoing a 1/4 installs the key |
| `PtkCounterexample.ThirdNeverOnAir` | host/ap/wpa_auth.c:1218-1228 | a concrete four-event run, in order and with every copy kept, in which no 3/4 gets on the air and the key is installed |
| `PtkCounterexample.OldKeyInstalled` | host/ap/wpa_auth.c:1591-1646 | a concrete six-event run in which a station associates again with a valid key, and the key of the old nonce is installed at the end of the new handshake |
| `PtkMachine.CreditIgnoresMic` | host/ap/wpa_auth.c:989-1041 | what a frame is credited with does not depend on the earlier MIC mark |
| `PtkMachine.StateMachine.constructor` | host/ap/wpa_auth.c:551-560 | a cleared machine |
| `PtkMachine.StateMachine.Zero` | host/ap/wpa_auth.c:551-560 | clears the machine, in place |
| `PtkMachine.StateMachine.ClearReplay` | host/ap/wpa_auth.c:570-574 | the loop clears all four entries |
| `PtkMachine.StateMachine.ForgetReplay` | host/ap/wpa_auth.c:570-574 | on re-association the whole replay window is cleared, and the log says so |
| `PtkMachine.StateMachine.ReplayCounterValid` | host/ap/wpa_auth.c:647-659 | the loop decides exactly whether the counter is one of the valid entries before the first invalid one |
| `PtkMachine.StateMachine.ShiftReplay` | host/ap/wpa_auth.c:1181-1190 | the in-place shift, with the incremented counter as newest entry |
| `PtkMachine.StateMachine.SendEapol` | host/ap/wpa_auth.c:1262-1289 | a started machine that finds a buffer shifts the window and logs the message under the new counter |
| `PtkMachine.StateMachine.SmStep` | host/ap/wpa_auth.c:1933-1964 | the do-while loop ends, in the state the specification settles in |
| `PtkMachine.StateMachine.Start` | host/ap/wpa_auth.c:551-560 | a started-over machine is ready: invariant kept, log in order, every aspect safe |
| `PtkMachine.StateMachine.Associate` | host/ap/wpa_auth.c:563-585 | both ways of association end with the machine ready again |
| `PtkMachine.StateMachine.StepAssociated` | host/ap/wpa_auth.c:563-585 | the two steppings of a first association and the one of a re-association amount to the specification's |
| `PtkMachine.StateMachine.ReceiveKey` | host/ap/wpa_auth.c:696-1041 | a received frame leaves the machine ready again, and every aspect safe unless the frame is a request forgotten at the wrong moment |
| `PtkMachine.StateMachine.CheckKeyFrame` | host/ap/wpa_auth.c:696-1041 | the early returns, in the order of the code, amount to the conditions of the specification (which frames pass them: `PtkRuns.RunTakesIff`) |
| `PtkMachine.StateMachine.TakeKeyFrame` | host/ap/wpa_auth.c:847-1041 | the MIC gate, crediting and stepping |
| `PtkMachine.StateMachine.OnTimeout` | host/ap/wpa_auth.c:1078-1089 | the retry timer leaves the machine ready again: invariant kept, log in order, safe aspects safe |
| `PtkMachine.StateMachine.OnEvent` | host/ap/wpa_auth.c:1337-1394 | so does every machine event |
| `PtkMachine.StateMachine.OnNoWpa` | host/ap/wpa_auth.c:588-597 | so does an association without WPA |
| `PtkMachine.StateMachine.OnStationFreed` | host/ap/ap_sta_info.c:873-882 | so does the clearing that comes with freeing the station |
| `PtkMachine.StateMachine.Dispatch` | host/ap/wpa_auth.c:551-1394 | so does whatever happens |
| `PtkMachine.StateMachine.Drive` | host/ap/wpa_auth.c:551-1394 | any sequence of handler calls on a new machine is a run of the specification: counters and attempts are in order throughout its log, and handshake and retry limit unless an input was a breaking one |
| `PowerSaveQueues.ResponseSplits` | host/ap/ap_sta_info.c:1107-1143 | a response takes the first n eligible frames, most urgent category first and oldest first within one, leaves the other eligible ones in order and the ignored categories untouched |
| `PowerSaveQueues.TakeFrames` | host/ap/ap_sta_info.c:1107-1143 | the collecting loops take exactly those frames and report exactly whether an eligible one is left |
| `PowerSaveQueues.Drain` | host/ap/ap_sta_info.c:1117-1137 | the inner loop takes the first n frames of a queue |
| `PowerSaveQueues.MarkFrames` | host/ap/ap_sta_info.c:1192-1263 | the sending loop marks each frame as the specification does |
| `PowerSaveQueues.ResponseMarks` | host/ap/ap_sta_info.c:1107-1263 | More Data on every frame but the last and on the last exactly when an eligible frame is left; end of service period on no frame but the last, and there exactly for a QoS frame of a service period |
| `PowerSaveQueues.NullTidIsMostUrgent` | host/ap/ap_sta_info.c:1170-1171 | the null frame uses the most urgent category that is not ignored |
| `PowerSaveQueues.LeastUrgent` | host/ap/ap_tx.c:273-285 | the category a purge takes from: the least urgent that has frames |
| `PowerSaveQueues.PurgeOldest` | host/ap/ap_tx.c:257-290 | a purge removes one frame from a station that has any |
| `PowerSaveQueues.PurgeKeepsCopies` | host/ap/ap_tx.c:257-290 | a purge loses nothing but its victim |
| `PowerSaveQueues.EnqueueAppends` | host/ap/ap_tx.c:364-377 | the new frame goes to the tail of its category, which gives up its oldest frame exactly when it is full; the other categories are untouched |
| `PowerSaveQueues.UpToAc` | host/ap/ap_tx.c:86-96 | the eight priorities map to categories as in the table |
| `Stations.LeaveInOrder` | host/ap/ap_tx.c:341-436 | under the invariant of every handler, frames of one category leave, sent or dropped, in the order in which they were accepted: if one still waits, so does every later one |
| `Stations.LinedReplace` | host/ap/ap_sta_info.c:1107-1143 | taking frames from the fronts of a record's queues keeps every queue the latest of what was accepted for it |
| `AccessPoint.EnqueueLined` | host/ap/ap_tx.c:376-376 | queueing keeps every queue the latest of what was accepted for it, in order |
| `Stations.ServiceLength` | host/ap/ap_sta_info.c:1312-1327 | a service period delivers twice the setting, and eight frames for the setting zero |
| `PowerSaveQueues.EnqueueKeepsCopies` | host/ap/ap_tx.c:364-377 | queueing adds the new frame, loses at most the oldest of a full queue, and no queue passes 128 |
| `PowerSaveQueues.ResponseKeepsCopies` | host/ap/ap_sta_info.c:1107-1143 | a response loses nothing but what it takes |
| `Stations.TotalUpdate` | host/ap/ap_info.h:120-146 | changing one record changes every counter by the difference of its shares |
| `Stations.CountersAreCardinalities` | host/ap/ap_info.h:120-146 | each counter is the number of records carrying its flag |
| `Stations.TotalFull` | host/ap/ap_sta_info.c:649-671 | as many records as the table has are in use exactly when none is free |
| `Stations.PurgeMakesRoom` | host/ap/ap_tx.c:257-290 | if anything is buffered, a purge removes at least one frame, and the total follows |
| `Stations.FirstClearBit` | host/ap/ieee802_11_mgmt.c:537-553 | pigeonhole: while a record has no identifier, the first clear bit lies below the table size |
| `Stations.AidTaken` | host/ap/ieee802_11_mgmt.c:549-554 | handing out a clear bit keeps identifiers unique and in step with the bitmap |
| `Stations.AidGiven` | host/ap/ap_sta_info.c:747-750 | giving an identifier back keeps them so |
| `Stations.SomeBuffered` | host/ap/ap_sta_info.c:284-307 | the total is positive exactly when some record has a frame |
| `Stations.Stale` | host/ap/ap_sta_info.c:218-246 | the expired frames at the front of a queue, up to the first that is not |
| `Stations.RefreshedMeaning` | host/ap/ap_sta_info.c:252-307 | recomputing all indications makes each associated station's bit right and leaves bits that belong to nobody alone |
| `Stations.PurgeConserves` | host/ap/ap_tx.c:257-290 | over the whole table a purge loses nothing but its victims |
| `Stations.PurgeSound` | host/ap/ap_tx.c:257-290 | a purge keeps the invariant |
| `AccessPoint.ApInfo.constructor` | host/ap/ap.c:361-386 | an empty table satisfies the invariant |
| `AccessPoint.ApInfo.RecalcTim` | host/ap/ap_sta_info.c:117-172 | afterwards the station's bit says exactly whether it has something waiting; the result says whether it changed |
| `AccessPoint.ApInfo.DeliverResponse` | host/ap/ap_sta_info.c:1084-1275 | the record, the frames sent and the indication after a response; the invariant is kept |
| `AccessPoint.ApInfo.PollResponse` | host/ap/ap_sta_info.c:1283-1297 | a poll is answered with at most one frame, from the categories the station does not trigger (any, if it triggers all) |
| `AccessPoint.ApInfo.DeliverUapsd` | host/ap/ap_sta_info.c:1299-1331 | a service period of 2, 4, 6 or 8 frames from the categories the station triggers, and nothing if there are none |
| `AccessPoint.ApInfo.PurgeOld` | host/ap/ap_tx.c:257-290 | one frame per station from its least urgent category; fewer frames are buffered afterwards |
| `AccessPoint.ApInfo.PurgeEach` | host/ap/ap_tx.c:264-288 | the loop of the purge |
| `AccessPoint.ApInfo.BufferUnicast` | host/ap/ap_tx.c:341-436 | a frame is buffered exactly for a dozing station (and not if native), the pool bound, frame conservation and the order within each category hold, and a changed indication sends one frame |
| `AccessPoint.ApInfo.EnqueueFrame` | host/ap/ap_tx.c:364-385 | below the bound, queueing puts the frame at the tail, keeps the invariant with its order, and counts the frame unless a full queue gave one up |
| `AccessPoint.ApInfo.PurgeSta` | host/ap/ap_tx.c:292-311 | every buffered frame, least urgent category first |
| `AccessPoint.ApInfo.DrainAll` | host/ap/ap_sta_info.c:1355-1373 | every buffered frame, most urgent category first |
| `AccessPoint.ApInfo.DeliverWakeup` | host/ap/ap_sta_info.c:1337-1391 | waking sends everything buffered in order, empties the queues and clears the indication |
| `AccessPoint.ApInfo.StaProcess` | host/ap/ap_rx.c:276-328 | exactly when a frame wakes a station or puts it to doze, and what follows |
| `AccessPoint.ApInfo.RxUapsdAndPsPoll` | host/ap/ap_rx.c:153-205 | exactly when a poll or a trigger is answered, and with what |
| `AccessPoint.ApInfo.NeedToBeReceived` | host/ap/ap_rx.c:44-72 | the receive chain: power state and queues afterwards, what is sent, when the indication is recomputed, and whether the frame goes up |
| `AccessPoint.ReceivedMeaning` | host/ap/ap_rx.c:153-328 | only a data frame without the power-management bit wakes a station, leaving nothing buffered; a station that goes on dozing is at most served |
| `AccessPoint.ApInfo.ExpireAc` | host/ap/ap_sta_info.c:218-266 | exactly the expired front of one queue is dropped and the indication recomputed |
| `AccessPoint.ApInfo.ExpireStation` | host/ap/ap_sta_info.c:268-279 | the expired fronts of all four queues are dropped, most urgent first, the indication recomputed, and it is reported whether anything is left |
| `AccessPoint.ApInfo.Cleanup` | host/ap/ap_sta_info.c:284-307 | the same for all stations, one after the other, with every indication recomputed; the timer is wanted again exactly while something is buffered |
| `AccessPoint.DropStale` | host/ap/ap_sta_info.c:228-250 | the loop drops exactly the expired front |
| `AccessPoint.ApInfo.ReportQueue` | host/core/txrx_task.c:93-109 | a reported device queue length is stored; a positive one recomputes the indication |
| `AccessPoint.ApInfo.SetAuthorized` | host/ap/ap_sta_info.c:374-414 | the flag and its counter change together |
| `AccessPoint.ApInfo.DrvRemove` | host/ap/ap_sta_info.c:674-709 | a dozing station is woken without delivery: its frames are dropped, its indication cleared, the counters follow |
| `AccessPoint.ApInfo.Free` | host/ap/ap_sta_info.c:713-895 | the record becomes blank, its identifier is free, every counter and the HT mode forget it, its frames are accounted as dropped |
| `AccessPoint.ApInfo.Reset` | host/ap/ap_sta_info.c:747-895 | the last part of that |
| `AccessPoint.ApInfo.DisassocToDeauth` | host/ap/ap_sta_info.c:416-439 | authorisation, association and power state are given up, nothing else |
| `AccessPoint.ApInfo.FindStaByAddr` | host/ap/ap_sta_info.c:587-604 | the record of an address, or none |
| `AccessPoint.ApInfo.Evict` | host/ap/ap_sta_info.c:904-917 | a silent station loses its record |
| `AccessPoint.ApInfo.MostSilent` | host/ap/ap_sta_info.c:928-939 | a station beyond the retry limit that is most silent, if there is one |
| `AccessPoint.ApInfo.GetNewSta` | host/ap/ap_sta_info.c:649-671 | the first free record, or none exactly when all are in use |
| `AccessPoint.ApInfo.Add` | host/ap/ap_sta_info.c:897-977 | an address known is found; a new one fails exactly when every record belongs to a station that still answers; only silent stations lose their records |
| `AccessPoint.ApInfo.GetAid` | host/ap/ieee802_11_mgmt.c:527-557 | never fails; an old identifier is kept, a new one is the lowest free, unused by anyone and at most the table size |
| `AccessPoint.ApInfo.AssignAid` | host/ap/ieee802_11_mgmt.c:553-554 | record and bitmap change together |
| `AccessPoint.ApInfo.FirstClear` | host/ap/ieee802_11_mgmt.c:537-546 | the lowest clear bit of the word |
| `AccessPoint.ApInfo.HandleAssoc` | host/ap/ap_mlme.c:393-641 | who is refused, who loses the record, and the record of the one who joins, with a valid identifier; all counters and the HT mode follow |
| `AccessPoint.ApInfo.Join` | host/ap/ap_mlme.c:481-582 | the part from the identifier on |
| `AccessPoint.JoinRecord` | host/ap/ap_mlme.c:481-582 | the record is the specified one and every counter changes by the difference of its share |
| `AccessPoint.CountMarks` | host/ap/ap_mlme.c:502-558 | a limitation is counted once per record, however often the station associates |
| `AccessPoint.CountOnce` | host/ap/ap_mlme.c:506-516 | a counter moves exactly when the mark does |
| `StationMeanings.MarksMeaning` | host/ap/ap_mlme.c:502-558 | after any sequence of associations of a fresh record, each mark is set exactly if some request lacked what it stands for |
| `StationMeanings.SettingsMeaning` | host/ap/ap_mlme.c:481-582 | QoS, power-save categories, service period, HT and listen interval are those of the last request; the station is authorised exactly if it was before or no key is configured; nothing else changes |
| `StationMeanings.ExpiredMeaning` | host/ap/ap_sta_info.c:199-216 | on a clock that does not wrap, a buffered frame expires exactly after ten seconds or its listen interval, whichever is longer |
| `StationMeanings.IndicationMeansPoll` | host/ap/ap_sta_info.c:117-172 | unless the device holds frames, the traffic bit is set exactly when a poll would be answered with a buffered frame, which is the first eligible one |
| `StationMeanings.PollLooksAt` | host/ap/ap_sta_info.c:1283-1297 | a poll looks at the categories a station does not trigger itself, or at all if it triggers all |
| `StationMeanings.ResponseMeaning` | host/ap/ap_sta_info.c:1107-1263 | a response sends the first of the eligible frames with the right More Data and end-of-period marks, keeps the others in order, and ends the service period |
| `StationMeanings.TriggerMeaning` | host/ap/ap_rx.c:153-205 | a trigger gets up to two frames per unit of the service-period setting, or eight for none, from the triggered categories only; any other frame with the power-management bit gets nothing |
| `StationMeanings.NullFrameIff` | host/ap/ap_sta_info.c:1145-1185 | a response is a null frame exactly when nothing is eligible and the device has reported that it has nothing |
| `StationMeanings.QueuedIsIndicated` | host/ap/ap_tx.c:376-391 | a frame queued where a poll looks, or counted by the device, is indicated |
| `StationMeanings.HtModeOfCell` | host/ap/ieee802_11_ht.c:123-170 | the HT mode in terms of the members of the cell: 3 with a member that is not HT, else 2 with a 20 MHz member of a wide cell, else 1 with such a neighbour, else 0 |
| `AccessPoint.UpdateHtState` | host/ap/ieee802_11_ht.c:194-230 | the three HT marks and counters |
| `AccessPoint.ApInfo.RxAuth` | host/ap/ap_mlme.c:1053-1196 | a request that fails the first checks changes nothing; room is refused exactly when every record belongs to another station that still answers; a later refusal costs the record; and under the shared key a station is authenticated only by returning, encrypted, the challenge it was given |
| `AccessPoint.ApInfo.SetAuthState` | host/ap/ap_mlme.c:1155-1176 | the flag and the challenge change, the invariant and the counters do not |
| `AccessPoint.SharedKey` | host/ap/ap_mlme.c:129-181 | exactly when a challenge is handed out or accepted |
| `AccessPoint.ApInfo.RxDeauth` | host/ap/ap_mlme.c:1199-1247 | exactly the record of that address becomes blank |
| `AccessPoint.ApInfo.RxDisassoc` | host/ap/ap_mlme.c:971-1006 | exactly the record of that address becomes blank |
| `AccessPoint.ApInfo.CountSilence` | host/ap/ap_sta_info.c:516-537 | the retry count grows to its limit, or is cleared |
| `AccessPoint.ApInfo.RxBeacon` | host/ap/ap_mlme.c:933-961 | entry and overlap conditions after a neighbour's beacon; the invariant of the whole access point survives exactly when neither address nor clock is zero, or both are and an unused entry takes it |
| `AccessPoint.ApInfo.NeighborTimer` | host/ap/neighbor_ap_list.c:212-289 | the neighbour timer keeps the invariant and makes the overlap conditions exact |
| `AccessPoint.PoolBound` | host/ap/ap_tx.c:359-377 | with a pool of at least one frame, the total never exceeds the pool |
| `AccessPoint.EmptyPoolOverflows` | host/ap/ap_tx.c:359-377 | with an empty pool it does, on the first frame buffered |
| `AccessPoint.NullFrameCategory` | host/ap/ap_sta_info.c:1170-1171 | both callers leave the null frame a category of the right kind |
| `Protection.Protection.constructor` | host/ap/neighbor_ap_list.c:291-308 | an empty neighbour table satisfies the invariant |
| `Protection.Protection.HtOperationUpdate` | host/ap/ieee802_11_ht.c:123-170 | afterwards the mode is its defining function of the counters and the overlap condition; the result is positive exactly when it changed |
| `Protection.Protection.SetHtCounts` | host/ap/ieee802_11_ht.c:226-238 | new counts keep the mode equal to its definition |
| `Protection.Protection.Find` | host/ap/neighbor_ap_list.c:49-63 | the first entry with the address, or none |
| `Protection.Protection.FreeAp` | host/ap/neighbor_ap_list.c:66-70 | the entry is cleared and the count drops |
| `Protection.Protection.FindOldest` | host/ap/neighbor_ap_list.c:84-94 | the entry the search settles on |
| `Protection.Protection.ApAdd` | host/ap/neighbor_ap_list.c:72-108 | the first unused entry, or the oldest one of a full table; the count follows |
| `Protection.Protection.RecordBeacon` | host/ap/neighbor_ap_list.c:119-178 | the entry of the sender holds the beacon |
| `Protection.Protection.ProcessBeacon` | host/ap/neighbor_ap_list.c:111-209 | entry, count and overlap conditions after a beacon; the invariant survives exactly when neither address nor clock is zero, or both are and an unused entry takes it |
| `Protection.Protection.Sweep` | host/ap/neighbor_ap_list.c:226-256 | the loop frees exactly the expired entries and sees the legacy and non-HT ones that remain |
| `Protection.Protection.ListTimer` | host/ap/neighbor_ap_list.c:212-289 | expired entries are freed; afterwards `olbc` (with ERP on) and `olbc_ht` hold exactly when a stored neighbour calls for them |
| `Protection.OldestIsLeastRecent` | host/ap/neighbor_ap_list.c:84-94 | while no entry is older than half the tick range, the entry replaced is one heard longest ago |
| `Protection.BeaconKeepsTable` | host/ap/neighbor_ap_list.c:72-178 | the exact condition under which a beacon keeps the table and its count in step |
| `Protection.OccupiedAll` | host/ap/neighbor_ap_list.c:76-77 | the table is full exactly when no entry is unused |
| `Protection.SweptKeepsTable` | host/ap/neighbor_ap_list.c:226-240 | freeing entries introduces no duplicate and no legacy neighbour |
| `Protection.SweptMeaning` | host/ap/neighbor_ap_list.c:226-240 | on a clock that does not wrap, a neighbour is forgotten exactly when it was last heard longer ago than the expiry |
| `Tim.TimRoundTrip` | host/ap/beacon.c:511-591 | for every bitmap and every 16-bit AID the reader finds in the written element exactly the bit of the low eleven bits, when some station dozes |
| `Tim.TimRoundTripForAids` | host/core/ieee80211.h:1926-1948 | for AIDs up to 2007 the reader returns true exactly when a station dozes and that AID's bit is set |
| `Tim.TimHeader` | host/ap/beacon.c:511-591 | the element starts with its identifier, its length, the DTIM count and the DTIM period |
| `Tim.TimAllOnes` | host/ap/beacon.c:575-588 | what the reader sees with the all-ones option |
| `Tim.NoBitsIsZero` | host/ap/beacon.c:520-523 | no bit up to the highest AID is set exactly when all bytes are zero |
| `Tim.NonZeroRange` | host/ap/beacon.c:551-564 | the trimmed range starts at an even byte, contains every non-zero byte and is not empty |
| `Tim.BeaconAddTim` | host/ap/beacon.c:511-591 | the bytes written are the specified element, the rest of the buffer is untouched |
| `Tim.WritePartialMap` | host/ap/beacon.c:546-574 | the same for the partial map |
| `Tim.FindRange` | host/ap/beacon.c:551-564 | the two scans find the specified range |
| `Tim.HaveBits` | host/ap/beacon.c:520-523 | whether some bit is set |
| `Tim.CopyBytes` | host/ap/beacon.c:570-570 | the copied bytes are in place and the others unchanged |
| `KeyData.ParseKdeIes` | host/ap/wpa_auth_ie.c:487-528 | the loop computes the specified result on every byte string |
| `KeyData.ParsedInside` | host/ap/wpa_auth_ie.c:440-528 | every range the parser returns lies inside the buffer |
| `KeyData.ParseElements` | host/ap/wpa_auth_ie.c:487-528 | on any list of well-formed elements followed by padding, the parser absorbs exactly the elements, in order |
| `KeyData.Padded` | host/ap/wpa_auth.c:1200-1216 | padding reaches a multiple of 8 and keeps the data in front |
| `KeyData.Message3RoundTrip` | host/ap/wpa_auth.c:1722-1746 | RSN element and GTK element, padded to any length, parse back to exactly that element and key id with key; the key is recognised exactly when it is not empty |
| `KeyData.GtkElement` | host/ap/wpa_auth_ie.c:254-268 | the written GTK element is a well-formed element with the GTK selector |
| `KeyData.RsnIeWellFormed` | host/ap/wpa_auth_ie.c:109-199 | the RSN writer yields a well-formed element, of the fixed length message 3 assumes exactly when one pairwise and one key-management suite are configured |
| `KeyData.Message3CarriesIeIff` | host/ap/wpa_auth.c:1722-1746 | message 3 starts with the configured RSN element if and only if one pairwise and one key-management suite are configured; otherwise the element is cut |
| `KeyData.KdeReadBack` | host/ap/wpa_auth_ie.c:254-268 | a PMKID and a MAC address encapsulation are read back as what they hold, and as nothing else |
| `RsnIe.ParseWpaIeRsn` | host/ap/common/wpa_common.c:174-307 | the reader of the RSN element, with its error codes, computes the specification on arbitrary bytes |
| `RsnIe.SuitesReadBack` | host/ap/common/wpa_common.c:231-268 | reading a list of suites of any length gives exactly those listed |
| `RsnIe.RsnRoundTrip` | host/ap/wpa_auth_ie.c:109-199 | the element written for any configuration is read back as exactly its group cipher, its pairwise ciphers, its key management suites and its capabilities |
| `RsnIe.Wpa2PskElement` | host/ap/wpa_auth_ie.c:109-199 | the octets of the element for CCMP with a pre-shared key |
| `KeyData.ConfiguredMessage3` | host/ap/wpa_auth.c:1722-1746 | with such a configuration message 3 carries exactly the RSN element and the GTK |
| `CommandEngine.StepKeeps` | host/core/host_cmd_engine.c:122-148 | every handler keeps the engine invariant |
| `CommandEngine.EveryRunIsGood` | host/core/host_cmd_engine.c:122-228 | over every interleaving of commands, events, flushes and mode changes the log is in order and the block matches it |
| `CommandEngine.CommandsLeaveInOrder` | host/core/host_cmd_engine.c:122-228 | commands reach the transmit queue in the order of their arrival |
| `CommandEngine.NothingPassesABlock` | host/core/host_cmd_engine_tx.c:351-393 | after a blocking command left, nothing leaves before its completion or a flush |
| `CommandEngine.CommandsAccountedFor` | host/core/host_cmd_engine.c:122-228 | every command that arrived was disposed of exactly once or is pending exactly once |
| `CommandFates.ActionCaused` | host/core/host_cmd_engine.c:122-228 | in every run each action is due to the input handled just then: a command is lost only when it arrives while blocked, is no mode command and finds no memory; it leaves or is refused as the transmit queue says; only commands not for the device are handled by the engine; only leaving the running mode flushes |
| `CommandFates.CommandFate` | host/core/host_cmd_engine.c:122-228 | in every run command i is lost if and only if it arrived while blocked, was no mode command and found no memory; if neither lost nor flushed it is pending, or left or was refused if it is for the device, or was handled if not |
| `CommandFates.OneFate` | host/core/host_cmd_engine.c:122-228 | no command has two fates |
| `CommandFates.RunNamed` | host/core/host_cmd_engine.c:122-228 | every entry, pending or logged, carries the command that arrived in its position |
| `CommandEngine.DrainAllWaits` | host/core/host_cmd_engine.c:206-228 | when the task waits again, it is blocked or nothing is pending |
| `CommandEngine.CmdEng.constructor` | host/core/host_cmd_engine.c:433-453 | an engine at the start of the specification |
| `CommandEngine.CmdEng.HandleQueueCommand` | host/core/host_cmd_engine.c:122-148 | a command taken while the task waits keeps the invariant: order, block and accounting; while blocked it is held back if there is memory, and lost if not, and nothing goes out; otherwise a device command leaves or is refused as the queue says |
| `CommandEngine.CmdEng.RxHdlEvent` | host/core/host_cmd_engine_rx.c:376-411 | keeps the invariant; the block is lifted exactly by the completion that the log awaits |
| `CommandEngine.CmdEng.TakeTurn` | host/core/host_cmd_engine.c:206-228 | one turn of the task on the pending list keeps the invariant |
| `CommandEngine.CmdEng.Dispatch` | host/core/host_cmd_engine.c:122-228 | whatever happens keeps the invariant and is a step of the specification |
| `CommandEngine.CmdEng.Drive` | host/core/host_cmd_engine.c:122-228 | any interleaving on a new engine is a run of the specification |
| `CommandEngine.CmdEng.FlushPendingCmds` | host/core/host_cmd_engine.c:433-453 | everything pending is discarded, in order, and the block lifted; the invariant is kept |
| `CommandEngine.CmdEng.SetOpMode` | host/core/host_cmd_engine.c:455-508 | the mode changes exactly from stop to running or exit and from running to stop, leaving the running mode empties the list and lifts the block, and the invariant is kept |
| `CommandEngine.CmdEng.DrainPending` | host/core/host_cmd_engine.c:206-228 | the loop takes pending commands until it is blocked or none is left, keeping the invariant |

## Left out

- The hardware abstraction, the bus wrapper, recovery sequencing and the host API wrappers: thin layers over code that is not part of this model.
- Cryptography, random numbers, timestamps: arbitrary functions or parameters.
- Interleavings inside a handler, for example a frame queued while a wake-up drains: every handler is atomic.
- Liveness of the handshake: a received frame cancels the retry timer and some early returns do not set it again, so beyond safety and bounds it is only stated what each answer and each firing of the timer leads to. The timers themselves, `pending_1_of_4_timeout`, `keycount`, `in_step_loop` and `pending_deinit` are not modelled.
- The group key handshake and the non-RSN WPA element; the PMKID in the RSN element that is written.
- PtkExact.ExactlyTheBreakingInputs: assumes a configured key and that frames of any content can be authentic or not; without that nothing could follow the breaking input.
- ReorderTiming.ExpiredMeaning: for a frame held for more than 2^31 + 10 ticks the 32-bit comparison gives the wrong answer, as in the driver.
- StationMeanings.ExpiredMeaning: like the driver, it needs waits and time-outs below half the tick range.
- Protection.SweptMeaning: like the driver, it needs ages and an expiry below half the tick range.
- PtkTheorems.RunCountersIncrease: is stated up to 2^64 messages in one association, where the counter wraps.
- PtkTheorems.EveryRunIsGood: the nonce and the station lookup may differ between handler calls but not between the passes of one step loop.
- The look-up of the reorder session by station and TID and the tests of the frame type before it: only the test for a closed session is modelled.
- A global statement that the traffic indication matches the queues: a purge drops frames without recomputing it, so it is a postcondition of `RecalcTim` only; freeing a station that is awake leaves its bit as it was.
- AccessPoint.ApInfo.RxAuth: the challenge text is a value, drawn by the caller; the reply frame is not modelled.
- AccessPoint.ApInfo.HandleAssoc: the checks of the information elements are one condition of the request; the HT capability bits are two flags.
- AccessPoint.ApInfo.CountSilence: of the inactivity timer only the retry count is modelled, since eviction depends on it.
- Stations.Stale: the product of listen interval and beacon interval is not cut to 32 bits.
- The device queue length is an unbounded integer, and the wireless session index is not modelled.
- The descriptor array of the transmit path: a frame in a queue stands for its descriptor.
- Multicast frames are never buffered by the driver, and the model has no queue for them.
- Beacon refreshes, register writes and commands to the device that follow a change of protection.
- The free list of the command engine and its trap handlers.
- HCI aggregation, probe, association and authentication reply fields, regulatory look-ups, logging, test data.
