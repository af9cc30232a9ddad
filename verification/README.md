# Verified models of the kuntao GPS utilities and string converters

This project models five parts of the device tree and proves what they promise.

1. **Timer service.** `HeapTree` and `LocHeap` are the timer heap: a pointer tree that pushes into
   the smaller side, pops by exchanging data down to a leaf, and removes by a search that skips
   subtrees ranked too low. The class methods are proved equal to functions on trees, and the
   functions are proved to refine a multiset in heap order, for any ranking that is a total preorder.
   `TimerService` is the protocol around it: client threads, the message thread that owns both heaps,
   and the poll thread that owns epoll, as a step relation. Registering an fd with epoll, arming it,
   disarming it, unregistering it, creating a delegate and publishing it are separate steps, so every
   interleaving of them is a run. `TimerWakeup`, `TimerLifetime`, `TimerTheorems` and `TimerContents`
   prove what all runs keep, and `TimerProgress` that every run ends with all due timers called back.
   `LocTimerContainers` has the message bodies as methods on the pointer heap.
2. **UTF-8 and UTF-16.** `Utf8To16` and `Utf16To8` have the measuring, decoding and encoding loops on
   buffers; `UtfRoundTrip` and `Utf8Malformed` relate them to each other, to RFC 3629 (section 3) and
   RFC 2781 (section 2.1), and to malformed input. The encoder writes modified UTF-8 (section 4.4.7 of
   the JVM specification).
3. **AGPS connections.** `AgpsModel` is the state machine as a function, base and data-service
   variants; `Agps` has the classes; `AgpsCalls` writes out what each operation does; `AgpsRuns`,
   `AgpsAccounts` and `AgpsDataService` prove what runs keep.
4. **Subscription index.** `SetMap` is the map of sets; `ObserverIndex` is the two-way index with what
   the framework was told; `Observer` has the message bodies.
5. **Tracking multiplexer.** `TrackingModel` is the multiplexer as a step relation, with the exact conditions
   under which a step keeps the engine at the right interval and in the right mode; `Tracking` has the
   adapter, the engine and the message bodies, which take those steps.

`Wrappers` holds the option type. `dafny verify dfyconfig.toml` checks everything.

## Reading the model

- Callbacks, framework calls and messages are recorded in sequences in the order they are made. In
  the AGPS trace `Joined` is not a call: it marks where a handle that is not in the list asks to join.
- Answers of the surroundings (an engine call that may fail, a data call that may be busy, malloc, the
  clock, which ready events epoll returns) are parameters, step arguments or arbitrary values.
- A `TimerService` state holds the log of all messages ever sent; the queue is the part not taken yet.
  Every delegate remembers where its messages are in the log. `deleted` and `lockFreed` stand for freed
  memory: a step is never disabled because a pointer went bad; that pointers are good is proved.
- Times in `TimerService` are after boot and below 2^31 seconds. `RanksIsTimeOrderUpTo` shows that this
  is what the `int` returned by `ranks` needs.
- `set` iteration stands for the iteration of unordered containers; the loops work in any order.

Where comments and code disagree, the model follows the code:

- `gps/utils/LocHeap.h:84-86` says that removal looks for an element of equal rank; the code compares
  addresses (`gps/utils/LocHeap.cpp:173`), so the model compares identity.
- `gps/utils/LocTimer.cpp:340-341` says that the kernel is updated when the removed timer is not the
  head; the code does it when it is (`gps/utils/LocTimer.cpp:342`).
- `gps/utils/LocTimer.cpp:210-211` has the two containers the wrong way round (see line 239).
- `gps/gnss/Agps.cpp:629-633` takes the handle returned by `loc_timer_start` for an error; both
  outcomes return non-zero, which is all that the machine looks at.

These promises are false of the code. For each there is a run or an input in which it fails, and the exact
condition under which it holds:

- A busy answer to opening a data call is retried: only when the machine was RELEASED, not when it was
  reopening (`BusyIsRetriedIffReleased`, `BusyReopeningStalls`).
- In PENDING and ACQUIRED there is a data call: only if the machine came up with an accepted open, which is
  certain from RELEASED but not when reopening, and the modem has not restarted since (`CallStandsIff`,
  `CameUpFrom`, `BusyReopeningStalls`, `RestartLeavesNoCall`).
- Whoever is told that its connection is closed leaves the list: for the base machine always
  (`NobodyLeavesUntold`); for the data-service machine a handle told so by its own release leaves only when the
  machine was not RELEASED (`ToldClosedStaysIff`, `ToldClosedThenOpened`).
- The framework is told exactly the wanted items: only if no object is installed that still holds an item
  nobody wants (`InstallingIsInStepIff`, `ReinstalledObjectIsStale`).
- A wanted item is on the framework's subscription list: only if its entry was made by a subscribe rather than
  a requestData, or an object was installed since (`WantedIsSubscribedIff`, `SubscribedButNotOnTheList`).
- The subscription maps stay inverse: through `updateSubscription` only for a client without items
  (`UpdateKeepsInverseIff`).
- The engine runs at the smallest interval: except when a start takes over the key of the only session with
  that interval for a larger one (`StepKeepsIntervalIff`, `RunStaysInStepIff`, `ReusedKeyCanGoStale`).
- The options with the smallest interval are the active ones, mode included: only while each step that does
  not restart the engine leaves some session asking for what it runs (`StepKeepsModeIff`, `RunStaysExactIff`,
  `ModeCanGoStale`).
- strlen8to16 counts what strcpy8to16 writes: only if no run of extension bytes is longer than 2^31 plus what
  its lead allows, because the counter is an `int` (`CountIsExactIff`, `TooManyStrays`).

## Model

| member | source | states |
|---|---|---|
| HeapTree.PushCorrect | gps/utils/LocHeap.cpp:107-124 | Push keeps heap order and sizes, adds exactly the new element, and changes the top only for an element that outranks it |
| HeapTree.PopCorrect | gps/utils/LocHeap.cpp:134-164 | Pop keeps heap order and sizes and takes out exactly the top |
| HeapTree.RemoveCorrect | gps/utils/LocHeap.cpp:170-193 | Remove takes the element out if and only if it is in the tree, despite the rank pruning; otherwise nothing changes; order and sizes stay right |
| HeapTree.TopOutrankedByNone | gps/utils/LocHeap.h:54-58 | No element of a heap outranks its top |
| HeapTree.SizeCountsElements | gps/utils/LocHeap.cpp:34-35 | The stored size is the number of elements |
| HeapTree.DrainSorts | gps/utils/LocHeap.cpp:245-254 | Repeated pops give a permutation of the contents in non-increasing rank |
| HeapTree.PushKeepsBalance | gps/utils/LocHeap.cpp:112-123 | A push keeps left size minus right size in {0,1} at every node |
| HeapTree.PushesStayShallow | gps/utils/LocHeap.cpp:228-235 | n pushes give a tree of height at most floor(log2 n)+1 |
| LocHeap.LocHeapNode.Swap | gps/utils/LocHeap.cpp:88-92 | Only the data of the two nodes change places |
| LocHeap.LocHeapNode.Push | gps/utils/LocHeap.cpp:107-124 | In-place push equals the tree function, and links exactly the given node |
| LocHeap.LocHeapNode.Pop | gps/utils/LocHeap.cpp:134-164 | In-place pop equals the tree function and returns a detached node carrying the old top |
| LocHeap.LocHeapNode.Remove | gps/utils/LocHeap.cpp:170-193 | In-place remove equals the tree function and detaches one node or none |
| LocHeap.LocHeapNode.CheckNodes | gps/utils/LocHeap.cpp:197-220 | The check holds exactly for a heap-ordered tree with right sizes |
| LocHeap.LocHeap.Push | gps/utils/LocHeap.cpp:228-235 | The heap gains exactly the element |
| LocHeap.LocHeap.Peek | gps/utils/LocHeap.cpp:237-243 | Returns an element that no other outranks, or nothing for an empty heap |
| LocHeap.LocHeap.Pop | gps/utils/LocHeap.cpp:245-254 | Returns and removes the top, or nothing for an empty heap |
| LocHeap.LocHeap.Remove | gps/utils/LocHeap.cpp:256-267 | Removes the element and says so exactly when it is in the heap |
| TimerClock.RanksIsTimeOrder | gps/utils/LocTimer.cpp:509-523 | While seconds differ by an int, a delegate outranks another exactly when it is due earlier |
| TimerClock.RanksIsTimeOrderUpTo | gps/utils/LocTimer.cpp:515-519 | Ranking is time order for all second differences up to a span if and only if the span is below 2^31 |
| TimerClock.FutureTime | gps/utils/LocTimer.cpp:557-564 | The expiry is exactly now plus the delay, with nanoseconds below 10^9 |
| TimerClock.DueBatchExact | gps/utils/LocTimer.cpp:387-394 | Popping while the head is due takes exactly the due timers, soonest first |
| TimerClock.ExpireBatchExact | gps/utils/LocTimer.cpp:363-377 | One expiry message takes the head plus every timer due at or before now, soonest first, and leaves only later ones |
| TimerWakeup.PushArmsNewHead | gps/utils/LocTimer.cpp:320-324 | A push arms the kernel exactly when it changes the head, and never disarms it |
| TimerWakeup.RemoveArmsNextHead | gps/utils/LocTimer.cpp:337-346 | Removing the head arms the next one; removing anything else leaves the head |
| TimerWakeup.StepKeepsWake | gps/utils/LocTimer.cpp:283-385 | Every step of every party keeps the wakeup invariant |
| TimerWakeup.NoLostWakeup | gps/utils/LocTimer.cpp:283-385 | In every run, with the message thread at rest, a non-empty heap is polled and armed at exactly its head's expiry, or an expiry of it is in flight |
| TimerWakeup.DueHeadIsPopped | gps/utils/LocTimer.cpp:450-474 | In a quiet reachable state the fd is readable exactly when the head is due, and then the system's steps pop the head |
| TimerLifetime.StepKeepsLife | gps/utils/LocTimer.cpp:313-353 | Every step keeps the ownership invariant of delegates, heaps, log and LocTimers |
| TimerTheorems.OnePushThenAtMostOneRemove | gps/utils/LocTimer.cpp:491-507 | In every run a delegate sends one push, at most one remove, and the remove after the push |
| TimerTheorems.NoUseAfterDelete | gps/utils/LocTimer.cpp:347-348 | No step touches a deleted delegate, and a stop or callback by an expiry reaches a live LocTimer |
| TimerTheorems.DeletedOnceByItsRemove | gps/utils/LocTimer.cpp:347-348 | A delegate is deleted by its own remove message, by nothing else, and not twice |
| TimerTheorems.DeletedExactlyWhenRemoved | gps/utils/LocTimer.cpp:331-353 | With the message thread at rest, the deleted delegates are exactly those whose remove was taken |
| TimerTheorems.LockCountExact | gps/utils/LocSharedLock.h:48-52 | The shared lock counts one for a live LocTimer plus its live delegates, and is freed exactly when all are gone |
| TimerTheorems.AtMostOneOutcomePerStart | gps/utils/LocTimer.cpp:526-591 | Starts minus successful stops is 1 exactly while the timer runs; callbacks and client stops never exceed starts |
| TimerTheorems.OneMessagePopsTheBatch | gps/utils/LocTimer.cpp:370-375 | Whatever runs in between, the loop of one expiry message pops exactly the batch |
| TimerContents.HeapHoldsRunningTimers | gps/utils/LocTimer.cpp:313-385 | Once the message thread has caught up, each heap holds exactly the delegates held by a LocTimer, once each |
| TimerContents.DueIsFixed | gps/utils/LocTimer.cpp:553-576 | A delegate belongs to the LocTimer that started it and to the container asked for, is due at its start time plus the delay, and none of that ever changes |
| TimerContents.StartedTimerIsWhereAsked | gps/utils/LocTimer.cpp:553-576 | Whatever happens after a start, once the message thread has caught up the timer is in the heap of the container asked for, exactly while its LocTimer holds it, and in no other |
| TimerContents.StopTakesEffect | gps/utils/LocTimer.cpp:578-591 | Stopping or destroying a running timer lets go of its delegate and posts the remove; otherwise it does nothing |
| TimerContents.StoppedNeverCallsBack | gps/utils/LocTimer.cpp:526-538 | In every run a stopped timer makes no callback until it is started again, even while its expiry is being handled |
| TimerContents.DueTimerCallsBack | gps/utils/LocTimer.cpp:526-538 | From a quiet reachable state with a due head, the system's steps stop that timer and call its owner back once |
| TimerProgress.SomethingMoves | gps/utils/LocTimer.cpp:450-474 | No deadlock: unless all is quiet, the message or poll thread can move, or start() can release the lock waited for, with no client or clock step needed |
| TimerProgress.SystemStepIsProgress | gps/utils/LocTimer.cpp:283-385 | Every step of the system leaves strictly less work in queue, heaps, kernel and threads: a timer pays for its own expiry and rearming |
| TimerProgress.SystemStepsEnd | gps/utils/LocTimer.cpp:363-377 | No livelock: without client calls and with the clock still, no run is longer than the work it starts with, whatever the interleaving |
| TimerProgress.GoodStateSettles | gps/utils/LocTimer.cpp:450-474 | The system's own steps can reach a state where none of them is possible any more |
| TimerProgress.SettledWatchesAll | gps/utils/LocTimer.cpp:283-309 | In a settled reachable state every running timer is due later than now, and its fd is polled and armed for no later than that |
| TimerProgress.EveryDueTimerCallsBack | gps/utils/LocTimer.cpp:526-591 | However the threads interleave, once the system has settled every timer that was running and due has been stopped by its expiry once and called back once |
| LocTimerContainers.LocTimerContainer.UpdateSoonestTime | gps/utils/LocTimer.cpp:283-309 | The kernel is reprogrammed for a sooner head, disarmed for an empty heap, and left alone otherwise |
| LocTimerContainers.LocTimerContainer.ProcPush | gps/utils/LocTimer.cpp:320-324 | The timer is added, and armed if it became the head |
| LocTimerContainers.LocTimerContainer.ProcRemove | gps/utils/LocTimer.cpp:337-349 | The timer is gone from the heap, and the next head is armed if it was the head |
| LocTimerContainers.LocTimerContainer.PopIfOutRanks | gps/utils/LocTimer.cpp:387-394 | Pops the head exactly when it is due |
| LocTimerContainers.LocTimerContainer.ProcExpire | gps/utils/LocTimer.cpp:363-377 | Hands out the batch, leaves only later timers and arms the head that is left |
| LocTimerContainers.LocSharedLock.constructor | gps/utils/LocSharedLock.h:48 | A new lock has one user |
| LocTimerContainers.LocSharedLock.Share | gps/utils/LocSharedLock.h:50 | Sharing adds one user |
| LocTimerContainers.LocSharedLock.Drop | gps/utils/LocSharedLock.h:52 | The lock is deleted exactly when its last user drops it |
| Utf8To16.TableIsByClass | dpm/strdup8to16.cpp:31 | The shifted constant gives the sequence length of every lead-byte class |
| Utf8To16.MeasureIsExact | dpm/strdup8to16.cpp:69-100 | For every byte string the length measured with an unbounded counter is the decoded length plus the number of four-byte leads that yield one unit |
| Utf8To16.MeasureAtMostTwice | dpm/strdup8to16.cpp:69-100 | That length is at most twice the number of bytes |
| Utf8To16.ShortLeadsYieldOneUnit | dpm/strdup8to16.cpp:113-144 | A character that does not start with a four-byte lead yields one unit |
| Utf8To16.CountIsExactIff | dpm/strdup8to16.cpp:69-100 | With an int counter the count is the decoded length plus the leads that fall short if and only if no run of extension bytes is too long |
| Utf8To16.CountIsEnough | dpm/strdup8to16.cpp:69-100 | For every string without such a run whose measure fits a size_t, a buffer of the returned length holds what is decoded |
| Utf8To16.Strlen8to16 | dpm/strdup8to16.cpp:69-100 | The counting loop, with its int counter and size_t length, computes that count of the bytes before the NUL |
| Utf8To16.GetUtf32FromUtf8 | dpm/strdup8to16.cpp:113-144 | The pointer loop returns the next character and where it ends, without passing the NUL |
| Utf8To16.WriteChar | dpm/strdup8to16.cpp:162-172 | One character is written as its units and nothing else changes |
| Utf8To16.Strcpy8to16 | dpm/strdup8to16.cpp:152-178 | Exactly the decoded units are written and nothing behind them; a write leaves the buffer exactly when it is shorter than they are |
| Utf8To16.Strdup8to16 | dpm/strdup8to16.cpp:44-61 | NULL exactly for NULL, an overflowing size or a failed malloc; otherwise a buffer of the counted length with the decoded units; and exactly when something is written through NULL or past the buffer |
| Utf8Malformed.DecodeSplits | dpm/strdup8to16.cpp:136-138 | A decoding error never spreads past the next byte that is no extension byte |
| Utf8Malformed.StrayExtensions | dpm/strdup8to16.cpp:122-126 | Stray extension bytes become one replacement each |
| Utf8Malformed.TooManyStrays | dpm/strdup8to16.cpp:79-87 | More than 2^31 stray bytes in a row are counted as fewer units than are written |
| Utf8Malformed.OnePiece | dpm/strdup8to16.cpp:128-143 | A lead with too few extension bytes becomes one replacement; extra ones one each |
| Utf16To8.EncodeHasNoNul | dpm/strdup16to8.cpp:127-128 | No encoded byte is NUL |
| Utf16To8.Strnlen16to8 | dpm/strdup16to8.cpp:56-121 | The result is the smaller of the true encoded length and SIZE_MAX-1, on both paths |
| Utf16To8.Strncpy16to8 | dpm/strdup16to8.cpp:136-167 | Exactly the encoded bytes, all non-zero, and the terminator are written |
| Utf16To8.WriteUnit | dpm/strdup16to8.cpp:148-161 | One unit is written as its bytes and nothing else changes |
| Utf16To8.Strndup16to8 | dpm/strdup16to8.cpp:28-50 | NULL exactly for NULL, a saturated length or a failed malloc; otherwise a buffer of exactly the encoding and its terminator |
| UtfRoundTrip.RoundTrip | dpm/strdup16to8.cpp:136-167 | Decoding an encoded sequence gives it back, zeros and surrogates included, and its measured length is the original length |
| UtfRoundTrip.EncodeIsInjective | dpm/strdup16to8.cpp:136-167 | Different sequences have different encodings |
| UtfRoundTrip.ThereAndBack | dpm/jstring.h:31-35 | strdup8to16 after strndup16to8 returns the original in a buffer of its length, with no stray write, unless the length saturates or a malloc fails |
| UtfRoundTrip.WellFormedDecodes | dpm/strdup8to16.cpp:152-178 | Well-formed UTF-8 decodes to the UTF-16 encoding of its characters, with one U+FFFD for each above U+10FFFD |
| UtfRoundTrip.OnlyTheTopTwoAreLost | dpm/strdup8to16.cpp:37 | Exactly U+10FFFE and U+10FFFF are not decoded to their UTF-16 encoding |
| UtfRoundTrip.CompleteDecodes | dpm/strdup8to16.cpp:113-176 | Every complete sequence, overlong, surrogate and too large ones included, decodes to its payload: one unit, a pair above U+FFFF, one U+FFFD above U+10FFFD |
| UtfRoundTrip.EncodesByTheStandard | dpm/strdup16to8.cpp:145-161 | Every unit is encoded as in UTF-8, except that zero takes two bytes and a surrogate three |
| AgpsRuns.StepKeepsInv | gps/gnss/Agps.cpp:72-290 | Every operation keeps list, grants and connection record in order |
| AgpsRuns.StateAndListAgree | gps/gnss/Agps.cpp:72-290 | In every run handles are distinct, inactive subscribers wait for close, RELEASED has an empty list; without a modem-restart drop PENDING and ACQUIRED have an active subscriber and RELEASING an inactive one |
| AgpsRuns.GrantDiscipline | gps/gnss/Agps.cpp:99-105 | An active subscriber has been told of success since it asked to join if and only if the state is ACQUIRED |
| AgpsRuns.ConnectionDiscipline | gps/gnss/Agps.cpp:296-314 | A connection is requested exactly on entering PENDING, and released only while a request is outstanding |
| AgpsCalls.ReleaseDiscipline | gps/gnss/Agps.cpp:141-149 | In every run a release is sent exactly when a subscriber's release takes the connection down, and then no request is outstanding |
| AgpsCalls.RequestWrittenOut | gps/gnss/Agps.cpp:72-114 | In every run of the base machine, what a request changes and calls in each state |
| AgpsCalls.ReleaseWrittenOut | gps/gnss/Agps.cpp:116-178 | ... and a release: who stays, who is told, when the connection is released and which state follows |
| AgpsCalls.OpenedWrittenOut | gps/gnss/Agps.cpp:190-196 | Success is told to the active subscribers alone, each once and in list order |
| AgpsCalls.EndWrittenOut | gps/gnss/Agps.cpp:212-280 | A refusal in PENDING is told to each subscriber as a failed open, a close in ACQUIRED as a close, in list order |
| AgpsCalls.ReopenWrittenOut | gps/gnss/Agps.cpp:222-246 | A completed release is told to those who waited for it; for the others the connection is requested again |
| AgpsCalls.NothingToDo | gps/gnss/Agps.cpp:180-290 | Events that do not concern the state, and releases of unknown handles, do nothing |
| AgpsCalls.RoundTells | gps/gnss/Agps.cpp:316-386 | A round of notifications makes exactly the calls for its audience, in order, in the base and in the data-service form |
| AgpsAccounts.NobodyLeavesUntold | gps/gnss/Agps.cpp:316-386 | requestATL puts its handle in the list; anyone else stays if and only if it is not told that its connection is closed or refused |
| AgpsAccounts.PendingIsResolved | gps/gnss/Agps.cpp:190-196 | Success in PENDING reaches every active subscriber; refusal empties the list |
| AgpsDataService.RetriesAreBounded | gps/gnss/Agps.cpp:619-634 | In every run the retry count is between 0 and 4 |
| AgpsDataService.BusyChainEndsInOneFallback | gps/gnss/Agps.cpp:556-650 | Busy answers alone make five attempts in all, then exactly one SUPL fallback and no further timer |
| AgpsDataService.FailedCallFallsBack | gps/gnss/Agps.cpp:527-534 | RELEASED in PENDING posts one SUPL request per subscriber, in order, and empties the list |
| AgpsCalls.AttemptIs | gps/gnss/Agps.cpp:595-650 | For each answer to opening a call: the calls made, the retries counted, and whether the first active subscriber falls back to SUPL |
| AgpsCalls.DsRequestWrittenOut | gps/gnss/Agps.cpp:72-114 | What a request does to the data-service machine in each state |
| AgpsCalls.DsReleaseWrittenOut | gps/gnss/Agps.cpp:116-178 | ... and a release |
| AgpsCalls.DsEndWrittenOut | gps/gnss/Agps.cpp:523-540 | ... and a call that closes, or fails while it is set up |
| AgpsCalls.DsReopenWrittenOut | gps/gnss/Agps.cpp:222-246 | ... and a completed release |
| AgpsDataService.TimerStartedBy | gps/gnss/Agps.cpp:619-634 | Whatever the event and the answers, the retry timer is started only by a busy answer to a request in RELEASED, or to reopening, which leaves PENDING |
| AgpsDataService.BusyIsRetriedIffReleased | gps/gnss/Agps.cpp:619-634 | After any busy answer that starts the timer, the retry opens a call again if and only if the machine was RELEASED; otherwise it was reopening and the retry changes nothing |
| AgpsDataService.BusyReopeningStalls | gps/gnss/Agps.cpp:231-234 | The run from the start in which that happens: an active subscriber waits in PENDING, the timer runs, the retry does nothing |
| AgpsDataService.CallStandsIff | gps/gnss/Agps.cpp:583-650 | In every run, in PENDING and in ACQUIRED, the driver's last effective call was an accepted open if and only if the machine came up with one and no modem restart came since |
| AgpsDataService.CameUpFrom | gps/gnss/Agps.cpp:229-234 | The machine comes up from RELEASED, always with an accepted open, or by reopening, whatever the answer |
| AgpsDataService.RestartLeavesNoCall | gps/gnss/Agps.cpp:902-911 | Runs in which a modem restart leaves PENDING, or ACQUIRED, with no call: a later subscriber waits for nothing, or is told of success |
| AgpsDataService.ToldClosedStaysIff | gps/gnss/Agps.cpp:116-123 | A handle told of the close by its own release is still in the list if and only if the machine was RELEASED |
| AgpsDataService.ToldClosedThenOpened | gps/gnss/Agps.cpp:116-123 | The run in which such a handle is later told of success |
| Agps.AgpsStateMachine.constructor | gps/gnss/Agps.h:161-165 | A machine starts RELEASED and empty |
| Agps.AgpsStateMachine.AddSubscriber | gps/gnss/Agps.cpp:398-417 | Appends the subscriber unless its handle is present |
| Agps.AgpsStateMachine.DeleteSubscriber | gps/gnss/Agps.cpp:419-436 | Removes every entry with the handle and keeps the order of the others |
| Agps.AgpsStateMachine.AnyActiveSubscribers | gps/gnss/Agps.cpp:438-448 | True exactly when some subscriber is active |
| Agps.AgpsStateMachine.GetSubscriber | gps/gnss/Agps.cpp:472-485 | The first subscriber with the handle, if any |
| Agps.AgpsStateMachine.GetFirstActiveSubscriber | gps/gnss/Agps.cpp:487-500 | The first active subscriber, if any |
| AgpsCalls.FirstActiveIsFirst | gps/gnss/Agps.cpp:487-500 | It is the first active one in list order |
| Agps.AgpsStateMachine.DropAllSubscribers | gps/gnss/Agps.cpp:502-513 | Empties the list and changes nothing else |
| Agps.AgpsStateMachine.NotifyEventToSubscriber | gps/gnss/Agps.cpp:351-386 | Makes the call for the event, in the base or data-service form, and deletes on request |
| Agps.AgpsStateMachine.NotifyAllSubscribers | gps/gnss/Agps.cpp:316-349 | The erasing loop notifies exactly the audience in order and keeps exactly the rest |
| Agps.AgpsStateMachine.RequestOrReleaseDataConn | gps/gnss/Agps.cpp:583-650 | The calls and retry count for a request or release, base and data-service form |
| Agps.AgpsStateMachine.ProcessAgpsEvent | gps/gnss/Agps.cpp:40-70 | The dispatch equals the event function, with RELEASED taken for DENIED where the data service does |
| Agps.AgpsStateMachine.ProcessSubscribe | gps/gnss/Agps.cpp:72-114 | The in-place handler equals its function |
| Agps.AgpsStateMachine.ProcessUnsubscribe | gps/gnss/Agps.cpp:116-178 | The in-place handler equals its function |
| Agps.AgpsStateMachine.ProcessGranted | gps/gnss/Agps.cpp:180-201 | The in-place handler equals its function |
| Agps.AgpsStateMachine.ProcessReleased | gps/gnss/Agps.cpp:203-248 | The in-place handler equals its function |
| Agps.AgpsStateMachine.ProcessDenied | gps/gnss/Agps.cpp:250-290 | The in-place handler equals its function |
| Agps.AgpsStateMachine.RetryCallback | gps/gnss/Agps.cpp:558-576 | Posts the request of the first active subscriber, or nothing |
| Agps.AgpsManager.CreateAgpsStateMachines | gps/gnss/Agps.cpp:703-737 | Exactly the missing machines that are due are created, new and RELEASED; the emergency one only once its driver has started |
| Agps.AgpsManager.GetAgpsStateMachine | gps/gnss/Agps.cpp:739-768 | The machine created with the type asked for, or the SUPL one without an emergency connection; only a missing emergency machine makes it create what is missing |
| Agps.AgpsManager.RequestATL | gps/gnss/Agps.cpp:770-796 | Exactly the machine of the type asked for sees the request, created on demand; or the caller is told of failure |
| Agps.AgpsManager.ReleaseATL | gps/gnss/Agps.cpp:798-830 | The first machine holding the handle, in search order, sees the release and no other; or the caller is told of failure |
| Agps.AgpsManager.HandleModemSSR | gps/gnss/Agps.cpp:887-912 | Every machine forgets its subscribers and nothing else, and the data-service driver is stopped, closed, released and started again |
| SetMap.AddedValues | gps/utils/LocUnorderedSetMap.h:143-171 | Adding enlarges exactly the named entries and leaves no empty entry |
| SetMap.TrimmedValues | gps/utils/LocUnorderedSetMap.h:80-88 | Trimming shrinks exactly the named entries and removes exactly those left empty |
| SetMap.LocUnorderedSetMap.TrimSet | gps/utils/LocUnorderedSetMap.h:44-51 | The set loses the values, and the lost ones are recorded |
| SetMap.LocUnorderedSetMap.TrimOrRemoveOne | gps/utils/LocUnorderedSetMap.h:80-88 | One entry is trimmed, or removed when nothing is left |
| SetMap.LocUnorderedSetMap.TrimOrRemove | gps/utils/LocUnorderedSetMap.h:131-139 | All named entries are trimmed; the removed keys and values are recorded exactly |
| SetMap.LocUnorderedSetMap.Add | gps/utils/LocUnorderedSetMap.h:143-155 | One entry gains the values; a new entry is reported |
| SetMap.LocUnorderedSetMap.AddAll | gps/utils/LocUnorderedSetMap.h:164-171 | All named entries gain the values; exactly the new keys are recorded |
| SetMap.LocUnorderedSetMap.Remove | gps/utils/LocUnorderedSetMap.h:119-121 | The entry is gone; whether it was there is reported |
| SetMap.LocUnorderedSetMap.GetKeys | gps/utils/LocUnorderedSetMap.h:111-117 | Exactly the keys |
| ObserverIndex.MapsStayInverse | gps/core/SystemStatusOsObserver.cpp:102-126 | In every run the two maps are inverse and hold no empty entry |
| ObserverIndex.MapsRecordHistory | gps/core/SystemStatusOsObserver.cpp:213-292 | In every run a client has an item exactly when its last message about the item was a subscription |
| ObserverIndex.FrameworkStaysInStep | gps/core/SystemStatusOsObserver.cpp:110-125 | If every framework object was clean when installed, subscribe and requestData have announced to the current one at all times exactly the wanted items |
| ObserverIndex.WantedIsSubscribedIff | gps/core/SystemStatusOsObserver.cpp:110-125 | In every such run a wanted item is on the current object's subscription list if and only if its entry was made by a subscribe, or an object was installed since |
| ObserverIndex.SubscribedButNotOnTheList | gps/core/SystemStatusOsObserver.cpp:110-125 | The run in which a client subscribes to an item that another requested, and is left without a subscription |
| ObserverIndex.InstallingIsInStepIff | gps/core/SystemStatusOsObserver.cpp:69-79 | Installing an object brings it in step if and only if it holds no item that nobody wants |
| ObserverIndex.InstallingAsksForAll | gps/core/SystemStatusOsObserver.cpp:69-79 | A newly installed object is asked to subscribe to every wanted item and then for the data of every one |
| ObserverIndex.ClientMessageCalls | gps/core/SystemStatusOsObserver.cpp:110-125 | A client's message tells the object of exactly the items that become, or cease to be, wanted, in the way asked for |
| ObserverIndex.ReinstalledObjectIsStale | gps/core/SystemStatusOsObserver.cpp:69-79 | The run in which that fails: an object replaced, its item given up, the object installed again |
| ObserverIndex.UpdateKeepsInverseIff | gps/utils/LocUnorderedSetMap.h:176-187 | The maps stay inverse through updateSubscription if and only if the client had no items; then it is a subscription |
| ObserverIndex.UpdateKeepsInStep | gps/core/SystemStatusOsObserver.cpp:152-192 | What updateSubscription tells the framework still matches the item map |
| ObserverIndex.InstalledOnceIsClean | gps/core/SystemStatusOsObserver.cpp:62-87 | Objects installed once each are clean |
| ObserverIndex.NotifiedExactly | gps/core/SystemStatusOsObserver.cpp:319-328 | A client is collected for notification exactly when one of its items changed |
| Observer.SystemStatusOsObserver.SetSubscriptionObj | gps/core/SystemStatusOsObserver.cpp:62-87 | The message body equals its function on the index; NULL is ignored |
| Observer.SystemStatusOsObserver.Subscribe | gps/core/SystemStatusOsObserver.cpp:92-139 | The message body equals its function; the client gets exactly what is cached, and only then is the framework called |
| Observer.SystemStatusOsObserver.Unsubscribe | gps/core/SystemStatusOsObserver.cpp:213-252 | The message body equals its function; empty and NULL requests change nothing |
| Observer.SystemStatusOsObserver.UnsubscribeAll | gps/core/SystemStatusOsObserver.cpp:254-292 | The message body equals its function |
| Observer.SystemStatusOsObserver.SendCachedDataItems | gps/core/SystemStatusOsObserver.cpp:513-539 | One call with exactly the cached ones of the items, or none |
| Observer.CacheFollows | gps/core/SystemStatusOsObserver.cpp:541-572 | After any updates, an item counts as changed exactly when some update of it took effect, and has the value of the last such; every other item is as it was |
| Observer.SystemStatusOsObserver.UpdateCache | gps/core/SystemStatusOsObserver.cpp:541-572 | An item takes effect when it is accepted and changes the cached one or can be created; then the cache has its value |
| Observer.SystemStatusOsObserver.Notify | gps/core/SystemStatusOsObserver.cpp:309-342 | Every client with a changed item is called once with exactly its changed items, each with the value of its last update that took effect; nobody else is called |
| TrackingModel.StartEffect | gps/gnss/GnssAdapter.cpp:1497-1521 | Restarting only for a smaller interval keeps the engine at the minimum, and in an asked mode, each exactly under a condition on the sessions before the start |
| TrackingModel.UpdateEffect | gps/gnss/GnssAdapter.cpp:1645-1682 | The three-way decision of an update always keeps the minimum, and the mode exactly under its condition |
| TrackingModel.StopEffect | gps/gnss/GnssAdapter.cpp:1723-1755 | The decision of a stop always keeps the minimum of the others, and the mode exactly under its condition |
| TrackingModel.StepKeepsIntervalIff | gps/gnss/GnssAdapter.cpp:1474-1541 | Whatever the engine answers, a step from a state in step leads to one if and only if it is no reset and no start that takes over the key of the only smallest session for more |
| TrackingModel.StepKeepsModeIff | gps/gnss/GnssAdapter.cpp:1661-1677 | "The smallest interval, which should be the active one": the engine goes on running some session's options if and only if the step restarts it, asks for what it runs, or leaves another session that does |
| TrackingModel.RunStaysInStepIff | gps/gnss/GnssAdapter.cpp:1142-1157 | From any moment of a run in step, the engine is at the minimum at all times if and only if every step meets its condition |
| TrackingModel.RunStaysExactIff | gps/gnss/GnssAdapter.cpp:1661-1677 | The same for interval and mode together |
| TrackingModel.RestartIsExact | gps/gnss/GnssAdapter.cpp:1221-1245 | An accepted restart puts any engine right |
| TrackingModel.OneModeKeepsMode | gps/gnss/GnssAdapter.cpp:1661-1677 | Where all sessions share a mode, the mode needs no condition of its own |
| TrackingModel.ModeCanGoStale | gps/gnss/GnssAdapter.cpp:1669-1677 | Runs from the start in which an update, or a stop, leaves the engine in a mode no session asks for |
| TrackingModel.ReusedKeyCanGoStale | gps/gnss/GnssAdapter.cpp:1370-1376 | The run in which a reused key leaves the engine faster than needed |
| Tracking.GnssAdapter.SmallestIntervalOptions | gps/gnss/GnssAdapter.cpp:1661-1668 | The loop finds the options with the smallest interval, given that every saved session has its size set |
| Tracking.GnssAdapter.StartTracking | gps/gnss/GnssAdapter.cpp:1523-1542 | The engine takes the options, or reports failure and changes nothing |
| Tracking.GnssAdapter.StopTracking | gps/gnss/GnssAdapter.cpp:1757-1771 | The engine stops, or reports failure and changes nothing |
| Tracking.GnssAdapter.StartTrackingMultiplex | gps/gnss/GnssAdapter.cpp:1497-1521 | The engine is called exactly for an interval below all others; on success it suits the sessions with the new one, whether its key is new or reused, exactly under the conditions of a start |
| Tracking.GnssAdapter.UpdateTrackingMultiplex | gps/gnss/GnssAdapter.cpp:1645-1682 | On success the engine's interval suits the updated sessions, and its mode exactly under the condition of an update |
| Tracking.GnssAdapter.StopTrackingMultiplex | gps/gnss/GnssAdapter.cpp:1723-1755 | On success the engine's interval suits the remaining sessions, and its mode exactly under the condition of a stop |
| Tracking.GnssAdapter.ReportResponse | gps/gnss/GnssAdapter.cpp:1399-1410 | A client that is known and has a response callback is called with the error and the session id |
| Tracking.GnssAdapter.ProcStart | gps/gnss/GnssAdapter.cpp:1474-1489 | The session is saved exactly on success; a listening client is told its error and id, and of success exactly when the session was saved; the engine stays right exactly under the conditions of a start |
| Tracking.GnssAdapter.ProcUpdate | gps/gnss/GnssAdapter.cpp:1622-1639 | The session is updated exactly on success, the interval stays right, the mode exactly under its condition; a listening client is told its error and id, unknown sessions are not answered |
| Tracking.GnssAdapter.ProcStop | gps/gnss/GnssAdapter.cpp:1703-1717 | The session is erased exactly on success, the interval stays right, the mode exactly under its condition; a listening client is told its error and id, unknown sessions are not answered |
| Tracking.GnssAdapter.StopClientSessions | gps/gnss/GnssAdapter.cpp:1142-1157 | Exactly the client's sessions whose stop the engine accepts go; each takes one stop step; the interval stays right |
| Tracking.GnssAdapter.ProcRemoveClient | gps/gnss/GnssAdapter.cpp:1133-1136 | The client is erased, other clients' sessions stay, the engine stays in step |
| Tracking.GnssAdapter.RestartSessions | gps/gnss/GnssAdapter.cpp:1221-1245 | Once accepted, the engine runs the options of a session with the smallest interval, whatever it did before |
| Tracking.Process | gps/gnss/GnssAdapter.cpp:1474-1541 | Every sequence of messages, keys reused or not and with any answers, is a run of its steps; from any moment in step, an accepted restart among them, the engine ends in step if every step since met its condition |

## Left out

- LocTimer, LocTimerDelegate and the message queue are values in `TimerService`, not objects: updates in place and aliasing are represented by identifiers and the `deleted` and `lockFreed` flags.
- Stopping a timer is one step under its lock; only `start` is split, because only there a message is posted before the pointer is published.
- Destroying a LocTimer while the message thread is inside its `expire` is assumed not to happen; the message queue is taken as FIFO with one consumer, because its source is not part of this model.
- That a timer never fires early is not claimed: the expiry loop pops the first head unconditionally (`gps/utils/LocTimer.cpp:370`), so only the exact batch is stated.
- That the fd is disarmed when the heap empties is not claimed: the disarm branch (`gps/utils/LocTimer.cpp:292-297`) is not reached by any message.
- TimerProgress.EveryDueTimerCallsBack: states delivery while no client calls and the clock stands still, because clients that keep starting timers can keep the service busy for ever; how long a step takes is not modelled.
- Failing to create a timer fd, interrupted or failing epoll calls, and the C wrapper around LocTimer.
- Heap elements are values told apart by their identity; the width of the `int` that counts subtree nodes is not modelled.
- A write through NULL or past a buffer is reported by a flag, and the model stops there: what it would overwrite is not modelled. Signed overflow is taken to wrap around.
- The inner test for zero in strncpy16to8 (`dpm/strdup16to8.cpp:158-160`) cannot succeed and is not repeated.
- AGPS subscribers are values with a handle and two flags; APN, bearer, object lifetime and changes of configuration at run time are not modelled.
- That a handle lives in one AGPS machine only is not claimed: the fallbacks keep it in the data-service list while posting it to SUPL (`gps/gnss/Agps.cpp:622-639`).
- Using the map iterator after its entry is erased (`gps/utils/LocUnorderedSetMap.h:135-136`) is taken to yield the erased key, as intended.
- `updateSubscription` is not among the messages of a run, because the maps do not stay inverse through it (`UpdateKeepsInverseIff`). In `removeAndReturnInterset`, going on from an element after erasing it is taken to yield the next one, as intended. Also the turn-on and turn-off request counts.
- Data items are numbers; whether SystemStatus accepts an item, whether it can be created and whether copying changes it are inputs.
- Tracking.GnssAdapter.RestartSessions: claims nothing new after a refused restart, because the code ignores the refusal.
- The ULP proxy is the base one, which always declines; ULP-driven start and stop commands, positions, satellites, NMEA and all conversions of floating-point data.
- Sockets, threads, dynamic loading, HIDL services, camera, fingerprint, light, touch, audio, logging, configuration parsing and enum conversions: input and output, foreign calls or easy members.
