# Verified model of the sylar server framework

The project models the parts of sylar where behaviour depends on more than one function, and proves
what they promise:

- **Event loop** (`task_queue.dfy`, `timers.dfy`, `timer_laws.dfy`, `timer_manager.dfy`,
  `idle_round.dfy`, `event_loop.dfy`, `event_loop_laws.dfy`, `event_loop_actions.dfy`,
  `event_loop_progress.dfy`). `Schedule` keeps a vector of slots that
  many workers empty and refill, `TimerManager` keeps a `std::set` ordered by deadline alone, and
  `IOmanager::idle` carries expired callbacks from the second to the first. The loops are methods on
  classes, each proved against a function on values; the interleavings of all workers and users are a
  transition system whose actions are the locked regions, over the same functions.
- **URL codec and parameters** (`bytes.dfy`, `url_codec.dfy`, `params.dfy`, `http_request.dfy`).
  Percent-encoding, the `PARSE_PARAM` loop against a grammar, the case-insensitive map, and the lazily
  parsed query, form and cookies.
- **Request serializer** (`numerals.dfy`, `http_dump.dfy`). `HttpRequest::dump` against a reader of
  HTTP/1.x messages written after RFC 7230.
- **IPv6 text** (`ipv6.dfy`). `IPv6Address::insert` with its byte order, against a reader written after
  section 2.2 of RFC 4291.
- **Log patterns** (`log_pattern.dfy`). `Formatter::parsePattern` as a compiler, `Formatter::log` as its
  interpreter, and exactly when compilation ends.
- **Hooked descriptors** (`fd_table.dfy`, `fd_manager.dfy`). `FdManager` and the hooked `socket`,
  `accept`, `close` and `fcntl` over a kernel that is a map from descriptors to files.

`dafny verify dfyconfig.toml` checks everything.

## How the model reads the code

- One action of the event loop is one locked region, or one unlocked read that another thread can
  follow. The test of `m_stopping` in the single `schedule` and its locked part are two actions; the
  batch form, which users may call as well as the loop, has no test. `GetExpiredCb` is one locked drain and then, for each drained timer, one
  action that copies the callback and rewrites the timer's fields and, for a recurring one, another
  that stores it again. A worker whose exit test fails is resumed in `idle`, makes the test there, and
  if that fails too goes through a whole pass, with a clock reading not older than its beginning,
  before it can claim again. Making the coroutine of `idle` enters it, so workers begin with a pass.
  `IOmanager::stop` and the destructor call `run` themselves (iomanager.cpp:216-222, 310-316), and a
  worker may enter late; each such call is a worker that has not yet acted and whose first pass may
  read an older clock than in the code. The last worker has left when all of these have.
- Users may pass null callbacks to both forms of `schedule` and to `addTimer`.
- The claim test of `run` assigns where it means to compare, and assignment binds less tightly than
  `or`, so any worker takes the lowest occupied slot, and its thread id becomes 1, the value of the
  whole condition, before it is copied. The model follows the code.
- Clock readings are parameters; the clock does not go back and a reading may be older than the action
  that uses it. Sums of deadlines are unsigned 64-bit and wrap.
- A timer's interval, deadline and callback are fields of an object that the set does not own; the set
  is a sequence in the order of the deadlines, and `find` and `insert` match by deadline.
- A `std::map` with the case-insensitive comparator is a map from folded keys to the spelling first
  stored and the value. The header list of `dump` is that map in its own order, taken as given.
- The character table of `UrlEncode` also lets '=' through, which the comment above it does not list.
  The model follows the table.
- Dates are written in the format of the logger's own formatter, whichever formatter holds the pattern;
  `Formatter.Log` takes that format as a parameter.
- IPv6 objects carry the byte order of the machine as a constant and the results hold for both.

## What was found

- `BatchEqualsSingles`, `HoleInBatch`: the one-pass batch and repeated single calls agree exactly when
  the free slots they use carry no thread id and null callbacks come last and need at most one new
  slot. Free slots lose that only when a user enqueues a null callback with a thread id
  (`SlotsStayClear`).
- `CancelTouches`, `RefreshAndRegapTouch`, `CancelHitsAnother`, `RefreshHitsAnother`: operations on a
  timer that lost its place to a timer of equal deadline act on that other timer.
- `WaitIsExact`, `WaitWraps`: the two clock readings of `GetNextTimerMs` disagree exactly when the first
  deadline lies strictly between them; the difference then wraps.
- `NullsNeedACause`, `NullsBlockLeaving`, `NullCanBlock`: a null callback comes from a user's
  `schedule`, alone or in a batch, from a stored timer made without one, or from `reset()` on a timer
  between its drain and its being stored again, and from nothing else; after it no worker ever leaves.
- `FinishesIffNothingDue`, `SpinsForGood`, `ZeroIntervalNeverLeaves`: after `stop` a due timer makes the
  last worker enqueue once more before it can leave, and since a pass runs one callback, a recurring
  timer with interval 0 and one waiting callback keep it for ever. Of two live workers with nothing in
  their hands one can always leave (`EitherCanLeave`).
- `NoneStrandedIffNonePassed`, `LateBatchStrands`, `TaskCanBeStranded`: when the last worker leaves, a
  callback can still come by the single `schedule` and never run exactly when a caller has passed the
  `m_stopping` test and has not yet taken the lock. The batch form strands its callbacks whenever it is
  called after that, as it has no test.
- `HaltsIffClosed`, `TwoDatesRun`: a pattern with a second date format, or with a '}' before its first,
  never finishes compiling.
- `DumpReadsBack`, `ContradictingLength`: a content-length that the user has set is written beside the
  computed one, and the message is readable only when the two agree.
- `CloseUnhooked`, `StaleEntry`, `StaleEntryReached`, `CreationFlags`, `SafeIndices`: closing with the
  hook off leaves an entry behind; a socket asked for as non-blocking reads back as blocking; `del` lets
  the index equal to the size of the table through, but `close` never passes it.

## Model

| member | source | states |
|---|---|---|
| TaskQueue.Schedule.Enqueue | sylar/schedule.cpp:49-63 | The rescanning loop puts callback and thread id into the lowest free slot or behind the last, touches no other slot, and raises the count by one even for a null callback |
| TaskQueue.Schedule.ScheduleOne | sylar/schedule.cpp:47-64 | After `stop` nothing changes; otherwise the same as the locked part |
| TaskQueue.Schedule.ScheduleBatch | sylar/schedule.hpp:24-49 | The two loops of the batch form leave exactly the one-pass filling of the slots, whether or not `stop` was called, and raise the count by the length of the batch |
| TaskQueue.Schedule.ClaimTask | sylar/schedule.cpp:72-83 | The claim empties the lowest occupied slot, whatever thread it names, hands its callback out with thread id 1 whatever was asked for, and finds nothing only when all are free |
| TaskQueue.PutTakesLowest | sylar/schedule.cpp:52-61 | A single `schedule` writes the lowest free slot or appends one, and leaves every other slot as it is |
| TaskQueue.TakeClearsLowest | sylar/schedule.cpp:72-83 | A claim clears callback and thread id of the lowest occupied slot to null and -1 and leaves every other slot as it is |
| TaskQueue.PutKeepsCallbacks | sylar/schedule.cpp:47-64 | A single `schedule` adds exactly its callback to the multiset of waiting ones; a null one adds none |
| TaskQueue.FillKeepsCallbacks | sylar/schedule.hpp:24-49 | A batch adds exactly its non-null callbacks |
| TaskQueue.TakeRemovesOne | sylar/schedule.cpp:74-83 | A claim removes exactly the callback it hands out, and finds none exactly when none waits |
| TaskQueue.BatchEqualsSingles | sylar/schedule.hpp:28-46 | Batch and repeated single calls leave the same callbacks and thread ids, for every batch with or without null callbacks, if and only if the free slots used carry no thread id and the null callbacks come last and fit free slots, or one is appended |
| TaskQueue.HoleInBatch | sylar/schedule.hpp:28-46 | A concrete batch with a null callback before another one, on which the two forms differ |
| TaskQueue.LiveBatchFits | sylar/schedule.cpp:52-61 | For a batch without null callbacks that condition is that the first free slots, one for each callback, carry no thread id |
| TaskQueue.ClearSlotsSuffice | sylar/schedule.cpp:20-23 | Slots cleared by `reset()` meet that condition for every batch |
| TaskQueue.PutKeepsFreeClear | sylar/schedule.cpp:52-61 | A single enqueue keeps every free slot cleared if and only if its callback is non-null or names no thread |
| TaskQueue.TakeKeepsFreeClear | sylar/schedule.cpp:74-81 | A claim keeps every free slot cleared |
| TaskQueue.FillKeepsFreeClear | sylar/schedule.hpp:28-46 | Batches keep every free slot cleared |
| TaskQueue.SizeIsHighWater | sylar/schedule.hpp:24-49 | In every run of single and batch enqueues, null callbacks included, and claims the vector is as long as the most callbacks that waited and were being handed over at once |
| Timers.FoundByDeadline | sylar/Timer.hpp:39-43 | `find` fails exactly when no stored timer has this timer's deadline; what it finds has that deadline |
| Timers.SumsWrap | sylar/Timer.cpp:13-18 | Clock sums and differences are taken modulo 2 to the 64 |
| Timers.FoundSelf | sylar/Timer.cpp:20-24 | `find` on a stored timer finds that very timer |
| Timers.InsertKeepsValid | sylar/Timer.cpp:92-103 | Insertion keeps deadlines strictly increasing, drops the timer exactly when its deadline is taken, and adds its deadline to the stored ones either way |
| Timers.AddedKeepsValid | sylar/Timer.cpp:92-98 | `addTimer` keeps the set invariant, sets the new timer's fields alone and stores it unless its deadline is taken |
| Timers.MovedKeepsValid | sylar/Timer.cpp:58-74 | Taking a stored timer out, changing it and storing it again keeps the set invariant and loses at most that timer |
| Timers.OperationsKeepValid | sylar/Timer.cpp:20-74 | `cancel`, `refresh` and both `reset` keep the set invariant, on stored and on other timers |
| Timers.DrainedKeepsValid | sylar/Timer.cpp:140-155 | The drain keeps the set invariant and splits the stored timers without loss |
| Timers.RearmedKeepsValid | sylar/Timer.cpp:156-165 | Re-arming one drained timer keeps the set invariant, changes no other timer, and stores it exactly when it is recurring and its new deadline is free |
| Timers.RewrittenKeepsValid | sylar/Timer.cpp:157-160 | The unlocked part of a round leaves the set and every other timer alone |
| Timers.OperationsKeepCallable | sylar/Timer.cpp:20-74 | `cancel`, `refresh` and both `reset` keep a callback with every stored timer |
| Timers.AddedKeepsCallable | sylar/Timer.cpp:92-98 | `addTimer` does so if and only if it is given a callback or the deadline is taken |
| TimerLaws.DrainIsFilter | sylar/Timer.cpp:142-155 | Lower bound and one-step bump take exactly the timers whose deadline has passed, in strictly increasing order, and leave exactly the others |
| TimerLaws.RearmAllDeadlines | sylar/Timer.cpp:156-165 | The whole re-arming loop keeps the set invariant and adds exactly the new deadlines of the recurring timers, whatever collisions there are |
| TimerLaws.RearmAllSettles | sylar/Timer.cpp:156-165 | What the loop makes of each drained timer, for every collision: a one-shot timer loses its callback; a recurring one keeps its fields but for a deadline counted from the reading of its own round, and is stored if and only if neither a timer stored before nor a recurring one drained earlier has that deadline; no other timer is touched |
| TimerLaws.ExpiryDeadlines | sylar/Timer.cpp:140-166 | After `GetExpiredCb` the stored deadlines are those not passed together with the new ones of the recurring timers |
| TimerLaws.CancelTouches | sylar/Timer.cpp:20-32 | `cancel` succeeds exactly when the deadline is stored, and leaves every other timer alone if and only if this timer is stored or nothing is found |
| TimerLaws.FoundIsRescheduled | sylar/Timer.cpp:34-74 | `refresh` and `reset(gap, from_now)` on the timer they find: `refresh` keeps its interval and sets the deadline to now plus the interval of the calling timer, `reset` sets the interval and the deadline to now plus it or the old deadline minus it; its other fields, all other timers and their order stay; it is stored if and only if no other stored timer has that deadline |
| TimerLaws.FoundIsCancelled | sylar/Timer.cpp:20-55 | `cancel` and `reset()` take exactly the timer found out of the set, and `reset()` clears every field of its own timer |
| TimerLaws.NobodyIsFound | sylar/Timer.cpp:20-74 | Without a stored timer of the deadline nothing changes but the fields that `reset()` clears |
| TimerLaws.AddedIsStored | sylar/Timer.cpp:92-103 | A new timer has the fields given and the deadline now plus its interval, and is stored, around the others in their order, if and only if no stored timer has that deadline |
| TimerLaws.RefreshAndRegapTouch | sylar/Timer.cpp:34-74 | `refresh` and `reset(gap, from_now)` affect this timer alone if and only if it is stored, nothing is found, or the timer found gets back the fields it had |
| TimerLaws.MovedKeepsOthers | sylar/Timer.cpp:58-74 | Moving a stored timer keeps all others, their fields and their order |
| TimerLaws.CancelHitsAnother | sylar/Timer.cpp:20-32 | A concrete pair of timers with one deadline where cancelling the second removes the first |
| TimerLaws.RefreshHitsAnother | sylar/Timer.cpp:34-45 | On the same pair, refreshing the second moves the deadline of the first |
| TimerLaws.WaitIsExact | sylar/Timer.cpp:126-138 | Nothing expires before the wait is over and something does at its end, if and only if the first deadline is not strictly between the two clock readings |
| TimerLaws.WaitWraps | sylar/Timer.cpp:126-138 | A concrete deadline and two readings for which the wait is nearly 2 to the 64 |
| TimerManagers.Timer.constructor | sylar/Timer.cpp:13-18 | A new timer's deadline is the clock plus its interval |
| TimerManagers.TimerManager.AddTimer | sylar/Timer.cpp:92-98 | The method's new state is the value-level insertion of a fresh timer, and the set invariant holds |
| TimerManagers.TimerManager.Store | sylar/Timer.cpp:100-103 | Insertion by deadline with equal deadlines refused |
| TimerManagers.TimerManager.FindTimer | sylar/Timer.cpp:22-24 | The lookup compares deadlines |
| TimerManagers.TimerManager.Cancel | sylar/Timer.cpp:20-32 | New state and result of `cancel` for every timer, stored or not |
| TimerManagers.TimerManager.Move | sylar/Timer.cpp:40-44 | Erasing a stored timer, rewriting it and inserting it again, as `refresh` and `reset(gap, from_now)` do |
| TimerManagers.TimerManager.Refresh | sylar/Timer.cpp:34-45 | New state of `refresh`: the timer found is moved by the interval of this timer |
| TimerManagers.TimerManager.Reset | sylar/Timer.cpp:47-55 | `reset()` cancels and clears every field |
| TimerManagers.TimerManager.ResetGap | sylar/Timer.cpp:58-74 | New state of `reset(gap, from_now)`, with the unsigned difference when not counted from now |
| TimerManagers.TimerManager.GetNextTimerMs | sylar/Timer.cpp:126-138 | The wait for both clock readings, 3000 when nothing is stored |
| TimerManagers.TimerManager.Drain | sylar/Timer.cpp:142-155 | The locked part takes the timers due, in order, and leaves the others |
| TimerManagers.TimerManager.RearmOne | sylar/Timer.cpp:157-164 | One round of the loop, whatever has become of the timer since the drain: stored again with a new deadline, or its callback cleared |
| TimerManagers.TimerManager.RearmEach | sylar/Timer.cpp:156-165 | The loop leaves the set as re-arming the drained timers one by one does, and appends their callbacks as they were drained |
| TimerManagers.TimerManager.GetExpiredCb | sylar/Timer.cpp:140-166 | The callbacks appended are those of exactly the timers due, in deadline order, and the new state is the drain followed by every re-arming |
| IdleRound.Collect | sylar/iomanager.cpp:255 | The buffer holds the callbacks of exactly the timers due, in deadline order |
| IdleRound.HandOver | sylar/iomanager.cpp:255-259 | One pass moves each due timer's callback into the task vector once, none of them null if every stored timer has one, nothing else, with the count and the stored deadlines to match and the buffer empty again |
| EventLoop.StepKeepsInv | sylar/schedule.cpp:66-106 | Every action of every worker and user keeps the invariant: conservation, the count, the timer set and the state of drained timers and of those in a worker's hand |
| EventLoopActions.UserMovesTheFound | sylar/Timer.cpp:20-74 | The four user actions of the loop on a timer, when one with its deadline is stored: what becomes of that timer's interval, deadline, place and callback, and that nothing else in the whole state changes |
| EventLoopActions.UserFindsNobody | sylar/Timer.cpp:20-55 | The same four when none is: only `reset()` changes anything, the fields of its timer |
| EventLoopActions.UserAddsATimer | sylar/Timer.cpp:92-98 | The action `addTimer`: the new timer's fields, whether it is stored and accepted, and that nothing else changes |
| EventLoopActions.EnqueueFillsLowest | sylar/schedule.cpp:49-63 | The action `schedule` past its test: callback and thread id go into the lowest free slot or a new one, and the count rises by one |
| EventLoopActions.ClaimRunsLowest | sylar/schedule.cpp:72-92 | A worker's claim and the completion after it: exactly the callback in the lowest occupied slot is run, its slot is cleared and the count falls by one |
| EventLoopActions.ClaimFindsNothing | sylar/schedule.cpp:72-98 | With all slots free a claim changes nothing and the worker goes on to its exit test |
| EventLoopActions.UserBatchFills | sylar/schedule.hpp:20-49 | A user's batch fills the slots as the batch form does, which is what single calls would leave wherever the two agree, and counts every callback of it |
| EventLoopActions.EverythingElseStays | sylar/schedule.cpp:47-106 | Which actions can change the timers, the slots, the count, the clock and the stopping flag; all others leave them alone |
| EventLoopActions.PassedCounts | sylar/schedule.cpp:48-49 | In every run the callers between the `m_stopping` test and the lock are those that passed the test less those that have enqueued |
| EventLoopActions.UndisturbedPass | sylar/iomanager.cpp:237-305 | A pass of one worker that no other thread comes between, however its actions are cut, is possible in every state and comes to the atomic `GetExpiredCb` followed by the batch `schedule`: timers, slots and count are the same |
| EventLoopActions.DueAreHandedOver | sylar/Timer.cpp:140-166 | A pass hands over the callbacks of exactly the stored timers with deadlines up to its reading |
| EventLoopActions.StoredTimersFire | sylar/iomanager.cpp:255-259 | From every reachable state, once the clock stands at a given time, a worker in a pass can by its own actions bring the callbacks of exactly the stored timers with deadlines up to then into the slots |
| EventLoopActions.NoWorkerIsStuck | sylar/schedule.cpp:71-103 | In every reachable state each worker that has not left has an action of its own that is possible |
| EventLoopActions.UsersMayAct | sylar/Timer.cpp:20-98 | In every reachable state users can act on every attached timer, add new ones, and schedule as long as the loop runs |
| EventLoopLaws.EveryJobInOnePlace | sylar/iomanager.cpp:255-259 | In every reachable state each accepted arming and call is in exactly one of seven places, and a drained timer has passed its deadline |
| EventLoopLaws.OneShotRunsAtMostOnce | sylar/Timer.cpp:140-166 | A one-shot timer is in at most one place and its callback runs at most once, in every interleaving |
| EventLoopLaws.TaskNumberCounts | sylar/schedule.cpp:47-98 | In every reachable state `task_number` is the waiting callbacks plus the running ones plus the null ones enqueued |
| EventLoopLaws.SlotsStayClear | sylar/schedule.cpp:52-61 | Free slots stay as `reset()` leaves them in a step if and only if the step does not enqueue a null callback with a thread id |
| EventLoopLaws.WhatDrops | sylar/Timer.cpp:20-74 | A user's action on a timer drops the one timer its lookup finds and no other: `cancel` and `reset()` always, `refresh` and `reset(gap, from_now)` if and only if another stored timer has the new deadline |
| EventLoopLaws.LeavingMeansDone | sylar/schedule.cpp:92-98 | When a worker leaves `run`, no slot is occupied, no worker is in a callback, and exactly the enqueued callbacks have run |
| EventLoopLaws.NullsNeedACause | sylar/Timer.cpp:47-55 | A null callback comes up in a step if and only if a user enqueues one, alone or in a batch, stores a timer without one, or resets a timer between its drain and its being stored again |
| EventLoopLaws.NoNullsWithoutCause | sylar/Timer.cpp:156-165 | In every run without these every callback handed over is non-null and the count is real work only |
| EventLoopLaws.NullsBlockLeaving | sylar/schedule.cpp:85-98 | After a null callback has been enqueued no worker leaves in any run |
| EventLoopProgress.NullCanBlock | sylar/Timer.cpp:47-55 | A reachable state, by `reset()` on a drained timer, from which the only worker never leaves |
| EventLoopProgress.WorkIsBounded | sylar/schedule.cpp:71-98 | Once enqueues cease, claims and completions use up the work exactly, and there are at most twice `task_number` of them |
| EventLoopProgress.CanFinish | sylar/schedule.cpp:71-98 | After `stop`, from every reachable state without null callbacks, a worker with nothing in its hands that has no due timer to look at has a bounded run by the loop's own actions, without enqueues, to the exit with all work done, in which claims and completions are exactly those the work needs |
| EventLoopProgress.FinishesIffNothingDue | sylar/iomanager.cpp:237-305 | For the last worker such a run without enqueues, and without users taking timers away, exists if and only if no timer is due or the worker need not go through another pass; for one already in a pass, if and only if no timer was due at its beginning and none is now or at most one callback waits |
| EventLoopProgress.EitherCanLeave | sylar/iomanager.cpp:237-305 | After `stop`, from every reachable state without null callbacks with two live workers that have nothing in their hands, one of the two can leave without an enqueue, whatever is due |
| EventLoopProgress.DueTimerKeepsWorker | sylar/iomanager.cpp:255-259 | A reachable state, stopped and with nothing enqueued, in which a due timer keeps the only worker from leaving without an enqueue |
| EventLoopProgress.SpinsForGood | sylar/schedule.cpp:71-103 | If the only timer is recurring with interval 0 and has passed its deadline and the last worker has one callback more than its next claim takes, then in every run in which no user touches a timer, enqueues allowed, it never leaves and `task_number` stays positive |
| EventLoopProgress.ZeroIntervalNeverLeaves | sylar/schedule.cpp:71-103 | A reachable, stopped state with one worker, after one `addTimer` and one `schedule`, from which that is so |
| EventLoopProgress.NoneStrandedIffNonePassed | sylar/schedule.cpp:48-49 | When the last worker leaves, all enqueued callbacks have run in every continuation without a user's batch if and only if no caller is between the `m_stopping` test and the lock |
| EventLoopProgress.LateBatchStrands | sylar/schedule.hpp:20-49 | A user's batch is always possible after the last worker has left, and leaves a callback that never runs if and only if it holds one that is not null |
| EventLoopProgress.StrandedByLateEnqueue | sylar/schedule.cpp:93-98 | Once all workers have left, what is enqueued by either form stays, so all has run in the end exactly when nothing was left and no callback comes |
| EventLoopProgress.TaskCanBeStranded | sylar/schedule.cpp:48-49 | A reachable state in which every worker has left and a callback waits |
| UrlCodec.UrlEncode | sylar/util.cpp:129-158 | The pointer loop with its lazily made buffer equals the byte-by-byte definition |
| UrlCodec.UrlDecode | sylar/util.cpp:160-189 | The same for decoding, with malformed escapes copied as they stand |
| UrlCodec.DecodeUndoesEncode | sylar/util.cpp:129-189 | Decoding undoes encoding for every byte string if and only if spaces written as '+' are read back or there are none |
| UrlCodec.EncodesEachByte | sylar/util.cpp:129-158 | Anywhere in a text a letter, a digit or one of "-._~=" is copied, a space becomes '+' if asked for, and any other byte becomes '%' and its two digits out of "0123456789ABCDEF" |
| UrlCodec.DecodesEscapes | sylar/util.cpp:160-189 | Anywhere in a text '%' and two hexadecimal digits, capital or small, are read as their byte |
| UrlCodec.DecodesOthers | sylar/util.cpp:160-189 | Any other character is copied, a '%' without two such digits behind it too, but for '+', which is a space if asked for |
| UrlCodec.EncodedAlphabet | sylar/util.cpp:83-104 | Encoded text holds ASCII letters and digits, "-._~=", '%' and '+' only, and no separator |
| ParamParsing.ComparatorIsOrder | sylar/http/http.cpp:53-56 | The comparator is a strict weak order, under which two keys are one if and only if as far as their first NUL they differ at most in the case of ASCII letters |
| ParamParsing.ComparatorIsLexicographic | sylar/http/http.cpp:53-56 | It orders keys as far as their first NUL by the first lower-case character in which they differ, a key before its extensions |
| ParamParsing.FoldIsKey | sylar/http/http.cpp:53-56 | Two keys have one place in the map if and only if they are equally long up to their first NUL and at each place are one character or the capital and the small form of one ASCII letter |
| ByteStrings.LowerOfLetters | sylar/http/http.cpp:55 | Folding changes each capital of the alphabet to the small letter at its place and no other character |
| ParamParsing.TrimTakesOffBlanks | sylar/util.cpp:191-198 | Trimming takes off exactly the characters of " \t\r\n" around a text |
| ParamParsing.SegmentsAreTheReading | sylar/http/http.cpp:217-233 | The grammar: a text's segments are the one list of pairs with '='-free keys and separator-free values that it reads as, up to a dropped tail without '=' |
| ParamParsing.ParseParam | sylar/http/http.cpp:217-233 | The index-juggling loop ends and inserts exactly the segments of the grammar, trimmed and decoded, in order |
| ParamParsing.InsertAllIsFirstWins | sylar/http/http.cpp:227-228 | A key already there keeps its value; otherwise the first pair with the same folded key decides, with its spelling |
| ParamParsing.ParameterRoundTrip | sylar/http/http.cpp:212-263 | Joining '='-free keys with encoded values and parsing gives exactly the first-wins map of the list, for queries and cookies and both ways of writing spaces |
| HttpRequests.OneParsePerSource | sylar/http/http.cpp:206-250 | In every sequence of calls whose first parsing call is a read, query and body are parsed once, as they are at the first read, over the earlier explicit changes; afterwards only explicit changes count |
| HttpRequests.AfterReadOnlyEdits | sylar/http/http.cpp:79-116 | After the first read no later read and no later change of query, body or headers alters the parameters |
| HttpRequests.ParsedSourcesAreIgnored | sylar/http/http.cpp:212-250 | In every sequence of calls, `initQueryParam` or `initBodyParam` alone included, two requests that differ only in sources already parsed have the same parameters |
| HttpRequests.EditsAreSeen | sylar/http/http.cpp:94-116 | A value set or deleted is seen so under every spelling of its key that differs in the case of letters and under no other key |
| HttpRequests.FirstSpellingStays | sylar/http/http.cpp:94-116 | Setting a key again under another spelling keeps the first spelling, until the key has been deleted |
| HttpRequests.SourcesFollowEdits | sylar/http/http.cpp:94-116 | In every sequence of calls query, body and headers are as last set; no read and no edit of parameters or cookies changes them |
| HttpRequests.FormsAreFound | sylar/http/http.cpp:239-250 | The body counts as a form if and only if there is a content-type header in whose value, up to a NUL, "application/x-www-form-urlencoded" stands somewhere in any case |
| HttpRequests.FormBodyReadsBack | sylar/http/http.cpp:239-250 | After a header stored under any spelling of content-type with any text around that media type in any case, and a body written from a list of pairs, `getParam` gives the explicit value, else the query's, else the list's first, else the default |
| HttpRequests.MergedPriority | sylar/http/http.cpp:79-85 | A first read prefers an explicit value, then the first in the query, then for a form the first in the body, then the default |
| HttpRequests.QueryReadsBack | sylar/http/http.cpp:79-85 | `getParam` on a query written from a list of pairs gives the explicit value if there is one, else the first value of the key in the list, and goes on to a form body and the default only if the key is not in it |
| HttpRequests.CookiesStay | sylar/http/http.cpp:252-263 | After a first look no call but `setCookie`, `delCookie` and `setCookies` changes the cookies |
| HttpRequests.AfterLookOnlyEdits | sylar/http/http.cpp:87-116 | After a first look the cookies change by exactly the explicit changes to them |
| HttpRequests.OneParseOfCookies | sylar/http/http.cpp:252-263 | In every sequence of calls with a look in it the cookie header is parsed once, as it is at the first look, over the earlier explicit changes; afterwards only explicit changes count |
| HttpRequests.CookiePriority | sylar/http/http.cpp:87-92 | A first look, by a cookie call or by `initParam`, prefers an explicit cookie, then the first of that trimmed name in the header |
| HttpRequests.HttpRequest.InitQueryParam | sylar/http/http.cpp:212-237 | The object's whole new state, with the flag bit set once |
| HttpRequests.HttpRequest.InitBodyParam | sylar/http/http.cpp:239-250 | The same for the body, parsed only for a form content type |
| HttpRequests.HttpRequest.InitCookies | sylar/http/http.cpp:252-263 | The same for the cookie header |
| HttpRequests.HttpRequest.InitParam | sylar/http/http.cpp:206-210 | All three in their order |
| HttpRequests.HttpRequest.GetParam | sylar/http/http.cpp:79-85 | New state and value of a read |
| HttpRequests.HttpRequest.HasParam | sylar/http/http.cpp:129-140 | New state, whether the key is there, and the out-parameter left alone when it is not |
| HttpRequests.HttpRequest.GetCookie | sylar/http/http.cpp:87-92 | New state and value of a look at a cookie |
| HttpRequests.HttpRequest.HasCookie | sylar/http/http.cpp:142-153 | New state, whether the key is there, and the out-parameter left alone when it is not |
| HttpDump.Dump | sylar/http/http.cpp:163-193 | The output is the start line, the field lines, the empty line and the body of the fields listed by `Fields`, for every request |
| HttpDump.DumpStart | sylar/http/http.cpp:165-175 | The request line, with '?' and '#' only before parts that are there |
| HttpDump.DumpFields | sylar/http/http.cpp:176-184 | The loop over the headers writes the connection line first and skips the user's own, up to case, outside a websocket upgrade |
| HttpDump.DumpReadsBack | sylar/http/http.cpp:163-193 | For every request with delimiter-free parts a reader that splits the text as sections 3.1.1, 3.2 and 3.3 of RFC 7230 have it gets back the same method, path, query, fragment, version, fields and body if and only if the method is known, the target is not empty, both version numbers are single digits and the user's content-length does not contradict the body; otherwise it refuses |
| HttpDump.ContradictingLength | sylar/http/http.cpp:186-191 | A concrete request with a contradicting content-length, which is written and refused by the reader |
| HttpDump.MethodReadsBack | sylar/http/http.cpp:7-39 | A method's name gives back the method, and the text for an unknown one is no token |
| HttpDump.HttpMethods | sylar/http/http.hpp:18-26 | The numbers of the methods of HTTP/1.1 |
| HttpDump.WebDavMethods | sylar/http/http.hpp:28-39 | Those of WebDAV |
| HttpDump.OtherMethods | sylar/http/http.hpp:41-59 | Those of the other methods, and that there are no more |
| HttpDump.OneConnection | sylar/http/http.cpp:176-184 | Outside a websocket upgrade there is exactly one connection field, "close" or "keep-alive" as the close flag is; inside one the user's own are kept |
| HttpDump.OptionsReadBack | sylar/http/http.cpp:176-184 | A reader of connection options and persistence after sections 6.1 and 6.3 of RFC 7230 finds, outside a websocket upgrade, the one option the close flag stands for and keeps the connection open if and only if the flag is off and the version is at least 1.0; inside one it finds the options of the user's own fields |
| HttpDump.PickedIsTheFilter | sylar/http/http.cpp:179-184 | Picking fields by name goes through them one by one and keeps their order |
| HttpDump.LengthFields | sylar/http/http.cpp:186-191 | The content-length fields are the user's own and the computed one, the decimal length of the body, which is there exactly when the body is not empty |
| HttpDump.OtherHeadersKept | sylar/http/http.cpp:179-184 | All other headers are written, in their order |
| Numerals.DigitsReadBack | sylar/http/http.cpp:187 | Written numbers consist of digits and read back |
| Numerals.DigitsAreUsual | sylar/util.cpp:106-123 | The digits and their values are the usual ones, small letters written and both forms read |
| Numerals.ValueIsPositional | sylar/http/http.cpp:187 | A number's value is positional, the leftmost digits counting most |
| Numerals.NoLeadingZero | sylar/address.cpp:271-284 | Written numbers have no zeros in front |
| Ipv6.InsertGroup | sylar/address.cpp:271-284 | One round of the loop keeps what has been written equal to the compressed form of the groups seen |
| Ipv6.InsertGroups | sylar/address.cpp:269-287 | The flag-driven loop over the words in memory order writes the groups with exactly the first maximal run of zeros compressed, for any number of groups and both byte orders |
| Ipv6.CompressedReads | sylar/address.cpp:269-287 | The text parses back by section 2.2 of RFC 4291 to the same groups |
| Ipv6.FirstRunIsLeftOut | sylar/address.cpp:269-287 | Exactly the first run of zeros is left out, all of it, and groups without zeros are written in full |
| Ipv6.DoubleOnce | sylar/address.cpp:276-287 | "::" occurs if and only if some group is zero, and at one place only |
| Ipv6.TextReads | sylar/address.cpp:267-291 | The whole text gives back the bytes and the port |
| Ipv6.ByteswapUndoesItself | sylar/endian.hpp:34-38 | Swapping exchanges the two bytes, twice is the identity, and keeps zero |
| Ipv6.WordsAreGroups | sylar/endian.hpp:43-81 | Swapping makes a word read from memory the group of the address on both kinds of machine |
| Ipv6.IPv6Address.constructor | sylar/address.cpp:247-252 | A new object holds the bytes given and reads back the port given |
| Ipv6.IPv6Address.SetPort | sylar/address.cpp:297-299 | The port set is the port read |
| Ipv6.IPv6Address.Insert | sylar/address.cpp:267-291 | What is written reads back as this object's 16 bytes and port |
| LogPattern.HaltsIffClosed | sylar/logger.cpp:194-229 | The scan ends if and only if every "%d{" it reaches has the pattern's first '}' behind it; otherwise it goes round for ever |
| LogPattern.UnclosedGoesBack | sylar/logger.cpp:219-222 | At a "%d{" that breaks the condition the scan returns to an index it has visited |
| LogPattern.TwoDatesRun | sylar/logger.cpp:219-222 | A concrete pattern with two date formats on which it never ends |
| LogPattern.OneDateFormat | sylar/logger.cpp:219-222 | A pattern that compiles meets at most one date format |
| LogPattern.TokensRebuild | sylar/logger.cpp:194-229 | Tokens and date format make up the pattern again, nothing lost or added |
| LogPattern.CompiledMeans | sylar/logger.cpp:194-246 | Interpreting the tokens equals reading the pattern directly from left to right, and the format kept is the one that reading finds |
| LogPattern.LettersWriteTheirFields | sylar/logger.cpp:151-192 | Wherever it stands in a pattern, each of the 13 letters behind '%' writes its own field of the event, between the meanings of the texts before and behind it |
| LogPattern.OthersWriteThemselves | sylar/logger.cpp:151-229 | Every other letter behind '%', every other character and a '%' at the end stand for themselves |
| LogPattern.DatesSetTheFormat | sylar/logger.cpp:219-222 | A date with a format of its own writes the time, and its format is the one meant from there on |
| LogPattern.Formatter.constructor | sylar/logger.cpp:146-148 | A new formatter holds the tokens and the format of its pattern |
| LogPattern.Formatter.ParsePattern | sylar/logger.cpp:194-229 | The loop appends exactly the tokens of the pattern and replaces the format when there is one |
| LogPattern.Formatter.Log | sylar/logger.cpp:232-246 | The output is the rendering of every token in order, with the logger's date format |
| LogPattern.LogPatternOnce | sylar/logger.cpp:116-119 | A formatter that is its logger's own writes what its pattern means, with "%F %T" as the format of dates unless the pattern gives one |
| FdTable.StepRefines | sylar/hook.cpp:422-457 | Every allowed call keeps the invariant of table and kernel, and to its user is the same call on a plain kernel in which managed sockets begin blocking |
| FdTable.GetFlRefines | sylar/hook.cpp:443-456 | F_GETFL answers what that plain kernel would, every flag of the word included |
| FdTable.RunRefines | sylar/hook.cpp:243-254 | The same over every run of calls |
| FdTable.ManagedNeverBlock | sylar/fd_manager.cpp:50-60 | In every run managed sockets keep O_NONBLOCK in the kernel, whatever the user sets |
| FdTable.ReadsLastSet | sylar/hook.cpp:426-456 | F_GETFL gives the flags last set, however other descriptors are used in between |
| FdTable.OthersStay | sylar/fd_manager.cpp:84-115 | No call changes the entry or the file of another descriptor, and growth keeps every entry |
| FdTable.SafeIndices | sylar/fd_manager.cpp:84-115 | `get` stays in range if and only if the descriptor is at least -1; `del` if and only if it is not negative and not the size |
| FdTable.GetGrowsByHalf | sylar/fd_manager.cpp:101-106 | The table grows only for a new context behind its end, to half as much again as the descriptor, which has room for it |
| FdTable.CloseUnhooked | sylar/hook.cpp:406-409 | Closing with the hook off keeps the invariant if and only if the descriptor is not managed |
| FdTable.StaleEntry | sylar/hook.cpp:406-456 | What the entry left behind does to F_GETFL and to the next socket of that number |
| FdTable.StaleEntryReached | sylar/hook.cpp:406-420 | One hooked `socket` and one unhooked `close` leave a stale entry, after which F_GETFL does not fail on the closed descriptor |
| FdTable.CreationFlags | sylar/fd_manager.cpp:36-63 | Flags given at creation read back unchanged if and only if the hook was off, it is no socket, or it was not asked to be non-blocking |
| FdTable.KernelMerges | sylar/hook.cpp:437-441 | The three-part view of a flag word agrees with the bit operation by which the kernel stores it |
| FdTable.PartsAreTheWord | sylar/hook.cpp:443-456 | The parts determine the word |
| FdTable.FlagNumbers | sylar/hook.cpp:426-456 | Which bits of a flag word the parts are |
| FdTable.ClosedFails | sylar/hook.cpp:443-449 | F_GETFL on a descriptor that is not open gives -1 |
| FdManagers.FdCtx.Init | sylar/fd_manager.cpp:36-63 | The object's flags and the kernel's file after `init`, for sockets, other files and closed descriptors, and no change on an object already initialised |
| FdManagers.FdManager.constructor | sylar/fd_manager.cpp:80-82 | A new table has 64 empty entries |
| FdManagers.FdManager.Get | sylar/fd_manager.cpp:84-108 | The table and kernel afterwards and the entry returned, with every index in range from -1 on; no two entries share an object |
| FdManagers.FdManager.Del | sylar/fd_manager.cpp:110-115 | Empties one entry and keeps all others |
| FdManagers.Socket | sylar/hook.cpp:243-254 | State after a hooked or unhooked `socket`, successful or not |
| FdManagers.Accept | sylar/hook.cpp:356-364 | State after `accept`, which is managed with the hook off too |
| FdManagers.Close | sylar/hook.cpp:406-420 | State after `close`; `del` is reached only in range |
| FdManagers.SetFl | sylar/hook.cpp:426-442 | State after F_SETFL with any 32-bit word, on managed and other descriptors, by the bit operations of the source |
| FdManagers.GetFl | sylar/hook.cpp:443-456 | The 32-bit word F_GETFL returns is the one with the parts the user is to see, and nothing changes |

## Left out

- System calls: sockets, epoll, pipes, `fstat`, `getaddrinfo`, `inet_pton` and OpenSSL. The kernel is a map from descriptors to files with a flag word.
- `do_io`, `connect_with_timeout`, the sleep hooks and the other commands of `fcntl`, which pass through or wait on foreign calls.
- Event bookkeeping of `IOmanager` (`addEvent`, `delEvent`, `cancel`, `cancelAllEvent`, `m_number_event`); the part of `idle` that dispatches epoll events.
- Data races between the separate find and erase locks of `Timer::cancel` and `refresh`: each timer operation is one action. So are the unlocked reads and writes of one timer's fields in `GetExpiredCb` (Timer.cpp:157-160); a `reset()` between them and the `addTimer` that follows is covered.
- `Schedule::stop`, which calls `run` under its lock; `stop` is that of `IOmanager`. The lifetime of the coroutine after `idle` has returned, and `idele_thread_cout`.
- `TimerManager::addTimer(timer)` with a timer of the caller's own: it is modelled as the re-arming loop uses it. `addCondtionTimer` is `addTimer` with a bound callback.
- `FdManager::get` tests under a shared lock, releases it and inserts under another without a second test (fd_manager.cpp:89-107), so two first users of a descriptor can each make a context. Each call is one step here.
- Several managers: a timer belongs to one manager and one loop, and is made by `addTimer`.
- HttpDump.DumpReadsBack: the forms that section 5.3 of RFC 7230 allows a request target are not checked, transfer codings are not read, and the order of the header map is taken as given.
- Descriptors that share one open file after `dup` count as separate files; receive and send timeouts of a descriptor; `ioctl`, which forwards the user's value to the kernel.
- `operator<` and `operator==` of addresses, IPv4, and the text of addresses read by the C library.
- Response serialization, which repeats the request's; the status table.
- `StringUtil::TrimRight`, locale conversions, printf-style formatting, configuration files, appenders, `TcpServer`, `Socket`, threads and semaphores.
