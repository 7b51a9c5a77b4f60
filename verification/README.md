# Timers, parsers, pools and tables of the server programs

This project models the algorithmic core of a collection of Linux server programs and proves what
that core promises. Four families of code hold the state worth an invariant:

* **Three timer containers**: the ascending list of `11-2 lst_timer.h`, the hashed wheel of
  `11-5 time_wheel_timer.h` and the min-heap with lazy deletion of `11-6 timeHeap.h`. Each is a class
  over linked nodes or an array that is proved against a function on sequences or sets; the three are
  then shown to run the same callbacks at every heartbeat of every common run.
* **Incremental HTTP parsing and response printing**: the two-level state machines of
  `8-3 parse_line.cpp` and `15-5 http_conn.cpp` over a buffer that is filled in arbitrary pieces and
  cut up in place by NULs, and the CR LF scan of `15-2 pool_CGIServer.cpp`. What they compute is a
  function of the byte stream alone, and what they answer to any stream is stated without the parser.
* **Thread pool, one-shot events and process pool**: step machines with one program counter a thread
  (`15-3 threadpool.h`, `14-2 locker.h`), the passing on of a connection between epoll, main loop, queue
  and workers (`15-6 WebServer.cpp`, `15-5 http_conn.cpp`), and round-robin dispatch over children that
  may die (`15-1 processpool.h`).
* **Tables whose last slot fills a gap**: the process table of `13-4 sharedMemory_chatroomServer.cpp`
  and the descriptor array of `9-7 chatroom_server.cpp`, which is changed while it is swept.

`dafny verify dfyconfig.toml` checks everything.

## Files

| file | contents |
|---|---|
| `TimerAgenda.dfy` | what the timer containers have in common, and when a timer fires |
| `SortedTimerList.dfy`, `TimeWheel.dfy`, `TimeHeap.dfy` | the three containers |
| `TimerSimulation.dfy` | each container refines the agenda; whole runs agree |
| `ListRun.dfy`, `WheelRun.dfy`, `HeapRun.dfy`, `TimerRun.dfy` | the three objects, driven through the same run by clients that keep pointers to their timers |
| `WheelOrder.dfy`, `HeapRoom.dfy` | in which runs the wheel as written reads a deleted timer; in which runs the heap doubles its array |
| `ExtendRun.dfy` | runs of the list in which clients put deadlines off |
| `Wrappers.dfy`, `Sequences.dfy`, `CStrings.dfy`, `Decimal.dfy`, `Sockets.dfy` | options, sequence edits, C string functions, decimal numbers, recv |
| `LineScanner.dfy`, `LineBuffer.dfy`, `LineStream.dfy` | the line machine and the buffer shared by the two HTTP parsers; streams as lines |
| `RequestLine.dfy`, `RequestParser.dfy`, `RequestGrammar.dfy` | request line, parser of chapter 8, what it answers to any stream |
| `HttpConn.dfy`, `RequestBody.dfy`, `RequestHead.dfy` | the connection object of chapter 15: reading, requests with a body, heads and bad request lines |
| `Response.dfy`, `Exchange.dfy` | printing responses, and what a client reads of the answer to its request |
| `CgiScan.dfy` | the CGI server's scan |
| `ThreadPool.dfy`, `OneShot.dfy`, `ProcessPool.dfy` | the three protocols |
| `ChildTable.dfy`, `PollSweep.dfy` | the two tables |

## How the code is read

* `time()` is an argument. A callback appends the timer's number to the result of the heartbeat and does
  not touch the container. `delete` takes a node out of the ghost set of nodes.
* recv hands over the bytes that arrive in pieces of any size up to the room in the buffer; with no
  room it returns 0. accept, fork, waitpid, stat, poll and epoll_wait are arguments or nondeterministic
  steps.
* int and long keep their width where a value can leave it: `Content-Length` goes through a 64-bit
  `atol` that stops at its bounds and is cut to 32 bits, and the sum of length and index
  (15-5 http_conn.cpp:291) wraps around.
* `locker::unlock` is taken to release the mutex, as its comment says (14-2 locker.h:67), although its
  body locks once more (line 70). `ThreadPools.ServesExactlyIfUnlockReleases` proves that with the body
  as written the pool never serves a request, and that releasing is all it takes.
* The event loop of `15-6 WebServer.cpp` repeats; the lines 178-184 are read as coming after it.

What the proofs say about the code itself:

* A heartbeat of the wheel deletes the successor of a timer that fires anywhere but at the head of its
  slot (11-5 time_wheel_timer.h:200) and then reads it. `TimeWheels.WalkAsWrittenIsWalk` gives the exact
  lists on which this happens; on all others the pass as written is the pass modelled here. The methods of
  the wheel tell it by a ghost result `stale`. `WheelOrders.SafeRunsExactly` tells from the calls alone in
  which runs from an empty wheel it never happens, `WheelOrders.SuccessorIsRead` is a run of five calls in
  which it does, and `WheelOrders.ShortTimeoutsAreSafe` shows that timeouts below one turn are safe.
* An addition that finds the heap full doubles the array, deletes the timers it has just copied
  (11-6 timeHeap.h:259), and reads one of them in the same call (line 131): `stale` in
  `TimeHeaps.TimeHeap.Insert` is true exactly then. `HeapRuns.RunHeap` carries this over whole runs: it
  never happens if and only if every addition finds fewer timers stored than the starting capacity, where a
  cancelled timer counts until it is due (`HeapRooms.AlwaysRoom`). `HeapRooms.OneAdditionTooMany` is a run
  for every capacity in which it does; with no more additions than places it does not
  (`HeapRooms.FewAdditionsFit`).
* The three containers agree in every run as modelled, without these deletes; the last clause of
  `TimerRuns.RunAll` says in which runs the code as written never reads a deleted timer.
* `adjust_timer` is meant for extended deadlines only. `SortedTimerList.AdjustIsReinsertion` shows that it
  is right exactly when the new deadline is not before that of the timer in front. `ExtendRuns.RunCalls` and
  `ExtendRuns.RunExtended` are about runs of the list in which deadlines are put off, as a client does that
  gives every timer the same time (11-3 nonactive_connect.cpp:182, 273; `ExtendRuns.SameTimeoutPutsOff`).
* A timer of k seconds fires on the (k+1)-th heartbeat after its addition, since the current slot is handled
  before the wheel turns (11-5 time_wheel_timer.h:152, 205).
* Both request parsers want tabs where section 3.1.1 of RFC 7230 has single spaces
  (8-3 parse_line.cpp:95, 117, 119; 15-5 http_conn.cpp:205-206):
  `RequestLines.LineWithoutTabIsRejected`.
* A request body that arrives in pieces is scanned for lines in between (15-5 http_conn.cpp:308), and
  later calls measure it from where the scan stopped. `RequestBodies.BodyVerdict` tells for every cut of
  a stream into any number of pieces whether the request is completed; `RequestBodies.SplitBodyIsLost`
  shows one that is not.
* The sum of announced length and index is an int (15-5 http_conn.cpp:291). It means what it is meant
  to exactly while it fits (`RequestBodies.BodyTestIsExact`); a request that announces 2147483647 bytes
  is completed before any of them has come (`RequestBodies.LongestBodyIsTakenAtOnce`), and line 293 then
  writes outside the buffer. `HttpConns.HttpConn.ParseContent` says exactly when the write lies inside.
* An open connection has exactly one holder in every run with no more connections at once than the limit and
  one, closing workers and reused numbers included, under two conditions on its steps:
  `OneShot.EveryRunIsOwned`. `OneShot.LateNumbersAreOwned` replaces the two by one on the numbers that accept
  gives out. What each condition keeps away is this:
  * A request that the full queue refuses leaves its connection open with no holder (15-6 WebServer.cpp:157
    ignores the result of append). One connection more than the bound is enough for that, even when no worker
    closes (`OneShot.FullQueueRefuses`), and it is for good unless a late modfd happens to find the
    connection (`OneShot.RefusedIsForgotten`, `OneShot.LostUnlessRearmed`).
  * modfd after close_conn (15-5 http_conn.cpp:633-638) gives a connection two holders exactly when its
    number was reused and is in somebody's hands (`OneShot.LateModfdKeepsOwnership`,
    `OneShot.ReusedNumberHasTwoHolders`).
  * A number reused even before the worker writes -1 into the object (15-5 http_conn.cpp:68-70) makes a
    connection that is never heard: `OneShot.ForgottenNumberIsLost` is such a run. Some open
    connection is without its number at the end of exactly those runs in which a step writes -1 over the
    number of an open one (`OneShot.NamesAreKeptExactly`); the connection is lost as soon as it is handled
    (`OneShot.LosesExactly`) and nobody holds it ever after (`OneShot.UnnamedIsForgotten`).
* A child that was in the last slot leaves its entry in `sub_process` behind
  (13-4 sharedMemory_chatroomServer.cpp:421): `ChildTables.EntryIsClearedUnlessLast`.

## Model

| member | source | states |
|---|---|---|
| TimerAgenda.PendingFiresOnce | 11-5 time_wheel_timer.h:150-206 | a pending timer that is not cancelled fires at the one heartbeat that finds its deadline, and at no other |
| TimerAgenda.AddedFiresOnTime | 11-5 time_wheel_timer.h:64-94 | a timer of k seconds, where none counts as one, fires on the (k+1)-th later heartbeat only; once cancelled it never fires |
| TimerAgenda.FiresExactlyOnce | 11-5 time_wheel_timer.h:149-206 | the same within any whole run from an empty container |
| SortedTimerList.InsertPoint | 11-2 lst_timer.h:214-249 | insertion puts a timer behind everything due no later and before everything due later |
| SortedTimerList.InsertKeepsOrder | 11-2 lst_timer.h:67-83 | insertion keeps the list ascending and adds exactly the one timer |
| SortedTimerList.AdjustIsReinsertion | 11-2 lst_timer.h:89-120 | adjusting is deletion and stable reinsertion, and leaves an ascending list, if and only if the new deadline is not before that of the timer in front |
| SortedTimerList.ExtendedTimerIsReinserted | 11-2 lst_timer.h:86-120 | an extended deadline always gives deletion and stable reinsertion |
| SortedTimerList.DueIsExact | 11-2 lst_timer.h:184-192 | the timers before the first that is not due are exactly those that are due |
| SortedTimerList.UtilTimer.constructor | 11-2 lst_timer.h:24-24 | a new timer is unlinked |
| SortedTimerList.SortTimerList.constructor | 11-2 lst_timer.h:41-41 | an empty list |
| SortedTimerList.SortTimerList.AddTimer | 11-2 lst_timer.h:57-84 | the list becomes the stable insertion of the timer; links, head and tail stay consistent; null changes nothing |
| SortedTimerList.SortTimerList.AddTimerAfter | 11-2 lst_timer.h:214-249 | the timer goes before the first later one behind the given node |
| SortedTimerList.SortTimerList.Splice | 11-2 lst_timer.h:223-248 | links on both sides, or the new tail |
| SortedTimerList.SortTimerList.PushFront | 11-2 lst_timer.h:74-81 | the timer is the new head |
| SortedTimerList.SortTimerList.AdjustTimer | 11-2 lst_timer.h:89-120 | computes the adjusted list on the early-return, head and middle paths and keeps the nodes |
| SortedTimerList.SortTimerList.Reinsert | 11-2 lst_timer.h:100-119 | the timer is taken out and goes before the first later one behind its old place |
| SortedTimerList.SortTimerList.DetachHead | 11-2 lst_timer.h:144-145 | the list without its head |
| SortedTimerList.SortTimerList.DetachMiddle | 11-2 lst_timer.h:166-167 | the list without an inner node |
| SortedTimerList.SortTimerList.DetachTail | 11-2 lst_timer.h:157-158 | the list without its tail |
| SortedTimerList.SortTimerList.DelTimer | 11-2 lst_timer.h:123-170 | exactly the timer is gone; null changes nothing |
| SortedTimerList.SortTimerList.Unlink | 11-2 lst_timer.h:127-167 | the four cases of only, first, last and inner timer, also with the stale tail of an emptied list |
| SortedTimerList.SortTimerList.Tick | 11-2 lst_timer.h:175-209 | runs the leading due timers in list order and keeps the rest |
| SortedTimerList.SortTimerList.DropHead | 11-2 lst_timer.h:199-204 | the list without its head, which may have been its only node |
| TimeWheels.NewTimerRemains | 11-5 time_wheel_timer.h:75-94 | slot and rotation of a new timer make exactly its ticks remain |
| TimeWheels.TurnCountsDown | 11-5 time_wheel_timer.h:158-205 | what remains drops by one per heartbeat for every stored timer, and is zero exactly when the timer fires |
| TimeWheels.StayKeeps | 11-5 time_wheel_timer.h:162-166 | what is in a slot after a pass was there before with one rotation more, and conversely |
| TimeWheels.FiredIsDue | 11-5 time_wheel_timer.h:169-171 | a pass fires exactly the timers of rotation zero |
| TimeWheels.HalfDoneStep | 11-5 time_wheel_timer.h:156-203 | what one visit makes of a slot that is half done |
| TimeWheels.WalkAsWrittenIsWalk | 11-5 time_wheel_timer.h:173-201 | the pass with line 200 reads no deleted timer if and only if no timer with a successor fires behind one that stays, and then equals the modelled pass |
| TimeWheels.TwTimer.constructor | 11-5 time_wheel_timer.h:24-24 | a new timer is unlinked |
| TimeWheels.TimeWheel.constructor | 11-5 time_wheel_timer.h:39-45 | all slots empty, at slot 0 |
| TimeWheels.TimeWheel.PushFront | 11-5 time_wheel_timer.h:96-111 | the timer is the new head of its slot, other slots unchanged |
| TimeWheels.TimeWheel.Unlink | 11-5 time_wheel_timer.h:125-146 | exactly the timer leaves its slot, links stay consistent |
| TimeWheels.TimeWheel.Visit | 11-5 time_wheel_timer.h:162-202 | one timer of a pass: counted down, or fired and taken out; line 200 would delete the next one if and only if the timer fires behind one that stays and has a successor |
| TimeWheels.TimeWheel.WalkSlot | 11-5 time_wheel_timer.h:152-203 | a pass leaves those that stay and fires the others, in order; with line 200 it would read a deleted timer if and only if the pass as written does |
| TimeWheels.TimeWheel.AddTimer | 11-5 time_wheel_timer.h:64-114 | null for a negative timeout; else the timer is at the head of its slot with its rotation |
| TimeWheels.TimeWheel.DelTimer | 11-5 time_wheel_timer.h:117-147 | exactly the timer is gone from its slot |
| TimeWheels.TimeWheel.Tick | 11-5 time_wheel_timer.h:150-206 | the wheel turns once; fires the timers of the current slot with rotation zero; tells whether line 200 would have a deleted timer read |
| WheelOrders.WalkTellsOrder | 11-5 time_wheel_timer.h:156-203 | the pass with line 200 over a slot reads no deleted timer if and only if no due timer was added between one of its slot and a later one that is not due yet |
| WheelOrders.StepKeepsOrder | 11-5 time_wheel_timer.h:64-206 | every slot holds its pending timers in the reverse order of their addition, with their rotations, after every call |
| WheelOrders.SafeRunsExactly | 11-5 time_wheel_timer.h:64-206 | from the empty wheel, no heartbeat of a run reads a deleted timer if and only if at none of them a due timer lies so between two others, told from the calls alone |
| WheelOrders.SuccessorIsRead | 11-5 time_wheel_timer.h:187-201 | timeouts of 1, 1 and 61 and two heartbeats: a deleted timer is read |
| WheelOrders.ShortTimeoutsAreSafe | 11-5 time_wheel_timer.h:162-201 | timeouts shorter than a turn of the wheel never lead there |
| TimeHeaps.RootIsLeast | 11-6 timeHeap.h:157-162 | the root of a heap is due first |
| TimeHeaps.SiftStep | 11-6 timeHeap.h:218-235 | a sinking step moves the only disorder down |
| TimeHeaps.RiseStep | 11-6 timeHeap.h:127-134 | a rising step moves the only disorder up |
| TimeHeaps.LastToRoot | 11-6 timeHeap.h:173-174 | replacing the root by the last timer keeps the rest in heap order and drops only the root |
| TimeHeaps.PartitionIsExact | 11-6 timeHeap.h:187-203 | when nothing due is kept, the popped timers are exactly those due, with their multiplicities |
| TimeHeaps.LazyIsEager | 11-6 timeHeap.h:181-204 | a heartbeat runs exactly the due timers that were not cancelled and keeps exactly what is not due |
| TimeHeaps.PoppedOnce | 11-6 timeHeap.h:195-201 | when every timer is stored once, no callback is run twice by a heartbeat |
| TimeHeaps.HeapTimer.constructor | 11-6 timeHeap.h:24-27 | the deadline is the time of creation plus the delay |
| TimeHeaps.TimeHeap.constructor | 11-6 timeHeap.h:39-56 | an empty heap |
| TimeHeaps.TimeHeap.Build | 11-6 timeHeap.h:59-93 | a heap of exactly the given timers, or none when they exceed the capacity |
| TimeHeaps.TimeHeap.EarlierChild | 11-6 timeHeap.h:220-225 | the child due earlier, the left one on a tie |
| TimeHeaps.TimeHeap.SinkOnce | 11-6 timeHeap.h:218-235 | the hole moves to the earlier child or the heap is in order |
| TimeHeaps.TimeHeap.PercolateDown | 11-6 timeHeap.h:212-238 | heap order from the hole on, same timers |
| TimeHeaps.TimeHeap.RiseOnce | 11-6 timeHeap.h:127-134 | the hole moves to its parent or the heap is in order |
| TimeHeaps.TimeHeap.Insert | 11-6 timeHeap.h:114-136 | heap order and exactly one timer more; doubled first when full; if and only if it was, line 131 would read a timer that line 259 has deleted |
| TimeHeaps.TimeHeap.AddTimer | 11-6 timeHeap.h:108-142 | heap order, exactly one timer and one entry more, capacity doubled exactly when full; null changes nothing |
| TimeHeaps.TimeHeap.Resize | 11-6 timeHeap.h:241-269 | capacity doubled, same timers in the same places; line 259 would delete all of them |
| TimeHeaps.TimeHeap.DelTimer | 11-6 timeHeap.h:145-154 | only the callback of the timer is gone |
| TimeHeaps.TimeHeap.Top | 11-6 timeHeap.h:157-162 | null if and only if empty; else a timer due no later than any other |
| TimeHeaps.TimeHeap.PopTimer | 11-6 timeHeap.h:165-178 | exactly the top timer is gone, heap order kept |
| TimeHeaps.TimeHeap.FireTop | 11-6 timeHeap.h:194-202 | runs the top timer unless cancelled and pops it |
| TimeHeaps.TimeHeap.PopDue | 11-6 timeHeap.h:187-203 | pops in order of deadline until nothing kept is due; runs the popped timers that have a callback, in that order; late enough, this sorts the heap |
| TimeHeaps.TimeHeap.Tick | 11-6 timeHeap.h:181-204 | runs the callbacks of exactly the due timers that were not cancelled, each once, and keeps exactly the entries that are not due |
| TimerSimulation.ListRefines | 11-2 lst_timer.h:57-209 | every call on the list is the step of the agenda, with the same callbacks each once |
| TimerSimulation.WheelRefines | 11-5 time_wheel_timer.h:64-206 | every call on the wheel is the step of the agenda, with the same callbacks each once |
| TimerSimulation.HeapRefines | 11-6 timeHeap.h:108-204 | every call on the heap is the step of the agenda, with the same callbacks |
| TimerSimulation.RunsAgree | 11-5 time_wheel_timer.h:64-206 | in every run of additions, cancellations and heartbeats the three containers run the same callbacks at every heartbeat |
| TimerSimulation.EveryTimerFiresOnTime | 11-5 time_wheel_timer.h:75-82 | in each container an uncancelled timer of k seconds fires exactly once, on the (k+1)-th heartbeat after its addition |
| ListRuns.ListClients.Do | 11-2 lst_timer.h:57-209 | a call on the real list, by clients that keep pointers, is the step of its specification |
| ListRuns.RunList | 11-2 lst_timer.h:57-209 | what a list object runs in any run is the trace of its specification |
| ListRuns.ListClients.Extend | 11-3 nonactive_connect.cpp:270-277 | a client puts a deadline off: the list becomes the adjusted one, links and pointers stay right |
| ExtendRuns.ListCallRefines | 11-2 lst_timer.h:57-209 | each list call, extensions included, is the agenda step with the same callbacks, each once |
| ExtendRuns.ExtendedFiresOnce | 11-2 lst_timer.h:86-120 | in a whole run a timer extended while pending fires once, at its last deadline |
| ExtendRuns.SameTimeoutPutsOff | 11-3 nonactive_connect.cpp:182-273 | a client that gives every timer the same time only puts deadlines off |
| ExtendRuns.RunCalls | 11-2 lst_timer.h:57-209 | a list object on which deadlines are put off runs at every heartbeat the callbacks due by the last deadlines, each once |
| ExtendRuns.RunExtended | 11-2 lst_timer.h:86-209 | in such a run it runs a timer extended by k seconds once, on the (k+1)-th heartbeat after the extension |
| WheelRuns.WheelClients.Do | 11-5 time_wheel_timer.h:64-206 | a call on the real wheel is the step of its specification; tells whether line 200 would have a deleted timer read |
| WheelRuns.TurnKeepsNode | 11-5 time_wheel_timer.h:150-206 | a heartbeat keeps exactly the nodes whose timers did not fire |
| WheelRuns.RunWheel | 11-5 time_wheel_timer.h:64-206 | what a wheel object runs in any run is the trace of its specification; some heartbeat would read a deleted timer if and only if at one of them a due timer was added between one of its slot and a later one not due yet |
| HeapRuns.HeapClients.Do | 11-6 timeHeap.h:108-204 | a call on the real heap is the step of its specification; the array is doubled, and a deleted timer would be read, if and only if an addition finds as many deadlines stored as places |
| HeapRuns.TickPoints | 11-6 timeHeap.h:181-204 | after a heartbeat the clients point to exactly the timers still stored and not cancelled |
| HeapRuns.RunHeap | 11-6 timeHeap.h:108-204 | what a heap object runs in any run, from any positive capacity, is a trace of its specification; some call would read a deleted timer if and only if not every addition finds room in the starting capacity |
| HeapRuns.EachTakesAPlace | 11-6 timeHeap.h:145-154 | every stored timer, cancelled or not, takes one place |
| HeapRuns.PlacesAfter | 11-6 timeHeap.h:108-204 | a call changes the places taken as the plain agenda without cancellations changes |
| HeapRooms.GrowsExactly | 11-6 timeHeap.h:114-117 | a run leaves the capacity as it was if and only if every addition finds fewer timers, cancelled ones not yet due included, than the capacity |
| HeapRooms.FewAdditionsFit | 11-6 timeHeap.h:114-117 | a run with no more additions than places never doubles the array |
| HeapRooms.OneAdditionTooMany | 11-6 timeHeap.h:114-117 | for every capacity, a run that doubles the array |
| TimerRuns.RunAll | 11-5 time_wheel_timer.h:64-206 | a list, a wheel and a heap object given the same run execute the same callbacks at every heartbeat, each once, and those of the agenda; the code as written never reads a deleted timer in the run if and only if the conditions on wheel and heap hold of its calls |
| TimerRuns.RunOneTimer | 11-5 time_wheel_timer.h:75-82 | in such a run each object runs an uncancelled timer of k seconds once, on the (k+1)-th heartbeat after its addition |
| LineScanner.ScanFindsBreak | 8-3 parse_line.cpp:44-89 | a scan is decided by the first CR or LF alone; the LF branch that ends a line is never taken |
| LineScanner.ScanLeavesOff | 8-3 parse_line.cpp:56-59 | where a scan stops, no CR has been passed, so that it may be resumed there |
| LineScanner.ScanIgnoresPast | 8-3 parse_line.cpp:63-64 | NULs written behind the scan make no difference to it |
| LineScanner.ScanResumes | 8-3 parse_line.cpp:36-90 | more bytes change no verdict, and an open line is resumed where the scan stopped |
| LineScanner.ParseLine | 8-3 parse_line.cpp:36-90 | computes the scan in place; two NULs replace CR LF and nothing else changes; the loop runs at most once more than it advances |
| LineBuffers.TakeLine | 8-3 parse_line.cpp:185-188 | a complete line of the stream is left in the buffer as a C string, and the rest as received |
| RequestLines.ParseTargetMeaning | 8-3 parse_line.cpp:93-153 | a line is accepted with a path if and only if it is GET, separator, target with that path, tabs, HTTP/1.1 |
| RequestLines.LineWithoutTabIsRejected | 15-5 http_conn.cpp:205-211 | without a tab no request line is accepted, whatever ends the method |
| RequestLines.ParseRequestLine | 8-3 parse_line.cpp:93-153 | computes the path in place and touches nothing but the line |
| RequestLines.CutAt | 8-3 parse_line.cpp:119-126 | two strings where the first delimiter was |
| RequestLines.CutTarget | 8-3 parse_line.cpp:117-145 | target and version of the line in place |
| RequestLines.FindPath | 8-3 parse_line.cpp:136-145 | where the path of the target starts, if it has one |
| RequestParsers.ParseResumes | 8-3 parse_line.cpp:179-238 | a verdict stands whatever follows; without one the parser goes on as if it had seen all at once |
| RequestParsers.ChunkIndependence | 8-3 parse_line.cpp:289-323 | for every stream and every cut of it the first verdict is that of the whole stream |
| RequestParsers.RequestReader.Receive | 8-3 parse_line.cpp:291-304 | takes in what fits |
| RequestParsers.RequestReader.NextLine | 8-3 parse_line.cpp:185-188 | the next line of the stream, and the untouched input behind it |
| RequestParsers.RequestReader.TakeRequestLine | 8-3 parse_line.cpp:193-204 | the header state is entered exactly for a good request line |
| RequestParsers.RequestReader.ParseHeaders | 8-3 parse_line.cpp:156-176 | a blank line, and no other, ends the request |
| RequestParsers.RequestReader.ParseNext | 8-3 parse_line.cpp:185-227 | one line further in the parse of the stream, or its verdict |
| RequestParsers.RequestReader.ParseContent | 8-3 parse_line.cpp:179-238 | the verdict on the stream received so far, though the buffer has been overwritten on the way |
| RequestParsers.RequestReader.ServeOnce | 8-3 parse_line.cpp:291-322 | after every round the verdict is that of one parse of all bytes so far |
| RequestParsers.RequestReader.Serve | 8-3 parse_line.cpp:289-323 | the reply to any cut of a stream is the reply to what of it fits the buffer; scan loop rounds are at most the bytes received plus the calls |
| RequestGrammar.AcceptsExactlyRequests | 8-3 parse_line.cpp:179-238 | the parser gets a request if and only if the stream begins with a line of the shape of a GET request line, header lines and a blank line |
| LineStreams.EveryStreamSplits | 8-3 parse_line.cpp:36-90 | every stream is complete lines and a rest in which no line ends, or whose first CR or LF belongs to no pair |
| RequestGrammar.StreamVerdict | 8-3 parse_line.cpp:179-238 | the verdict on every stream, told from its lines and its rest |
| RequestGrammar.AnswersExactly | 8-3 parse_line.cpp:179-238 | BAD_REQUEST if and only if the first complete line is no GET request line, or a CR or LF stands outside a pair before a blank line has come; GET_REQUEST if and only if the stream begins with a request; never both |
| RequestGrammar.ServeStream | 8-3 parse_line.cpp:289-323 | which of the two replies is sent, or none, to the bytes that fit, however they are cut |
| RequestGrammar.PrintedRequestParses | 8-3 parse_line.cpp:93-238 | a printed request is accepted, whatever follows it, and its line parses back to the path |
| RequestGrammar.PrintedLineParses | 8-3 parse_line.cpp:93-153 | a printed request line parses back to its path |
| CStrings.EqualUpToCase | 15-5 http_conn.cpp:196-196 | strcasecmp says equal if and only if the strings are the same letter by letter, large or small |
| Decimals.AtolMeaning | 15-5 http_conn.cpp:271-271 | behind spaces and perhaps a sign, the number is that of the digits up to the first other character, as near as a long can be |
| Decimals.IntReadsBack | 15-5 http_conn.cpp:271-271 | every int is read back from its decimal print, also behind a blank |
| HttpConns.StateMovesForward | 15-5 http_conn.cpp:302-364 | the check state never goes back |
| HttpConns.RunResumes | 15-5 http_conn.cpp:302-364 | a verdict stands; without one and with no body awaited the next call goes on as if it had seen all at once, also after a bad line |
| HttpConns.ChunkIndependence | 15-5 http_conn.cpp:302-364 | a stream that makes the parser await no body gets the same verdict however it is cut |
| HttpConns.BodilessChunkIndependence | 15-5 http_conn.cpp:245-254 | so does every stream in whose lines a Content-Length is absent or zero |
| RequestBodies.BodyTestIsExact | 15-5 http_conn.cpp:291-291 | the test for the end of the body means what it says if and only if announced length and index together fit an int |
| RequestBodies.ScanTellsStop | 15-5 http_conn.cpp:113-152 | over a body the line machine stops at the first bare LF or CR, or at the end, having passed pairs of CR and LF |
| RequestBodies.StopResumes | 15-5 http_conn.cpp:113-152 | a body scanned in pieces is scanned to the same place |
| RequestBodies.CallOnBody | 15-5 http_conn.cpp:302-364 | a call that awaits a body completes the request if and only if the body is there from the index on, or a sum on the way leaves int; else it returns NO_REQUEST and moves the index to where the scan stops |
| RequestBodies.FieldIsRead | 15-5 http_conn.cpp:256-283 | a header field changes exactly what it names |
| RequestBodies.FieldAnnounces | 15-5 http_conn.cpp:267-272 | a Content-Length field, in any case, announces the number behind spaces and perhaps a sign, cut to an int |
| RequestBodies.HeadInStep | 15-5 http_conn.cpp:302-364 | a call that has seen the whole head remembers its path, last host, last length and the wish to stay, and completes the request, or awaits the body if one is announced; a call that has seen less returns NO_REQUEST |
| RequestBodies.BodyVerdict | 15-5 http_conn.cpp:302-364 | for every request head, every announced length and every cut of the stream into any number of pieces: the request is completed if and only if some call finds as many bytes as the body has behind the head or behind the place scanned to, or a sum leaves int |
| RequestBodies.WholeBodyCompletes | 15-5 http_conn.cpp:289-299 | in one piece with its head: if and only if all of the body is there, or length and last line end leave int |
| RequestBodies.SplitBodyCompletes | 15-5 http_conn.cpp:308-355 | in two pieces: if and only if there are as many bytes behind the body as the first call has scanned of it |
| RequestBodies.ExactSplitBodyCompletes | 15-5 http_conn.cpp:308-355 | with nothing behind the body: if and only if its first part is empty or begins with a bare LF or CR |
| RequestBodies.SplitBodyIsLost | 15-5 http_conn.cpp:308-355 | two bytes of body that complete a request together and lose it one by one |
| RequestBodies.LongestBodyIsTakenAtOnce | 15-5 http_conn.cpp:291-295 | the longest length that can be announced completes the request with no body at all, and its sum with the index leaves int |
| RequestBodies.PrintedHeadIsRead | 15-5 http_conn.cpp:183-272 | a printed head is read as the path and length it was printed from |
| RequestHeads.BodilessVerdict | 15-5 http_conn.cpp:302-364 | a request without a body, in any number of calls: GET_REQUEST with its path as soon as its whole head is there, and NO_REQUEST before |
| RequestHeads.CompletedAsAsked | 15-5 http_conn.cpp:302-364 | a request with a body, whenever it is completed, is so with its path, host and wish to stay |
| RequestHeads.StreamVerdict | 15-5 http_conn.cpp:302-364 | what one call makes of any stream, told from its complete lines |
| RequestHeads.AnswersExactly | 15-5 http_conn.cpp:302-364 | for every stream and every cut: BAD_REQUEST if and only if the first line is complete and no request line; unless a body is announced, GET_REQUEST if and only if a blank line has come behind it, and else NO_REQUEST |
| HttpConns.HttpConn.constructor | 15-5 http_conn.cpp:92-110 | a fresh connection |
| HttpConns.HttpConn.Store | 15-5 http_conn.cpp:163-176 | bytes are added to what was received; path and current line stay |
| HttpConns.HttpConn.Read | 15-5 http_conn.cpp:155-180 | succeeds if and only if recv runs dry with the buffer not full, and then has taken in every byte |
| HttpConns.HttpConn.NextLine | 15-5 http_conn.cpp:113-152 | the next line of the stream as a C string; the path stays where it stands |
| HttpConns.HttpConn.TakeRequestLine | 15-5 http_conn.cpp:183-235 | state and url as the line says, or nothing for a bad line |
| HttpConns.HttpConn.ParseHeaders | 15-5 http_conn.cpp:238-286 | one header line read into length, connection, host and state |
| HttpConns.HttpConn.ParseField | 15-5 http_conn.cpp:256-283 | the three fields the server keeps |
| HttpConns.HttpConn.FieldText | 15-5 http_conn.cpp:269-271 | the value behind the tabs |
| HttpConns.HttpConn.ParseContent | 15-5 http_conn.cpp:289-299 | complete if and only if the int sum of length and index is reached; the NUL is the only change, behind the text of the line before, and is written if and only if it lies in the buffer, which for lengths of at least zero means that the sum fits an int; the path survives it |
| HttpConns.HttpConn.ProcessLine | 15-5 http_conn.cpp:315-360 | what the state machine makes of one line |
| HttpConns.HttpConn.AwaitBody | 15-5 http_conn.cpp:343-355 | a round without a scan |
| HttpConns.HttpConn.DealWithLine | 15-5 http_conn.cpp:308-361 | a round with a scan |
| HttpConns.HttpConn.ProcessNext | 15-5 http_conn.cpp:308-361 | a round of either kind is a step of the run on the stream |
| HttpConns.HttpConn.ProcessRead | 15-5 http_conn.cpp:302-364 | the verdict and state of the run on the stream; for a complete request the path still stands in the buffer |
| HttpConns.HttpConn.Serve | 15-6 WebServer.cpp:152-163 | over any number of input events the answer is that to the bursts read one by one; the connection is closed exactly when the buffer fills before there is an answer |
| Responses.ErrorResponseIsWhole | 15-5 http_conn.cpp:544-579 | each error response fits and is status line, length of the body, connection, blank line and body |
| Responses.ErrorIsRead | 15-5 http_conn.cpp:544-579 | read back, each error response has its status line word for word, says whether the connection stays, and announces as many bytes as follow its first blank line |
| Responses.FileHeadIsRead | 15-5 http_conn.cpp:580-604 | so does the head of a file, with the size as an int |
| Responses.PrintedLengthIsParsed | 15-5 http_conn.cpp:519-522 | the header parser reads back exactly the int that was printed as Content-Length |
| Responses.ResponseWriter.AddResponse | 15-5 http_conn.cpp:488-504 | appends the text if it fits and else leaves the contents; the index stays below the limit |
| Responses.ResponseWriter.AddStatusLine | 15-5 http_conn.cpp:506-509 | appends the status line or nothing |
| Responses.ResponseWriter.AddHeaders | 15-5 http_conn.cpp:511-532 | appends of length, connection and blank line those that fit |
| Responses.ResponseWriter.AddPage | 15-5 http_conn.cpp:544-552 | status line, headers and body as far as they fit; true if the body does |
| Responses.ResponseWriter.WriteError | 15-5 http_conn.cpp:544-579 | an error page, in one piece for writev if its body fits |
| Responses.ResponseWriter.WriteFile | 15-5 http_conn.cpp:580-604 | headers with the size of the file and two pieces for writev; a file of size zero gets an empty page and is refused |
| Responses.ResponseWriter.ProcessWrite | 15-5 http_conn.cpp:540-618 | what each code prints, which pieces are handed to writev, and when the connection is to be closed; from an empty buffer the response is whole and is read with the number of bytes that follow, which for a file is the length of the second piece if and only if that fits an int |
| Exchanges.Respond | 15-5 http_conn.cpp:621-639 | reading, looking up the file and printing together: the status of the answer to the bursts, and nothing without an answer |
| Exchanges.Ask | 15-5 http_conn.cpp:369-414 | a request without a body gets, once its head is there and not before, 404, 403, 400 or 200 as the file calls for, with the bytes announced and the wish to stay |
| Exchanges.AskBadly | 15-5 http_conn.cpp:553-561 | a complete first line that is no request line gets 400 |
| ThreadPools.StepKeepsInv | 15-3 threadpool.h:84-134 | every statement of every thread keeps the invariant |
| ThreadPools.RunKeepsInv | 15-3 threadpool.h:84-134 | so does every interleaving |
| ThreadPools.EveryRunIsSafe | 15-3 threadpool.h:84-134 | requests are taken out once each in the order they were put in; queue length is semaphore plus appenders before post plus workers before pop; the queue never holds more than the limit and one; one holder of the mutex; the empty branch is never taken |
| ThreadPools.EveryRequestIsRunOnce | 15-3 threadpool.h:84-134 | in every schedule the requests in workers' hands and those they have run are the accepted ones, once each, taken in the order of acceptance; the accepted ones are those offered, without those refused and those being added |
| ThreadPools.FullPoolRefuses | 15-3 threadpool.h:89-95 | for every limit, a lone thread has one request more than that accepted, and the next refused |
| ThreadPools.TesterHasWork | 15-3 threadpool.h:119-123 | a worker that tests the queue finds a request |
| ThreadPools.NoLostWakeUp | 15-3 threadpool.h:97-116 | with requests queued and no semaphore count, some thread is on its way to post or to pop |
| ThreadPools.QueueIsServed | 15-3 threadpool.h:112-134 | with requests queued and a worker not busy with one, some thread on its way to or from the queue can move |
| ThreadPools.MovesAreBounded | 15-3 threadpool.h:84-134 | in every schedule the moves of threads that are not idle are bounded by the statements ahead of them and by the requests offered, put in and taken out |
| ThreadPools.PopWithin | 15-3 threadpool.h:84-134 | without a pop there are at most as many of them as statements ahead, and eleven for each request offered |
| ThreadPools.WorkIsBounded | 15-3 threadpool.h:84-134 | altogether there are at most as many as that, and six for each request queued |
| ThreadPools.RestIsDone | 15-3 threadpool.h:112-134 | with a worker at all, when only idle threads could move, the queue is empty and every worker waits |
| ThreadPools.EverythingIsRun | 15-3 threadpool.h:84-134 | a schedule that ends so has run every accepted request as often as it was accepted |
| ThreadPools.RestIsReached | 15-3 threadpool.h:84-134 | from every state that can come about the threads can go on until then |
| ThreadPools.AheadIsBounded | 15-3 threadpool.h:84-134 | the statements ahead are at most eleven for each thread |
| ThreadPools.AsWrittenNothingIsServed | 14-2 locker.h:68-71 | with an unlock that locks, no run takes out a request |
| ThreadPools.ServesExactlyIfUnlockReleases | 14-2 locker.h:67-71 | a request can be served if and only if unlock releases |
| OneShot.HandledIsHeldOnce | 15-6 WebServer.cpp:121-176 | the main loop has the connection it handles to itself |
| OneShot.OwnedIsExclusive | 15-3 threadpool.h:125-132 | no two workers have one connection, and neither queue nor epoll nor main loop has it meanwhile |
| OneShot.EachInOnePlace | 15-6 WebServer.cpp:121-176 | a connection is in exactly one place; a number that is not open is armed nowhere and in nobody's hands |
| OneShot.EachGoesItsWay | 15-6 WebServer.cpp:121-176 | where each step takes each connection, told for that connection alone |
| OneShot.ClosesExactly | 15-6 WebServer.cpp:147-176 | an open number is closed by a step if and only if its object holds it and the step handles it as a hang-up, a failed read or a failed write, or is the closing by its worker |
| OneShot.OpenExactly | 15-6 WebServer.cpp:121-176 | at the end of a run exactly those numbers are open that were accepted and not closed so since |
| OneShot.ClosedIsUnarmed | 15-6 WebServer.cpp:121-176 | in every run from the start the same, and the others are armed nowhere and in nobody's hands |
| OneShot.OfferedKeepsHolder | 15-6 WebServer.cpp:155-158 | a connection whose input was read keeps a holder if and only if the queue was within its limit |
| OneShot.EveryRunIsOwned | 15-6 WebServer.cpp:121-176 | with closing workers and reused numbers, every open connection has exactly one holder among epoll, main loop, queue and workers in every run with no more connections at once than the limit and one, as long as no -1 is written over the number of an open connection and no late modfd meets a reused number in somebody's hands |
| OneShot.LateNumbersAreOwned | 15-5 http_conn.cpp:621-639 | the same when accept gives out no number whose closing worker is not done |
| OneShot.NamesAreKeptExactly | 15-5 http_conn.cpp:64-73 | at the end of a run every open connection has its number in its object if and only if no step wrote -1 over the number of an open one |
| OneShot.LosesExactly | 15-6 WebServer.cpp:121-176 | a step loses a connection if and only if it handles it while its number is gone from its object, or read its input with the queue beyond the limit |
| OneShot.UnnamedIsForgotten | 15-5 http_conn.cpp:64-73 | a connection lost without its number stays open and without a holder whatever follows |
| OneShot.FullQueueRefuses | 15-3 threadpool.h:89-93 | for every limit, a run without closing workers and with one connection more in which one is left without a holder |
| OneShot.LostUnlessRearmed | 15-5 http_conn.cpp:633-638 | a lost connection stays lost if and only if the step is not a late modfd that finds its number |
| OneShot.RefusedIsForgotten | 15-6 WebServer.cpp:155-158 | so without such a modfd it stays open and without a holder for good |
| OneShot.RunKeepsOwnership | 15-5 http_conn.cpp:621-639 | over any number of connections, each open one has one holder, or none once it is lost, as long as no late modfd meets a reused number in somebody's hands |
| OneShot.LateModfdKeepsOwnership | 15-5 http_conn.cpp:633-638 | modfd after close_conn keeps ownership if and only if the number in the object is not that of an open connection, or that one is armed anyway or lost |
| OneShot.ReusedNumberHasTwoHolders | 15-5 http_conn.cpp:633-638 | a run from the start in which a connection is in the queue and in epoll at once |
| OneShot.ForgottenNumberIsLost | 15-5 http_conn.cpp:64-73 | the condition of NamesAreKeptExactly can fail: a run from the start in which a number is reused between close and the writing of -1, and the new connection has no holder |
| ProcessPools.Pick | 15-1 processpool.h:396-410 | the live child nearest after the counter; none if and only if all are dead |
| ProcessPools.PickHasNextRank | 15-1 processpool.h:396-412 | dispatches go through the live children in order |
| ProcessPools.PickedOnceInRound | 15-1 processpool.h:393-416 | within a round a live child is picked once, when its turn comes, and not before |
| ProcessPools.EachOncePerRound | 15-1 processpool.h:393-416 | as many dispatches as there are live children pick each of them exactly once |
| ProcessPools.SharesDifferByOne | 15-1 processpool.h:393-416 | over any number of dispatches the shares of two live children differ by at most one |
| ProcessPools.ProcessPool.Dispatch | 15-1 processpool.h:395-416 | picks that child and moves the counter behind it, or stops when there is none |
| ProcessPools.ProcessPool.Search | 15-1 processpool.h:396-404 | the search with wrap-around ends at that child |
| ProcessPools.ProcessPool.OnChildExit | 15-1 processpool.h:436-471 | exactly the children that exited are marked; stops if and only if none is left |
| ChildTables.IndexedPidsAreDistinct | 13-4 sharedMemory_chatroomServer.cpp:376-379 | the two tables agree only when live process ids are distinct |
| ChildTables.ReapRemovesOne | 13-4 sharedMemory_chatroomServer.cpp:419-419 | copying the last slot over the gap removes exactly the reaped child; all others keep their connections |
| ChildTables.MovedIsIndexed | 13-4 sharedMemory_chatroomServer.cpp:409-421 | after a reap `sub_process` again takes every live id to its slot |
| ChildTables.EntryIsClearedUnlessLast | 13-4 sharedMemory_chatroomServer.cpp:410-421 | the reaped child's entry is -1 if and only if it was not in the last slot |
| ChildTables.ChildTable.constructor | 13-4 sharedMemory_chatroomServer.cpp:257-265 | empty tables |
| ChildTables.ChildTable.Accept | 13-4 sharedMemory_chatroomServer.cpp:321-380 | the map of live children changes by the forked child; not at all when accept or fork fails or the table is full |
| ChildTables.ChildTable.Reap | 13-4 sharedMemory_chatroomServer.cpp:406-422 | the map of live children loses exactly the reaped one; the guard against bad slots is never taken |
| ChildTables.ChildTable.Serve | 13-4 sharedMemory_chatroomServer.cpp:311-458 | after any sequence of connections and exits the tables stand for the plain map of live children |
| ChildTables.AliveExactly | 13-4 sharedMemory_chatroomServer.cpp:321-422 | those children are alive, with their connections, that were given a client while there was room and have not exited since |
| CgiScans.ScanResumes | 15-2 pool_CGIServer.cpp:45-76 | no CR LF ends before the place where the next scan starts |
| CgiScans.SettledEarly | 15-2 pool_CGIServer.cpp:43-81 | an outcome reached on a part of the stream is that of the whole stream |
| CgiScans.LineIsNamed | 15-2 pool_CGIServer.cpp:73-83 | a first line that ends within the buffer is the name, up to a NUL |
| CgiScans.NamedHasLine | 15-2 pool_CGIServer.cpp:73-83 | nothing else is ever a name |
| CgiScans.OutcomeExactly | 15-2 pool_CGIServer.cpp:43-105 | run if and only if a line that fits has come; without one dropped if and only if the buffer has filled or the connection ended or failed; else waiting |
| CgiScans.CgiConn.Store | 15-2 pool_CGIServer.cpp:47-68 | bytes are added at the read index |
| CgiScans.CgiConn.Scan | 15-2 pool_CGIServer.cpp:73-76 | the first CR LF that ends at the given index or later |
| CgiScans.CgiConn.TakeName | 15-2 pool_CGIServer.cpp:81-83 | the text before the CR as a C string |
| CgiScans.CgiConn.Take | 15-2 pool_CGIServer.cpp:45-83 | after each recv: the name before the first CR LF of all bytes so far, if there is one |
| CgiScans.CgiConn.Process | 15-2 pool_CGIServer.cpp:37-105 | the outcome is that of the whole stream, in whatever pieces recv hands it over |
| CgiScans.CgiConn.Serve | 15-2 pool_CGIServer.cpp:37-105 | the same over all calls of process in the life of a connection |
| PollSweeps.EachHandledOnce | 9-7 chatroom_server.cpp:99-225 | the sweep handles every slot's report exactly once although slots change places |
| PollSweeps.LeaversLeave | 9-7 chatroom_server.cpp:154-192 | exactly the slots stay on which nothing was reported that closes them |
| PollSweeps.MovedFds | 9-7 chatroom_server.cpp:160-166 | removing a slot keeps descriptors distinct and drops exactly the closed one |
| PollSweeps.PollTable.constructor | 9-7 chatroom_server.cpp:77-87 | only the listening socket |
| PollSweeps.PollTable.AcceptClient | 9-7 chatroom_server.cpp:101-138 | one slot more, with nothing reported on it, unless accept fails or the array is full |
| PollSweeps.PollTable.Remove | 9-7 chatroom_server.cpp:159-166 | the connection is closed and the last slot copied over it |
| PollSweeps.PollTable.Handle | 9-7 chatroom_server.cpp:101-224 | what a report does to the array, and which index comes next |
| PollSweeps.PollTable.Sweep | 9-7 chatroom_server.cpp:99-225 | the sweep ends; each descriptor reported by poll, and the accepted one, is handled exactly once; exactly those stay that had nothing to close them; the used slots are distinct, are the open descriptors, and stay within the limit |

## Left out

- TimeWheels.TimeWheel.Tick: goes on as if the successor of a fired timer had not been deleted (11-5 time_wheel_timer.h:200), which would leave a deleted node in the slot; `stale` and WheelOrders.SafeRunsExactly tell in which runs that matters.
- TimeWheels.TimeWheel.WalkSlot: the same.
- TimeWheels.TimeWheel.Visit: the same.
- WheelRuns.WheelClients.Do: the same.
- WheelRuns.RunWheel: the same.
- TimeHeaps.TimeHeap.Resize: goes on as if the timers just copied had not been deleted (11-6 timeHeap.h:259), after which line 131 reads one in the same call; `stale` and HeapRuns.RunHeap tell in which runs that matters.
- HeapRuns.HeapClients.Do: the same.
- HeapRuns.RunHeap: the same.
- TimerRuns.RunOneTimer: the same as to both deletes; TimerRuns.RunAll has the condition.
- TimeHeaps.TimeHeap.AddTimer: requires a capacity of at least 1, because doubling zero makes no room (11-6 timeHeap.h:254).
- TimeHeaps.TimeHeap.Insert: the same.
- TimeHeaps.TimeHeap.PopDue: requires a capacity of at least 1, as Tick.
- TimeHeaps.TimeHeap.Tick: requires a capacity of at least 1, because it reads `array[0]` before it asks whether the heap is empty (11-6 timeHeap.h:183).
- TimeHeaps.TimeHeap.DelTimer: asks that stored timers have different numbers, which stand for their addresses.
- TimeHeaps.TimeHeap.Build: gives no heap where the constructor throws (11-6 timeHeap.h:63).
- TimerRuns.RunAll: has a clock that advances by one per heartbeat; deadlines changed within a run, which only the list offers, are in ExtendRuns.
- ExtendRuns.RunCalls: a deadline moved forward, for which adjust_timer is not meant, is in no run; SortedTimerList.AdjustIsReinsertion tells what one such call does.
- ThreadPools.EveryRequestIsRunOnce: a null request, which a worker takes out and does not run (15-3 threadpool.h:130), is never offered.
- RequestParsers.RequestReader.Serve: the end of the chunks stands for a closed or failed connection alike, neither of which is replied to.
- HttpConns.HttpConn.ParseContent: takes a sum that leaves int to wrap around; a write outside the buffer, of which the contract says when it would happen, is not made, and the path is promised to survive only for lengths of at least zero.
- HttpConns.HttpConn.ProcessRead: takes what stat says about the file as an argument; mapping the file is not part of the model.
- Exchanges.Respond: the write that follows, and a further request on the same connection, are not part of it.
- Responses.ResponseWriter.ProcessWrite: a file of size zero is printed and then refused, as the missing break has it (15-5 http_conn.cpp:597-609).
- PollSweeps.PollTable.Sweep: assumes what the events asked for imply, that poll reports no hang-up on the listening socket, and that accept gives a descriptor that is not open.
- ChildTables.ChildTable.Accept: asks for a process id within the table, which the source indexes without a test (13-4 sharedMemory_chatroomServer.cpp:378).
- ChildTables.ChildTable.Serve: assumes that fork gives no id of a live child nor one beyond the table, and that only live children exit; termination signals are left out.
- `http_conn::write` (15-5 http_conn.cpp:429-485): it compares a falling byte count with a rising one and never advances its pieces, so that no completion property holds.
- The field that epoll_ctl is given on a reap (13-4 sharedMemory_chatroomServer.cpp:415), shared memory, and the index a child keeps from its fork (line 363).
- The copying of client data, write buffers and event masks of 9-7 chatroom_server.cpp (lines 159, 186, 204-207, 222).
- Construction and destruction of the thread pool, the class `cond`, destructors of the timer containers, exceptions for lack of memory.
- Socket, epoll, signal, fork and mmap set-up code, and the programs of chapters 5, 6, 7, 10, 12, 14-1, 14-3 and 16, which keep no state worth an invariant.
