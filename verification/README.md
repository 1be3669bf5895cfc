# ReStreamAir: a verified model of its core

ReStreamAir turns live and on-demand sources into streams. This project models, in
Dafny, the parts of it whose correctness is not visible from any one function, and
proves properties of them over every input, every run or every interleaving:

- **JSON tree library.** The printer and the recursive-descent parser as they write
  and read their buffers (`JsonPrinter`, `JsonParser`), proved against a grammar-like
  specification (`JsonText`, `JsonSyntax`) for which parsing is proved to undo
  printing (`JsonRoundTrip`, `JsonDocument`); the in-place sibling list (`JsonList`),
  the trees of items the parser builds with it (`JsonTree`, `JsonItems`) and deep
  copies of them (`JsonDuplicate`).
- **Proxy pools.** The choice of a proxy (`ProxyChoice`), the fairness of the rotation
  (`ProxyRotation`), health and cooldown over whole runs (`ProxyHealth`), the counters
  shared by all threads under every interleaving (`ProxySteps`, `ProxyThreads`, with
  the lock sections in place in `ProxyRegistry`), and the retry loop of one fetch (`Failover`).
- **Provider budget.** Reference-counted limiter nodes under every interleaving
  (`Budget`) and the linked list itself (`BudgetList`).
- **Traffic windows.** Ring and per-second buckets against the full history (`Traffic`).
- **DASH.** Timeline and wall-clock expansion (`DashPlan`), segment templates
  (`DashTemplate`) filled in by passes against all at once (`DashSimultaneous`) and by the
  loops that write into sized buffers (`DashBuffers`), the single-flight manifest cache
  (`MpdCache`, `MpdEviction`, its table in place in `MpdTable`).
- **ffmpeg supervisor.** Restart policy over whole runs (`RestartPolicy`), ownership of
  processes and descriptors (`Supervisor`), stderr lines (`StderrLines`).
- **Web root refresh.** Safe paths (`WebrootPaths`), the stage/backup/rename protocol
  with a failure or crash at any step (`WebrootRefresh`), and the refresh as it is
  carried out on a disk that may refuse anything (`WebrootFiles`).

`Wrappers`, `Decimals` and `Powers` hold what several modules share.

## How the model is built

Code that changes things in place is a class or a method with loops, proved against a
specification function; what the source promises is then proved of that function, or
of a step system whose steps are the lock sections. In `ProxySteps`, `Budget` and
`MpdCache` a step is what one thread does while it holds the lock, and a run is any
sequence of enabled steps of any threads. In `ProxyRegistry`, `BudgetList` and `MpdTable`
the lock sections work in place, and each is proved to be the step it stands for. In
`WebrootRefresh` a step is one file-system operation, and `WebrootFiles.Disk.Refresh` is
proved to go through such steps only.

Fetches, clocks, processes, the disk, other threads and cancellation are parameters or
unconstrained choices. A `char` of a JSON text stands for one byte. Integers are
unbounded and `double` times and durations are `real`, except where the source's own
limits matter (the `int` beside a JSON number, the counters' caps, buffer sizes).

Where the code is narrower than its comments say, the code is followed:

- A failure that arrives while a proxy is benched can move the end of its cooldown,
  although the comment says it extends nothing: it does so exactly when it comes later
  than the last verdict or fewer than six failures came before
  (`ProxyHealth.LateFailureExtends`).
- A new ffmpeg entry whose first start fails waits for the restart delay as it is;
  that is the cooldown of one failure exactly when the delay is at least a second
  (`RestartPolicy.FailedStartDelay`).
- Replacing template identifiers in six passes is not in general one simultaneous
  replacement. `DashSimultaneous.FillIsSimultaneous` gives the exact condition for any text
  and any values without dollars; `WordBetweenIdentifiers` and `SharedDollar` there show two
  templates where the two differ, `DollarInValue` a value with dollars.
- A stamp in the web root does not by itself mean that every listed file is there
  (`WebrootRefresh.StampWithoutTheFile`); the exact condition on the listing is
  `WebrootRefresh.StampMeansAllPresent`.
- A finished download survives every crash point of a refresh exactly when the live
  directory is one at the start (`WebrootRefresh.CopyIsKeptExactlyWhenLive`); a backup
  alone may be lost, so two refreshes can lose both
  (`WebrootRefresh.SecondRefreshMayLoseBoth`).
- The manifest cache does not look at an entry's URL after a wait. Its answers are for
  the caller's own URL in all runs over a set of URLs exactly when there are no more of
  them than the eight entries (`MpdEviction.SharingNeedsRoom`).
- Appending an item whose own `next` is not null, or one that is in the list already,
  yields a broken list (`JsonList.AddItemToArray`); inserting and replacing do not look
  whether the new item is in the list either. Detaching or replacing through the wrong
  parent is accepted and breaks a list unless the item has neighbours on both sides
  (`JsonList.DetachItemViaPointer`, `JsonList.ReplaceItemViaPointer`).
- Traffic totals are those of the full history exactly when no request of the window
  has lost its bucket to another second (`Traffic.ShownIsTotal`).

## Model

| member | source | states |
|---|---|---|
| JsonText.ValueInt | core/deps/cJSON.c:381-399 | the int kept beside a number is the number cut towards zero, and the nearest end of the int range outside it |
| JsonSyntax.Utf8IsReadable | core/deps/cJSON.c:752-808 | decoding the bytes written for a code point gives the code point back |
| JsonSyntax.Span | core/deps/cJSON.c:1090-1113 | a scan stops at the first character outside its class |
| JsonRoundTrip.SizingFindsTheQuote | core/deps/cJSON.c:837-862 | the sizing pass over an escaped string ends at its closing quote, whatever follows |
| JsonRoundTrip.DecodeUndoesEscape | core/deps/cJSON.c:866-932 | decoding an escaped string gives the string back |
| JsonRoundTrip.StringRoundTrip | core/deps/cJSON.c:824-951 | parsing a printed string gives the string and stops behind it |
| JsonRoundTrip.NumberRoundTrip | core/deps/cJSON.c:307-399 | parsing a printed int gives the number and stops behind it |
| JsonRoundTrip.ValueRoundTrip | core/deps/cJSON.c:1368-1896 | any tree of printable values, in any position and both styles, is parsed back as it was |
| JsonRoundTrip.DocumentRoundTrip | core/deps/cJSON.c:1147-1225 | the same for a whole document, with or without the demand that nothing follows |
| JsonRoundTrip.StylesAgree | core/deps/cJSON.c:1307-1315 | formatted and unformatted text parse to the same tree |
| JsonPrinter.PrintBuffer.Ensure | core/deps/cJSON.c:490-573 | room is found exactly when the buffer may grow or is large enough; what was written stays |
| JsonPrinter.PrintBuffer.EscapeCharacters | core/deps/cJSON.c:977-1003 | the extra characters counted are those the escapes add |
| JsonPrinter.PrintBuffer.PrintString | core/deps/cJSON.c:954-1073 | appends the quoted text, or fails exactly when it does not fit |
| JsonPrinter.PrintBuffer.PrintNumber | core/deps/cJSON.c:596-663 | appends the text of a number item, or fails exactly when it is too long or does not fit |
| JsonPrinter.PrintBuffer.PrintValue | core/deps/cJSON.c:1423-1494 | for an item at the root of a tree: appends the text of the tree's value, or fails exactly when the tree is too deep, a number too long, or there is no room |
| JsonPrinter.PrintBuffer.PrintArray | core/deps/cJSON.c:1595-1659 | the same for an array item, along its children's next links |
| JsonPrinter.PrintBuffer.PrintObject | core/deps/cJSON.c:1780-1896 | the same for an object item, with its layout and its children's keys |
| JsonPrinter.Print | core/deps/cJSON.c:1239-1305 | printing a tree of items succeeds exactly within the nesting and number limits, and yields the text of its value |
| JsonPrinter.PrintPreallocated | core/deps/cJSON.c:1348-1365 | into a caller's buffer it succeeds exactly when the text and its slack fit |
| JsonPrinter.TextHasNoNul | core/deps/cJSON.c:1423-1494 | no printed text contains a NUL, so the C string is the whole text |
| JsonParser.AtMostHalf | core/deps/cJSON.c:837-862 | in any stretch at most every other character starts an escape as the sizing pass sees it |
| JsonParser.StepFits | core/deps/cJSON.c:873-932 | one step of the decoder writes no more than the input it consumes less the escapes counted there, even out of step with the sizing pass |
| JsonParser.RoomForNul | core/deps/cJSON.c:864-935 | when the decoder stops there is room for the terminator |
| JsonParser.ParseBuffer.SizeString | core/deps/cJSON.c:837-864 | finds the closing quote and the size of the output, or reports that there is none |
| JsonParser.ParseBuffer.ParseHex4 | core/deps/cJSON.c:666-699 | reads four hexadecimal digits, 0 when one of them is none |
| JsonParser.ParseBuffer.Utf16LiteralToUtf8 | core/deps/cJSON.c:703-821 | consumes and writes what the literal calls for, or fails |
| JsonParser.ParseBuffer.DecodeInto | core/deps/cJSON.c:873-935 | for every input the decoder stays inside the output it allocated, and writes the decoded text |
| JsonParser.ParseBuffer.ParseString | core/deps/cJSON.c:824-951 | parses a string as the specification says, or fails as it says |
| JsonParser.ParseBuffer.ParseNumber | core/deps/cJSON.c:307-399 | parses a number as the specification says |
| JsonParser.ParseBuffer.ParseValue | core/deps/cJSON.c:1368-1421 | builds a new tree of items for the value the specification reads there, or fails as it says |
| JsonParser.ParseBuffer.ParseArray | core/deps/cJSON.c:1497-1592 | the same for an array, with the nesting limit; the children are in order and properly linked |
| JsonParser.ParseBuffer.ParseChild | core/deps/cJSON.c:1529-1579 | one value is read and linked behind the children before it |
| JsonParser.ParseBuffer.ParseObject | core/deps/cJSON.c:1662-1777 | the same for an object, each child under its key |
| JsonParser.ParseBuffer.ParseMember | core/deps/cJSON.c:1694-1748 | a key, a colon and a value are read, and the item with both is linked behind the children before it |
| JsonParser.ParseBuffer.ParseDocument | core/deps/cJSON.c:1147-1225 | parses a document into a tree of items: byte order mark, value, and what may follow |
| JsonItems.ItemsTellTheValue | core/deps/cJSON.c:1368-1421 | the items of a tree tell its value and keys, with nothing lost |
| JsonDocument.Reparse | core/deps/cJSON.c:1227-1315 | a tree of items of ints and texts, printed and parsed again, comes back as new items with the same contents, but for a key of the root |
| JsonList.ChildrenUnique | core/deps/cJSON.c:1899-1920 | a list in memory stands for one sequence only |
| JsonList.GetArrayItem | core/deps/cJSON.c:1922-1949 | the item at an index, null outside |
| JsonList.AddItemToArray | core/deps/cJSON.c:2027-2058 | appends at the tail the head points to; the result is a list exactly when the item's own next was null and it was not in the list, and one that was leaves no list |
| JsonList.DetachItemViaPointer | core/deps/cJSON.c:2258-2292 | takes the item out of the parent's list and unlinks it; from another parent's list this goes well exactly when the item is neither first nor last there |
| JsonList.InsertItemInArray | core/deps/cJSON.c:2334-2366 | inserts before an index, and appends past the end; with the parent itself or an item of the list no list is left |
| JsonList.ReplaceItemViaPointer | core/deps/cJSON.c:2368-2415 | replaces an item in its place, a list again exactly when the new item is not in it; in another parent's list exactly when, besides, the old one is neither first nor last there; with an item of no list only when the new one is the only child |
| JsonDuplicate.Duplicate | core/deps/cJSON.c:2784-2873 | an equal tree of new items only, or null exactly when the tree is too deep |
| ProxyChoice.ChoiceIsSound | apps/server/net.c:1445-1522 | an entry handed out was not tried and has room; none left exactly when all were tried; all full exactly when the untried are full |
| ProxyChoice.TiersInOrder | apps/server/net.c:1461-1502 | the thread's own entry comes first, then the first unchecked one, then the first due for a re-check, then a healthy one |
| ProxyChoice.CooldownIsLastResort | apps/server/net.c:1461-1512 | a proxy in cooldown is handed out only when no better open entry exists, and then one with the earliest retry time |
| ProxyChoice.ChooseEntry | apps/server/net.c:1445-1522 | the tiers of loops compute that choice |
| ProxyRotation.RotationIsFair | apps/server/net.c:1484-1500 | any run of as many plain hand-outs as there are healthy proxies is a permutation of them |
| ProxyHealth.BackoffOverRuns | apps/server/net.c:1537-1577 | after any run the failure count is the streak and the cooldown is min(300, 15*2^(k-1)) from the last verdict |
| ProxyHealth.CappedDelay | apps/server/net.c:1564-1567 | stopping the count at six failures does not change the cooldown |
| ProxyHealth.OneAlertPerOutage | apps/server/net.c:1568-1572 | between two successes there is one alert from the third bench on, never two |
| ProxyHealth.RecoveryIsReported | apps/server/net.c:1548-1557 | a success is reported exactly when it ends an outage |
| ProxyHealth.LateFailureExtends | apps/server/net.c:1559-1572 | a failure on a benched proxy is not reported and not counted as a bench, and moves the end of the cooldown exactly when it comes later than the last verdict or is at most the sixth in a row |
| ProxyThreads.NextKeepsInv | apps/server/net.c:1370-1577 | every step of every thread keeps counters and limits |
| ProxyThreads.CountersAreExact | apps/server/net.c:1387-1434 | in every interleaving holders, in_flight and waiting are the numbers of threads they stand for, and holders stays within the limit |
| ProxyThreads.AcquireTriesNewEntry | apps/server/net.c:1749-1781 | one fetch is never handed an entry it has tried, and leaves the loop only when all were tried |
| ProxyRegistry.Registry.Acquire | apps/server/net.c:1445-1522 | the lock section in place is the step, and keeps the invariant |
| ProxyRegistry.Registry.MoveHoldTo | apps/server/net.c:1396-1405 | the hold leaves the old entry and counts at the new one |
| ProxyRegistry.Registry.CloseConnection | apps/server/net.c:1427-1434 | the hold no longer counts |
| ProxyRegistry.Registry.Exit | apps/server/net.c:268-278 | the same when the thread ends |
| ProxyRegistry.Registry.MarkWaiting | apps/server/net.c:1763 | the fetch counts as waiting from then on, once |
| ProxyRegistry.Registry.StartFetch | apps/server/net.c:1783 | with an entry it waits no longer |
| ProxyRegistry.Registry.Leave | apps/server/net.c:1842 | nor when it has given up |
| ProxyRegistry.Registry.CheckYield | apps/server/net.c:1417-1422 | the slot is to be handed over exactly when the limited list has a waiter and the hold is on it |
| ProxyRegistry.Registry.Yield | apps/server/net.c:1423-1424 | the slot is handed over |
| ProxyRegistry.Registry.ReleaseEntry | apps/server/net.c:1537-1577 | the lock section in place is the step, with the change and benches it reports |
| Failover.HandOutIsSound | apps/server/net.c:1445-1522 | the hand-out answers as the retry loop is proved for |
| Failover.AwaitSlot | apps/server/net.c:1752-1778 | sleeps only before the deadline, which is the timeout from the first wait, and marks the fetch as waiting once |
| Failover.FetchWithProxies | apps/server/net.c:1706-1850 | no entry is tried twice, every attempt but the last was the proxy's fault, no waiting mark is left, and with no limit, no cancel and only faults every entry is tried |
| Budget.NextKeepsInv | apps/server/net.c:1871-1923 | every step of every thread keeps the list and its counts |
| Budget.ListIsExact | apps/server/net.c:1854-1923 | a node is in the list exactly while it has users, users are waiting plus running threads, and no freed node is used |
| Budget.NextWithinBudget | apps/server/net.c:1878-1915 | a manifest read is made to wait only while at least the headroom's worth of them is running |
| Budget.BudgetIsKept | apps/server/net.c:1878-1923 | segments never exceed L, all fetches never exceed L + max(L/4, 2), and with cookies at most one runs |
| BudgetList.Budgets.Enter | apps/server/net.c:1891-1900 | finds or creates the provider's node at the head and counts the user |
| BudgetList.Budgets.TryTake | apps/server/net.c:1901-1912 | the wait loop's test: takes a slot exactly when one is free, as the thread system's check does |
| BudgetList.Budgets.Drop | apps/server/net.c:1871-1877 | the last user unlinks the node and nothing else of the list changes |
| BudgetList.Budgets.Leave | apps/server/net.c:1916-1923 | gives the slot back and drops the user |
| BudgetList.Budgets.Admit | apps/server/net.c:1878-1915 | a thread's entry and first test, in place, are the entering step, and keep the invariant |
| BudgetList.Budgets.Retry | apps/server/net.c:1901-1912 | the test after a wait is the waking step |
| BudgetList.Budgets.Expire | apps/server/net.c:1905 | giving up is the expiring step |
| BudgetList.Budgets.Release | apps/server/net.c:1916-1923 | the end of a request is the leaving step |
| MpdCache.NextKeepsInv | apps/server/rs_dash.c:1008-1115 | with at most eight URLs every step keeps the cache consistent with the finished fetches |
| MpdCache.UrlNeverChanges | apps/server/rs_dash.c:1018-1041 | with at most eight URLs an entry keeps its URL |
| MpdCache.OneFetchPerEntry | apps/server/rs_dash.c:1043-1072 | in every interleaving one fetch at most is in flight for an entry |
| MpdCache.OneFetchPerUrl | apps/server/rs_dash.c:1018-1072 | and one at most for a URL |
| MpdCache.HitsAreRecent | apps/server/rs_dash.c:1045-1068 | an answer from the cache is the result of a policy-free fetch for the same key that ended at most two seconds before |
| MpdEviction.SharingNeedsRoom | apps/server/rs_dash.c:1018-1072 | for every set of URLs: in all runs that ask for these only, answers from the cache were fetched for the caller's own URL exactly when there are at most eight |
| MpdTable.Cache.Find | apps/server/rs_dash.c:1018-1032 | the scan finds the URL's entry, else an unused one, else the oldest |
| MpdTable.Cache.Enter | apps/server/rs_dash.c:1033-1072 | answers from the entry exactly on a hit, otherwise claims it |
| MpdTable.Cache.Arrive | apps/server/rs_dash.c:1008-1072 | a request's scan, wait or hit or claim, in place, is the arriving step |
| MpdTable.Cache.Wake | apps/server/rs_dash.c:1033-1072 | what it does when woken is the waking step |
| MpdTable.Cache.Finish | apps/server/rs_dash.c:1077-1113 | the end of a fetch, in place, is the finishing step: the entry holds the fetch's result under its key and time |
| DashPlan.CountSegments | apps/server/rs_dash.c:386-395 | the count is the length of the full expansion |
| DashPlan.ExpandTail | apps/server/rs_dash.c:367-433 | the tail expansion is the last 5000 segments of the full one, in at most 2 * timeline_count + 5000 rounds of its three loops |
| DashPlan.NumbersAreConsecutive | apps/server/rs_dash.c:368-430 | the full expansion numbers its segments one by one from startNumber |
| DashPlan.SegmentsFollow | apps/server/rs_dash.c:397-430 | in the full expansion a segment lasts as its run says, and the next one starts where it ended, or, when it is the first of the next run and that gives a time, at that time |
| DashPlan.ExpandWindow | apps/server/rs_dash.c:434-495 | min(n, newest+1) consecutive segments that end at the newest complete one |
| DashPlan.NewestIsComplete | apps/server/rs_dash.c:448-459 | the newest segment is complete and the next one is not |
| DashPlan.PollsSkipNothing | apps/server/rs_dash.c:461-475 | polls at most n segments apart skip no segment |
| DashPlan.BuildSegments | apps/server/rs_dash.c:365-525 | a plan's segments are the last min(want, 5000) of the full expansion, or the window |
| DashTemplate.PassOnPieces | apps/server/rs_dash.c:114-159 | a pass over the text is a pass over the pieces between its dollars |
| DashTemplate.SimultaneousFills | apps/server/rs_dash.c:161-169 | replacing everything at once fills in the identifiers a scan from left to right finds, and leaves the other dollars |
| DashSimultaneous.FillIsSimultaneous | apps/server/rs_dash.c:161-169 | for any text and values without dollars the passes equal one simultaneous replacement exactly when no pass takes a piece that the scan from left to right does not |
| DashSimultaneous.SeparatedTemplatesFill | apps/server/rs_dash.c:161-169 | they do for every text in which no two identifiers share a dollar and all else between two dollars has a slash, dash, dot or underscore |
| DashSimultaneous.WordBetweenIdentifiers | apps/server/rs_dash.c:166-167 | $Time$Number$Time$ is filled in differently |
| DashSimultaneous.SharedDollar | apps/server/rs_dash.c:164-165 | $Bandwidth$RepresentationID$ is filled in differently although it has no two dollars in a row |
| DashSimultaneous.DollarInValue | apps/server/rs_dash.c:163-164 | an id with dollars that spells an identifier is filled in again, which one replacement does not do |
| DashTemplate.ZeroPadded | apps/server/rs_dash.c:146 | widths up to 63 are zero-padded exactly; longer texts are cut at 63 |
| DashBuffers.CountNeedle | apps/server/rs_dash.c:118-120 | counts the occurrences the replacing loop will meet |
| DashBuffers.ReplacePlain | apps/server/rs_dash.c:114-129 | every write is inside the buffer sized by that count, and the result is terminated |
| DashBuffers.ReadWidth | apps/server/rs_dash.c:143-144 | reads the digits of a width and their value; every step stays within the ints exactly when that value does |
| DashBuffers.ReplacePadded | apps/server/rs_dash.c:132-159 | every write is inside the growing buffer, and the result is terminated |
| DashBuffers.PlainIsPass | apps/server/rs_dash.c:122-126 | the plain scan is a pass of the template |
| DashBuffers.PaddedIsPass | apps/server/rs_dash.c:139-156 | the padded scan is a pass of the template |
| DashBuffers.FillTemplate | apps/server/rs_dash.c:162-169 | the buffers end with the template filled in by the passes in order |
| RestartPolicy.ComputeWait | apps/server/ffrun.c:418-427 | the doubling loop computes min(b*2^(k-1), max(300, b)) |
| RestartPolicy.PollsAreFalls | apps/server/ffrun.c:405-470 | after any run of polls, halt, failure count and retry time are those of the ends and failed starts in it |
| RestartPolicy.DelayOverRuns | apps/server/ffrun.c:411-430 | over any run of polls the delay is that of the errors in a row, and the entry is halted exactly when an end told it to |
| RestartPolicy.FailedStartDelay | apps/server/ffrun.c:389-390 | a failed first start waits for the cooldown of one failure exactly when the restart delay is at least a second |
| RestartPolicy.NoStartBeforeRetry | apps/server/ffrun.c:465-468 | however it is polled, an entry that does not run is next started at its retry time and not before |
| RestartPolicy.HaltedNeverStarts | apps/server/ffrun.c:434-437 | a halted entry is never started or changed by polls |
| Supervisor.SpawnPipeline | apps/server/ffrun.c:148-242 | on success one stderr descriptor and one or two children more, on every failure path no descriptor and no child more |
| Supervisor.KillPipeline | apps/server/ffrun.c:244-266 | all that the entry owned is gone and nothing else; only a killed child is waited for without limit |
| Supervisor.CheckPipeline | apps/server/ffrun.c:438-459 | what a poll sees of a pipeline decides whether it is over and failed |
| Supervisor.PollEntry | apps/server/ffrun.c:435-468 | one entry's poll is a step of the restart policy and keeps its pipeline whole |
| Supervisor.ReplaceOne | apps/server/ffrun.c:27-57 | exchanging one entry's processes and descriptors keeps the whole table exact |
| Supervisor.Supervisor.constructor | apps/server/ffrun.c:332-340 | an empty table owns nothing |
| Supervisor.Supervisor.Start | apps/server/ffrun.c:349-394 | one entry for the stream, running or waiting to be retried or gone; all others as they were; the table exact |
| Supervisor.Supervisor.Stop | apps/server/ffrun.c:396-403 | no entry for the stream is left and all it owned is gone |
| Supervisor.Supervisor.Poll | apps/server/ffrun.c:432-470 | every entry makes its step and the table stays exact |
| Supervisor.Supervisor.Destroy | apps/server/ffrun.c:342-347 | no descriptor and no child is left |
| StderrLines.SplitOfIsSplit | apps/server/ffrun.c:290-310 | the split of a stream rejoins to it and no line contains a line end |
| StderrLines.SplitIsUnique | apps/server/ffrun.c:290-310 | there is only one such split |
| StderrLines.ChunkingDoesNotMatter | apps/server/ffrun.c:284-312 | however the stream is cut, the lines are those of the whole, each cut at 511 bytes |
| StderrLines.LineBuffer.Feed | apps/server/ffrun.c:290-310 | the buffer index stays inside, and the state is that of the characters fed |
| StderrLines.LineBuffer.Drain | apps/server/ffrun.c:284-312 | one poll feeds all its reads in order |
| WebrootPaths.IsSafeRelative | apps/server/webroot.cpp:167-188 | a path passes exactly when it is short enough and all its parts are plain names |
| WebrootPaths.WritesStayInside | apps/server/webroot.cpp:167-188 | a path that passes, and its temporary file, lead strictly below the directory |
| WebrootRefresh.LoadedHolds | apps/server/webroot.cpp:299-323 | a path is there after the writes exactly when its last write was not taken away by a later temporary file |
| WebrootRefresh.StampMeansAllPresent | apps/server/webroot.cpp:340-408 | a finished download has every listed file exactly when no listed path is followed by the one whose temporary file it is |
| WebrootRefresh.StampWithoutTheFile | apps/server/webroot.cpp:299-323 | the listing index.html, a.part, a passes every test and leaves a stamp and no a.part |
| WebrootRefresh.SortedListingsAreComplete | apps/server/webroot.cpp:340-408 | with prefixes first, as in a sorted listing, every listed file is there |
| WebrootRefresh.OneCommit | apps/server/webroot.cpp:357-377 | files fetched from one commit make a tree of that commit; the built-in list, used when the listing fails, is fetched from a moving ref and has no such promise |
| WebrootRefresh.LiveIsNeverMixed | apps/server/webroot.cpp:410-472 | so it is at every point of any sequence of refreshes and crashes |
| WebrootRefresh.OneRefreshKeepsACopy | apps/server/webroot.cpp:414-472 | from a finished download every crash point of one refresh keeps one in the live directory or the backup |
| WebrootRefresh.CopyIsKeptExactlyWhenLive | apps/server/webroot.cpp:414-472 | from any idle state every crash point of every refresh keeps one exactly when the live directory is one |
| WebrootRefresh.SecondRefreshMayLoseBoth | apps/server/webroot.cpp:439-457 | from every finished download two refreshes with a crash between the renames can lose both |
| WebrootFiles.Disk.WriteFile | apps/server/webroot.cpp:299-323 | the writing in place goes through the states the protocol allows |
| WebrootFiles.Disk.Download | apps/server/webroot.cpp:340-408 | ends with the stamped snapshot in the stage, or gives up with live and backup untouched |
| WebrootFiles.Disk.Swap | apps/server/webroot.cpp:447-471 | the stage becomes live, or live is as before or set aside whole in the backup |
| WebrootFiles.Disk.Refresh | apps/server/webroot.cpp:414-472 | the whole refresh is a path of the protocol with that outcome |
| WebrootFiles.EveryPointIsSafe | apps/server/webroot.cpp:410-472 | every state on the way is safe to stop at |
| Traffic.InOrderIsNeeded | apps/server/net.c:1161-1165 | a request leaves the latest second of its bucket as the stamp exactly when no later one was noted there |
| Traffic.LessThanAMinuteLate | apps/server/net.c:1133-1165 | which holds as long as none is noted a minute or more late |
| Traffic.NextBucket | apps/server/net.c:1185-1191 | a bucket adds what it holds, the requests no other second took it from, if its second is in the window |
| Traffic.ShownIsTotal | apps/server/net.c:1161-1191 | the buckets tell the totals of the full history exactly when no request of the window has lost its bucket to another second |
| Traffic.QueryIsTotal | apps/server/net.c:1180-1191 | so it is when none is noted a minute late and no noted second lies after the query's clock, and for the bytes up to 49 seconds after |
| Traffic.StreamTraffic.End | apps/server/net.c:1151-1169 | whatever order requests are noted in, ring and buckets stand for the history with the request added |
| Traffic.StreamTraffic.Query | apps/server/net.c:1175-1221 | requests and errors of 60 seconds and bytes of seconds 1 to 10 back as far as the buckets still tell, whatever was noted in between, and the newest min(n, 60) requests |

## Left out

- JsonParser.ParseBuffer.ParseDocument: on failure the error position and the offset are not specified; an item is linked behind the others once its value has been read, not before, and what a failed parse frees is not modelled.
- JsonPrinter.PrintBuffer.PrintNumber: the text of a number that is not an int (%1.15g, %1.17g) is a parameter, so round trips cover ints.
- JsonList.DetachItemViaPointer: detaching the last item of another parent's list through a parent without children reads through that parent's null child pointer (core/deps/cJSON.c:2284); the contract leaves this call out.
- JsonList.ReplaceItemViaPointer: freeing the replaced item is not modelled; an item that is in no list has null links.
- JsonDuplicate.Duplicate: reference items and constant keys, and the copy without children, are not modelled.
- Raw items, case-insensitive lookup, Minify, Compare and allocation failure in the JSON library.
- ProxyThreads.CountersAreExact: a hold that outlives its thread (an external downloader keeps no handle) is not modelled; the pool's limit is fixed with its list.
- ProxyChoice.ChooseEntry: the second scan for healthy entries, which can find nothing the first did not, is not modelled.
- Failover.FetchWithProxies: an unlimited number of entries stands for the 16 of the bit mask; log texts are left out.
- Budget.BudgetIsKept: settings of a provider are taken as fixed during the run; requests without a provider pass without a limiter.
- MpdCache.HitsAreRecent: the clock is taken not to go back; copying a cached body that runs out of memory is not modelled.
- DashPlan.ExpandTail: 64-bit overflow of numbers and times, and resolving URLs, are not modelled; a segment's URL is a function of its number and time.
- DashPlan.NewestIsComplete: durations and clocks are real numbers, so rounding of doubles is not modelled.
- DashSimultaneous.FillIsSimultaneous: values are free of dollars; one with dollars is read again by later passes.
- DashBuffers.ReadWidth: for a width beyond the int range, where the source's arithmetic is undefined, the model goes on with the number written.
- Supervisor.Supervisor.Start: a failed copy of the arguments is not modelled; the argument lists are kept but not interpreted.
- StderrLines.LineBuffer.Feed: which lines are worth a log entry, and reading the progress out of them, are left out.
- WebrootRefresh.CanStep: links, permissions and directories in the way of files appear only as operations that fail.
- WebrootRefresh.OneCommit: a download by the built-in list can mix two commits when the ref moves during it.
- Traffic.StreamTraffic.Query: per-proxy totals and the table of streams with its eviction are left out.
- Traffic.StreamTraffic.End: a request in the first second of the clock is never counted, since 0 marks an unused bucket; the 32-bit counters do not wrap.
- HLS, XML and MPD parsing, rendition choice, capability probing, services, command line and user interface: they rest on libraries that are not part of this model or hold only small claims.
- Proxy tests, header capture, TLS bundles and external downloaders: measurement and foreign calls.
