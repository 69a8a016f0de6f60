# tr69hostif: a verified model

tr69hostif answers parameter requests on a set-top box. This project models the parts of it that are
small machines with invariants of their own, and proves what those machines promise.

| file | what it models |
|---|---|
| `JsonRequest.dfy`, `JsonReply.dfy` | the callbacks that collect parameter names from a JSON request, and the reply written in the same grammar |
| `NotificationHandOff.dfy` | threads that push notifications to one queue, pop, send with retries, and free them |
| `Backoff.dfy` | the reconnect loop with exponential backoff |
| `MacSubstitution.dfy`, `MacNormalise.dfy` | placeholder substitution in the endpoint URL and the two MAC address normalisers |
| `InstancePaths.dfy` | `matchComponent`, the nested GET dispatch, and the object paths events print |
| `TableEvents.dfy`, `TablePolls.dfy`, `TableHandlers.dfy` | the add and remove events that keep a subscriber's tables in step, the events of a whole poll, and the handlers that emit them |
| `ValueCodec.dfy`, `SetPipeline.dfy` | typed values in message buffers, and the SET pipeline up to the HTTP status code |
| `IniFile.dfy` | the string map written through to a text file |
| `WebconfigSync.dfy` | the webconfig run and its report |
| `Routing.dfy` | the manager table and the first prefix match over an unordered table |
| `CText.dfy`, `Common.dfy` | C text conversions and shared declarations |

Code that changes state step by step is modelled by classes, arrays and loops, each proved against a
function; the theorems are about those functions. Outcomes of the outside world (sends, fetches, file
opens, lookups, resets from another thread) are arbitrary parameters.

Where the code does less than its comments, log messages or tests of its neighbours suggest, the model
follows the code and a lemma gives the exact condition under which the promise holds:

- an array nested inside a `paramList` element ends the list, which loses the names behind it
  (`NestedArrayEndsTheList`), and a string that stands directly in an array can be taken for a name
  (`BareStringIsCollected`); `CollectsFromAnyRequest` weighs the two against each other;
- the older add/remove loop names the wrong instances when a table shrinks (`OlderInStepIff`);
- a removed interface leaves the counters of its nested tables behind, which puts a subscriber that
  drops nested tables together with the interface out of step (`NestedInStepIff`); the repository
  holds no subscriber, so this one is an assumption, like the simpler one of the other theorems;
- a failed fetch before any response ends the webconfig run without a report (`FailedFetchEndsRunIff`);
- strings of exactly 4096 bytes pass the length check and lose their last byte (`StringPreservedIff`);
- unsigned values above INT_MAX change on the way through `atoi` (`UnsignedPreservedIff`);
- `putValue` stores false for accepted spellings of true other than `true` (`PutBooleanIff`);
- the data model type `dateTime` is compared with `dataTime` and can never be set (`DateTimeIsNeverSet`, `SettableIff`);
- a line with an unknown manager inherits the manager of an earlier line (`SkipsAsPromisedIff`), which
  is what happens to the `webConfigMgr` line of `conf/mgrlist.conf` in every build (`WebConfigIsInherited`);
- the shipped manager list routes exactly two subtrees by hash order (`ShippedPairsIff`, `ShippedRoutingIff`);
- a load, a set or a clear that cannot open its file changes the map in memory only (`StaysOnDiskIff`).

Two platform facts are parameters: the width of `long` (32 or 64 bits, `IsLongMax`), and the value of
the first-digit expression for response codes below 1, where `log10` has no value (`undefinedDigit`);
the results hold for all of them.

## Model

| member | source | states |
|---|---|---|
| `JsonRequest.Parser.ProcessString` | src/hostif/handlers/src/hostIf_jsonReqHandlerThread.cpp:77-91 | the string callback appends the string up to its first NUL and disarms itself exactly when it is armed inside the array and the string is shorter than 4095 bytes |
| `JsonRequest.Parser.ProcessMapKey` | src/hostif/handlers/src/hostIf_jsonReqHandlerThread.cpp:98-121 | the key callback starts the search at the first "paramList" key and arms on "name" inside the array; any other key disarms |
| `JsonRequest.Parser.ProcessStartArray` | src/hostif/handlers/src/hostIf_jsonReqHandlerThread.cpp:129-137 | only the first array after "paramList" begins the list |
| `JsonRequest.Parser.ProcessEndArray` | src/hostif/handlers/src/hostIf_jsonReqHandlerThread.cpp:139-147 | the first array closed after "paramList" ends it for good |
| `JsonRequest.HTTPJsonParse` | src/hostif/handlers/src/hostIf_jsonReqHandlerThread.cpp:184-217 | driving the callbacks over any event stream returns the list of the machine, also for a stream that stops at a syntax error |
| `JsonRequest.CollectsExactlyTheNames` | src/hostif/handlers/src/hostIf_jsonReqHandlerThread.cpp:77-147 | for every request document whose members before "paramList" hold no such key at any depth and whose list holds array-free objects: exactly the short string-valued "name" members at any depth, in document order, and nothing after the list |
| `JsonRequest.CollectsFromAnyStream` | src/hostif/handlers/src/hostIf_jsonReqHandlerThread.cpp:77-217 | for every event stream without restriction: the short strings whose last preceding key or short string is the key "name", between the first array opened after "paramList" and the first array closed after it |
| `JsonRequest.TruncatedRequest` | src/hostif/handlers/src/hostIf_jsonReqHandlerThread.cpp:197-216 | a request cut off anywhere yields a prefix of the names of the whole request |
| `JsonRequest.NoParamListIff` | src/hostif/handlers/src/hostIf_jsonReqHandlerThread.cpp:104-109 | the condition on the members before the list, read off the events: no such key occurs |
| `JsonRequest.CollectsFromAnyRequest` | src/hostif/handlers/src/hostIf_jsonReqHandlerThread.cpp:77-147 | whatever the list holds: the collected strings and the names lost behind the first closed array are as many as all names and the stray array items together; a list with stray items or lost names, but not both, is never complete, and one with neither always is |
| `JsonRequest.NestedArrayEndsTheList` | src/hostif/handlers/src/hostIf_jsonReqHandlerThread.cpp:139-147 | defect with its exact condition: where no short string stands directly in an array, the collected list is all names but those behind the first array closed inside the list, at any depth, so it is complete if and only if no name follows that array |
| `JsonRequest.BareStringIsCollected` | src/hostif/handlers/src/hostIf_jsonReqHandlerThread.cpp:77-91 | defect at its input: the one string of an array under the key "name" is collected although it is no member, and what follows is lost; the result is right only when just that name follows |
| `JsonReply.WriteItem` | src/hostif/handlers/src/hostIf_jsonReqHandlerThread.cpp:275-306 | one turn of the reply loop writes nothing for a failed lookup, and otherwise six events that name the parameter and show its value: strings up to their first NUL, the low 32 bits of numbers as an int, booleans, "Unknown" for dates |
| `JsonReply.HTTPJsonMsgHandler` | src/hostif/handlers/src/hostIf_jsonReqHandlerThread.cpp:243-327 | status 400 exactly when no name was collected; otherwise the output is the event stream of one well-nested reply document, with one such item for each lookup that returned OK, in order, and nothing else |
| `JsonReply.ReplyByPosition` | src/hostif/handlers/src/hostIf_jsonReqHandlerThread.cpp:264-318 | the reply read by position: its length, its frame, and name and value of every item |
| `JsonReply.ReplyReadsBack` | src/hostif/handlers/src/hostIf_jsonReqHandlerThread.cpp:264-318 | for every handler behaviour the reply reads back through the same callbacks as the names the handler left; no value is ever taken for a name |
| `JsonReply.ReplyRoundTrip` | src/hostif/handlers/src/hostIf_jsonReqHandlerThread.cpp:264-318 | for every request stream and every handler that keeps the names: reading the reply back gives the names whose lookup returned OK, in order |
| `JsonReply.ReplyIsAFixpoint` | src/hostif/handlers/src/hostIf_jsonReqHandlerThread.cpp:220-327 | sending a reply back as a request produces the same reply |
| `NotificationHandOff.SendNotification` | src/hostif/parodusClient/pal/libpd.cpp:252-270 | at most four sends, all but the last failed, stopping at the first success; after k failures 2^(k+2)-4-k seconds have been slept |
| `NotificationHandOff.CompleteIff` | src/hostif/parodusClient/pal/libpd.cpp:252-270 | the sends of one message are a success after at most three failures, or four failures |
| `NotificationHandOff.ReleaseMessage` | src/hostif/parodusClient/pal/webpa_adapter.cpp:373-416 | for every shape of queued message, along every goto, each heap cell that exists is freed exactly once, and a message is sent, with its own payload and destination, if and only if nothing in it is NULL and its type is 0 to 4 |
| `NotificationHandOff.NotificationHandler.PushNotification` | src/hostif/handlers/src/hostIf_NotificationHandler.cpp:83-127 | rejected pushes change nothing; an accepted one goes to the end of the queue, and the oldest message is sent with its own payload and destination, until a success or four times, and freed |
| `NotificationHandOff.PushAcceptsIff` | src/hostif/handlers/src/hostIf_NotificationHandler.cpp:83-127 | a thread's push is accepted if and only if there is a callback and neither argument is NULL |
| `NotificationHandOff.NothingBeforeRegister` | src/hostif/handlers/src/hostIf_NotificationHandler.cpp:89-93 | in every run without a registration nothing is ever queued |
| `NotificationHandOff.OneCallIsARun` | src/hostif/handlers/src/hostIf_NotificationHandler.cpp:123-125 | one call from rest, with any complete series of sends, is a run of the threads that ends at rest with that message finished |
| `NotificationHandOff.StepKeepsInv` | src/hostif/parodusClient/pal/webpa_adapter.cpp:364-417 | every step of every thread keeps the invariant that ties the queue to the program counters and each message to one thread or to its end |
| `NotificationHandOff.HandOffSafety` | src/hostif/handlers/src/hostIf_NotificationHandler.cpp:123-125 | for any number of threads and any interleaving: the queue is as long as there are threads between push and pop, no pop finds it empty, messages leave in the order of acceptance, none is handed over or freed twice |
| `NotificationHandOff.HandOffAtRest` | src/hostif/parodusClient/pal/webpa_adapter.cpp:405-416 | when all threads rest the queue is empty and every accepted message was handed over once, tried until a success or four times, and freed once |
| `NotificationHandOff.StepsDrain` | src/hostif/parodusClient/pal/libpd.cpp:252-270 | every step other than a push or a registration takes away work |
| `NotificationHandOff.DrainingRunsAreShort` | src/hostif/parodusClient/pal/libpd.cpp:252-270 | a run of any interleaving without pushes and registrations has at most as many steps as there was work |
| `NotificationHandOff.EveryRunCanFinish` | src/hostif/parodusClient/pal/webpa_adapter.cpp:364-417 | from wherever a run has got to, the threads can come to rest in at most seven steps each without another push, and then every accepted message was handed over, tried and freed once |
| `NotificationHandOff.NeverStuck` | src/hostif/parodusClient/pal/webpa_adapter.cpp:364-417 | while some thread is busy some step other than a push is possible |
| `Backoff.ConnectParodus` | src/hostif/parodusClient/pal/libpd.cpp:361-429 | for every ceiling M >= 2 and every beginning of a run: the loop sleeps 2^(2 + k mod (M-1)) - 1 seconds after failure k and ends at the first success only |
| `Backoff.TotalSleep` | src/hostif/parodusClient/pal/libpd.cpp:385-422 | closed form of the time slept after n failures |
| `Backoff.SleepInCycle` | src/hostif/parodusClient/pal/libpd.cpp:385-422 | within a cycle the sleeps start at three seconds and double, a second more, up to the ceiling; every cycle is the same |
| `Backoff.DeployedSchedule` | src/hostif/parodusClient/pal/libpd.cpp:364-372 | for the ceiling 5: the sleeps are 3, 7, 15 and 31 seconds in turn and the total is 56*(n/4) + 2^(r+2) - 4 - r with r = n mod 4 |
| `MacSubstitution.CountMatches` | src/hostif/webconfig_lite/webconfig_lite.cpp:1115-1124 | the counting pass returns the length and the number of leftmost non-overlapping occurrences |
| `MacSubstitution.Fill` | src/hostif/webconfig_lite/webconfig_lite.cpp:1127-1144 | the filling pass writes the replaced text, every write inside the buffer, and strcpy_s never fails |
| `MacSubstitution.ReplaceMacWord` | src/hostif/webconfig_lite/webconfig_lite.cpp:1108-1147 | the buffer holds the leftmost non-overlapping replacement and its terminator on the last allocated byte, for all texts and every non-empty word |
| `MacSubstitution.ScanIsReplacement` | src/hostif/webconfig_lite/webconfig_lite.cpp:1116-1144 | the character scan of both passes makes the replacements of the reference definition by first occurrences |
| `MacSubstitution.ReplacesInPieces` | src/hostif/webconfig_lite/webconfig_lite.cpp:1129-1146 | the text before the first occurrence is copied, the occurrence becomes the address, and the rest is replaced in the same way |
| `MacSubstitution.ReplacesNothing` | src/hostif/webconfig_lite/webconfig_lite.cpp:1129-1146 | a text without an occurrence stays as it is |
| `MacSubstitution.ReplacingBySelf` | src/hostif/webconfig_lite/webconfig_lite.cpp:1108-1147 | replacing the word by itself changes nothing: only occurrences are touched |
| `MacSubstitution.NothingLeft` | src/hostif/webconfig_lite/webconfig_lite.cpp:1129-1146 | no occurrence remains, not even one straddling a replacement, when the address contains neither end character of the word and is at most one character shorter; a second replacement changes nothing |
| `MacSubstitution.BoundIsTight` | src/hostif/webconfig_lite/webconfig_lite.cpp:1129-1146 | with an address two characters shorter than the word the word can reappear |
| `MacSubstitution.PlaceholderIsGone` | src/hostif/webconfig_lite/webconfig_lite.cpp:415-435 | the deployed case: "{mac}" against an address of four or more characters without braces |
| `MacNormalise.NormaliseKeyValue` | src/hostif/webconfig_lite/webconfig_utils.cpp:52-62 | the in-place compaction and lower-casing leave the text without colons in lower case, properly terminated, and do not touch the bytes behind it |
| `MacNormalise.MacToLower` | src/hostif/parodusClient/pal/webpa_notification.cpp:125-150 | for addresses shorter than 32 bytes the tokenising loop yields the same text, within its 32-byte buffers and 32 token slots |
| `MacNormalise.NormalisersAgree` | src/hostif/parodusClient/pal/webpa_notification.cpp:125-150 | the two routines leave the same string for the same address |
| `MacNormalise.NormalInPieces` | src/hostif/webconfig_lite/webconfig_utils.cpp:52-62 | the normal form character by character: colons go, every other character is lowered where it stands |
| `MacNormalise.NormalIdempotent` | src/hostif/webconfig_lite/webconfig_utils.cpp:52-62 | normalising twice is normalising once |
| `MacNormalise.EndpointIsComplete` | src/hostif/webconfig_lite/webconfig_lite.cpp:411-436 | the endpoint URL built with a normalised address holds no placeholder |
| `InstancePaths.MatchComponent` | src/hostif/src/hostIf_utils.cpp:96-122 | true exactly when the text is the key in any case, ".", at most nine characters without a dot, "." and a rest; then the number and the rest of that split, otherwise the out-parameters keep their values |
| `InstancePaths.MatchIffSplits` | src/hostif/src/hostIf_utils.cpp:96-122 | the split is unique |
| `InstancePaths.PrintedNumberMatches` | src/hostif/src/hostIf_utils.cpp:106-114 | a printed instance number is parsed back if and only if it is below 10^9 |
| `InstancePaths.NestedPathRoundTrip` | src/hostif/handlers/src/hostIf_IPClient_ReqHandler.cpp:162-210 | what the events print for instance j of a table below interface i, the nested dispatch takes back to exactly (i, table, j, "") |
| `InstancePaths.InterfacePathRoundTrip` | src/hostif/handlers/src/hostIf_IPClient_ReqHandler.cpp:162-217 | the same for the interface table |
| `InstancePaths.DispatchBySplit` | src/hostif/handlers/src/hostIf_IPClient_ReqHandler.cpp:162-217 | where any text below a printed interface number goes: refused for an interface that is not there, to the statistics, to an address or prefix with its number and rest, or to the interface |
| `InstancePaths.DispatchElsewhere` | src/hostif/handlers/src/hostIf_IPClient_ReqHandler.cpp:162-219 | only a text that does not match at all goes elsewhere |
| `InstancePaths.ObjectPathText` | src/hostif/handlers/src/hostIf_IPClient_ReqHandler.cpp:451-474 | the object paths, in letters |
| `InstancePaths.ReadPrintedInstance` | src/hostif/handlers/src/hostIf_updateHandler.cpp:224 | a printed instance path determines object path and number, whatever the number |
| `InstancePaths.ObjectPathInjective` | src/hostif/handlers/src/hostIf_IPClient_ReqHandler.cpp:451-474 | no two tables share an object path |
| `TableEvents.PollKeepsStep` | src/hostif/handlers/src/hostIf_updateHandler.cpp:222-236 | one call, with any finite pattern of resets between its iterations, ends with the counter at the new value, the subscriber's table equal to {1..new}, ADDs minus REMOVEs equal to it, and no REMOVE of an absent instance |
| `TableEvents.PollKeepsOthers` | src/hostif/handlers/src/hostIf_updateHandler.cpp:212-237 | the tables of all other objects stay in step, untouched or back at zero after a reset |
| `TableEvents.QuietPoll` | src/hostif/handlers/src/hostIf_updateHandler.cpp:222-236 | without resets a call emits exactly abs(new - saved) events: REMOVEs from the last instance down, or ADDs |
| `TableEvents.BurstByPosition` | src/hostif/handlers/src/hostIf_updateHandler.cpp:222-236 | the text of every event of such a call |
| `TableEvents.AbsentRemoveIff` | src/hostif/handlers/src/hostIf_updateHandler.cpp:222-229 | under every finite pattern of resets, a REMOVE names an absent instance if and only if the new count is negative |
| `TableHandlers.IPClientReqHandler.SendAddRemoveEvents` | src/hostif/handlers/src/hostIf_updateHandler.cpp:212-237 | the method keeps the subscriber in step with every counter under any reset schedule, and emits the exact burst without one |
| `TableHandlers.IPClientReqHandler.Reset` | src/hostif/handlers/src/hostIf_IPClient_ReqHandler.cpp:78-90 | a reset zeroes every counter, in step with the emptied subscriber |
| `TableHandlers.IPClientReqHandler.CheckForUpdates` | src/hostif/handlers/src/hostIf_IPClient_ReqHandler.cpp:428-477 | a poll keeps every object in step whatever resets fall in; without resets the events are exactly those of the poll, each counter holds what was read for its own table and all others are unchanged, and a cascading subscriber in step before is in step after, table by table, except with the non-zero counters below a removed interface |
| `TableHandlers.IPClientReqHandler.RunHistory` | src/hostif/handlers/src/hostIf_IPClient_ReqHandler.cpp:428-477 | after every history of polls and resets the subscriber's table of each printed path is that of its own counter |
| `TablePolls.CascadeBurst` | src/hostif/handlers/src/hostIf_updateHandler.cpp:222-236 | what the events for one table leave of any table of a cascading subscriber: its own at the new count, those below a removed interface empty, all others untouched |
| `TablePolls.NestedInStepIff` | src/hostif/handlers/src/hostIf_IPClient_ReqHandler.cpp:445-475 | defect with its exact condition, for addresses and prefixes alike: after a poll from a state in step, a cascading subscriber is out of step with a table if and only if the poll removed its interface and its counter, which the poll does not touch, was not zero |
| `InstancePaths.BelowIff` | src/hostif/handlers/src/hostIf_IPClient_ReqHandler.cpp:451-474 | the tables whose paths start with the path of instance n of the interface table are those of interface n, and no instance of a nested table has tables below it |
| `TableHandlers.EthernetClientReqHandler.CheckForUpdates` | src/hostif/handlers/src/hostIf_EthernetClient_ReqHandler.cpp:423-441 | the older loop emits exactly abs(new - saved) events that add up to the change of the count, or none without a callback |
| `TableHandlers.EthernetClientReqHandler.RunHistory` | src/hostif/handlers/src/hostIf_EthernetClient_ReqHandler.cpp:412-441 | over every history of polls and resets, ADDs minus REMOVEs since the last reset are the stored count, less the changes polled without a callback |
| `TableHandlers.OlderConserves` | src/hostif/handlers/src/hostIf_EthernetClient_ReqHandler.cpp:428-440 | ADDs minus REMOVEs change by the change of the count |
| `TableHandlers.OlderBurstByPosition` | src/hostif/handlers/src/hostIf_EthernetClient_ReqHandler.cpp:427-440 | the text of every event of the older loop |
| `TableHandlers.OlderInStepIff` | src/hostif/handlers/src/hostIf_EthernetClient_ReqHandler.cpp:428-433 | defect with its exact condition: the older loop names instances new..saved-1 instead of new+1..saved, so the subscriber stays in step if and only if the count does not shrink |
| `SetPipeline.InvokeHostIfAPI` | src/hostif/httpserver/src/request_handler.cpp:250-369 | a refused value never reaches the handler, an accepted one reaches it once, in a message with the entry's name, the type asked for, a buffer that holds and decodes to the value, and the source of the request; the status follows return code and fault code |
| `SetPipeline.HandleEntry` | src/hostif/httpserver/src/request_handler.cpp:693-739 | one entry: throws exactly for admitted numbers out of range, calls the handler exactly when eligible, and ends with the status of the first check that fails |
| `SetPipeline.HandleRequest` | src/hostif/httpserver/src/request_handler.cpp:692-739 | no response exactly for an empty request; otherwise the handler calls are those of the eligible entries in request order, each carrying its entry, and every status is the one for the calls before it, up to an entry whose number makes stoi or stoul throw |
| `SetPipeline.SuccessIff` | src/hostif/httpserver/src/request_handler.cpp:697-738 | an entry outside the RFC names is SUCCESS if and only if it is authorised, no wildcard, not null, known, writable, of the model's type and accepted, and the handler answered OK without a fault |
| `SetPipeline.RfcSuccessIff` | src/hostif/httpserver/src/request_handler.cpp:291-298 | an RFC name never reaches the handler; it succeeds only as the cache reload with a true value |
| `SetPipeline.EligibleIsCalled` | src/hostif/httpserver/src/request_handler.cpp:693-737 | each eligible entry is called at the place its rank among the eligible entries gives it |
| `SetPipeline.CallIsEligible` | src/hostif/httpserver/src/request_handler.cpp:693-737 | each handler call belongs to exactly one eligible entry |
| `SetPipeline.CallCarriesEntry` | src/hostif/httpserver/src/request_handler.cpp:103-139 | the call of an eligible entry has the entry's name, the type the data model spells, a buffer that holds the value byte by byte and decodes to it, requestor RFC exactly for the RFC caller, and the update level the data model names |
| `SetPipeline.BurstsIff` | src/hostif/httpserver/src/request_handler.cpp:193-224 | stoi or stoul throws exactly for an otherwise admitted entry whose value begins with a number out of range of int or unsigned long |
| `SetPipeline.StatusMeans` | src/hostif/httpserver/src/request_handler.cpp:371-434 | what each status tells the client: for every status but success the exact condition on name, value, data model, type and the handler's answer |
| `SetPipeline.SettableIff` | src/hostif/httpserver/src/request_handler.cpp:40-62 | some value of a name reaches the handler if and only if the name is not the reboot name, no wildcard, no RFC name, and known as writable with a type in one of the six spellings |
| `SetPipeline.DateTimeIsNeverSet` | src/hostif/httpserver/src/request_handler.cpp:40-62 | defect at its input: no entry for a "dateTime" parameter ever reaches the handler |
| `SetPipeline.OverallStatus` | src/hostif/httpserver/src/http_server.cpp:155-164 | the status code is the first non-zero status, and 0 if and only if all are 0 |
| `SetPipeline.Post` | src/hostif/httpserver/src/http_server.cpp:147-170 | end to end: the reply code is 0 if and only if every entry succeeded, otherwise the number of the first entry that did not |
| `ValueCodec.ConvertAndAssignParamValue` | src/hostif/httpserver/src/request_handler.cpp:103-139 | the cleared buffer receives the encoded bytes and nothing else |
| `ValueCodec.PutValueInPlace` | src/hostif/src/hostIf_utils.cpp:254-288 | the whole buffer is what putValue stores, whatever was in it before |
| `ValueCodec.NumberVerdict` | src/hostif/httpserver/src/request_handler.cpp:193-224 | a text that begins with a number is accepted, refused or makes stoi or stoul throw according to that number, its range, and whether anything follows it |
| `ValueCodec.OtherVerdicts` | src/hostif/httpserver/src/request_handler.cpp:178-248 | the verdict on every other text |
| `ValueCodec.StoredBytes` | src/hostif/httpserver/src/request_handler.cpp:103-139 | the bytes of an accepted value: text and zeros, a number modulo 2^32 lowest byte first, LONG_MAX where strtol stops, one byte of truth |
| `ValueCodec.PutBytes` | src/hostif/src/hostIf_utils.cpp:254-288 | the bytes that putValue stores for any numeral, word or string |
| `ValueCodec.ReadBack` | src/hostif/src/hostIf_utils.cpp:124-252 | what the two decoders read from a buffer that holds a number, a text or a truth value |
| `ValueCodec.RoundTrip` | src/hostif/httpserver/src/request_handler.cpp:103-248 | every accepted value, numbers up to INT_MAX, decodes to a text that is accepted again, encodes to the same bytes and is a fixed point, for 32-bit and 64-bit longs |
| `ValueCodec.StringPreservedIff` | src/hostif/httpserver/src/request_handler.cpp:184-191 | an accepted string comes back unchanged if and only if it is shorter than 4096 bytes; the length check lets 4096 pass |
| `ValueCodec.IntegerPreserved` | src/hostif/httpserver/src/request_handler.cpp:112-119 | an accepted integer keeps its number |
| `ValueCodec.UnsignedPreservedIff` | src/hostif/httpserver/src/request_handler.cpp:209-224 | an accepted unsigned value keeps its number if and only if it is at most INT_MAX |
| `ValueCodec.BooleanPreserved` | src/hostif/httpserver/src/request_handler.cpp:226-239 | an accepted boolean keeps its meaning |
| `ValueCodec.PutValueAgrees` | src/hostif/src/hostIf_utils.cpp:254-288 | on canonical values putValue writes the bytes the request handler writes |
| `ValueCodec.PutBooleanIff` | src/hostif/src/hostIf_utils.cpp:228-232 | on accepted booleans the two encoders agree if and only if the text is "true" or means false |
| `ValueCodec.DecodersAgreeIff` | src/hostif/src/hostIf_utils.cpp:124-252 | where the two decoders read the same text from a buffer: unsigned below 2^31, integers that fit nine characters, empty dates, and always for strings and booleans |
| `IniFile.PrintParseIff` | src/hostif/src/IniFile.cpp:47-55 | load after flush gives the same map if and only if no key holds "=" or a newline and no value holds a newline, in every iteration order |
| `IniFile.ReloadIsStable` | src/hostif/src/IniFile.cpp:47-100 | for every text: load, flush, load equals load |
| `IniFile.ParsesInPieces` | src/hostif/src/IniFile.cpp:47-55 | a newline separates two texts, and the entries of the second are added over those of the first |
| `IniFile.ParsesEntry` | src/hostif/src/IniFile.cpp:47-55 | a line, with or without a newline at its end, is an entry split at its first "=" |
| `IniFile.IgnoresOtherLines` | src/hostif/src/IniFile.cpp:49-50 | a line without "=" is ignored |
| `IniFile.PrintsInPieces` | src/hostif/src/IniFile.cpp:98-100 | flush writes one line an entry, in the order in which it visits the keys |
| `IniFile.UnquotesInPieces` | src/hostif/src/IniFile.cpp:36 | quotes are dropped from the file name wherever they stand (one character is `UnquotesOne`) |
| `IniFile.IniFile.Load` | src/hostif/src/IniFile.cpp:31-58 | the map is the parsed file, or empty when the file cannot be opened; memory and disk agree afterwards exactly when the open succeeded or there was nothing to read |
| `IniFile.IniFile.Flush` | src/hostif/src/IniFile.cpp:89-106 | the file holds a print of the map in some order and no other file changes; a failed open changes nothing |
| `IniFile.IniFile.SetValue` | src/hostif/src/IniFile.cpp:76-86 | refused before a load; otherwise the entry is set in memory and, if the file opens, on disk |
| `IniFile.IniFile.Clear` | src/hostif/src/IniFile.cpp:60-64 | the map is emptied and, if the file opens, so is the file |
| `IniFile.IniFile.PerformAll` | src/hostif/src/IniFile.cpp:31-106 | running any list of loads, sets and clears on the object and the disk gives the state of the histories below, with texts that flush can write |
| `IniFile.StaysOnDiskIff` | src/hostif/src/IniFile.cpp:31-106 | defect with its exact condition: memory and disk, in step before, are in step after an operation if and only if a load opens its file or finds nothing in it, a set is refused before any load, or fits the format and opens the file or changes nothing, a clear opens the file or finds nothing to clear |
| `IniFile.HistoryOnDiskIff` | src/hostif/src/IniFile.cpp:31-106 | parsing the file gives the map in memory after each operation of a history if and only if every operation meets that condition |
| `IniFile.FilesHoldWhatWasSet` | src/hostif/src/IniFile.cpp:31-106 | after every such history each file parses to the entries set in it since its last clear, on top of what it held at first, and memory holds those of the current file |
| `IniFile.WriteThrough` | src/hostif/src/IniFile.cpp:31-106 | after every such history a fresh load of the current file changes nothing |
| `IniFile.LastSetWins` | src/hostif/src/IniFile.cpp:31-86 | for every history of loads, sets and clears, whether the opens succeed or not: value returns the last value set for the key, nothing after a clear, what the file held after a load, else the earlier value, and the default where there is none |
| `WebconfigSync.FirstDigitIsQuotient` | src/hostif/webconfig_lite/webconfig_lite.cpp:351 | the first digit through division of doubles is integer division by the greatest power of ten not above the code |
| `WebconfigSync.FourHundreds` | src/hostif/webconfig_lite/webconfig_lite.cpp:351-352 | for three-digit codes the test means 400 to 499 |
| `WebconfigSync.HandleHttpResponse` | src/hostif/webconfig_lite/webconfig_lite.cpp:284-368 | by response code: which responses end the run, which are reported at once and which only at retry 25, with what code and what outcome |
| `WebconfigSync.ProcessWebconfigSync` | src/hostif/webconfig_lite/webconfig_lite.cpp:198-259 | for every sequence of outcomes: the run ends at the first attempt whose response needs no retry, or whose fetch fails before any response, or at the 26th; whether the last attempt reports, and what |
| `WebconfigSync.ReportEndsTheRun` | src/hostif/webconfig_lite/webconfig_lite.cpp:284-367 | an attempt that sends a report is the last of the run |
| `WebconfigSync.AtMostOneReport` | src/hostif/webconfig_lite/webconfig_lite.cpp:198-369 | at most one report is sent |
| `WebconfigSync.FailedFetchEndsRunIff` | src/hostif/webconfig_lite/webconfig_lite.cpp:204-244 | defect with its exact condition: a fetch that fails ends the run, silently, if and only if no response was handled before, because rv starts out as SUCCESS |
| `WebconfigSync.ResponseEndsRunIff` | src/hostif/webconfig_lite/webconfig_lite.cpp:284-357 | exactly which responses end the run early |
| `Routing.LoadTable` | src/hostif/handlers/src/hostIf_msgHandler.cpp:229-308 | the table-building loop, with the manager name that carries over from line to line |
| `Routing.TableEntry` | src/hostif/handlers/src/hostIf_msgHandler.cpp:302-304 | a parameter maps to the manager in force at its last line that is not skipped, and is absent if there is none |
| `Routing.SkipsAsPromisedIff` | src/hostif/handlers/src/hostIf_msgHandler.cpp:211-307 | defect with its exact condition: lines with unknown managers are all skipped, as the log says, if and only if they all precede the known ones |
| `Routing.HostIfGetMgr` | src/hostif/handlers/src/hostIf_msgHandler.cpp:327-348 | the manager in the table of the first key in list order that is a prefix of the parameter, and 0 when there is none |
| `Routing.OrderIndependentIff` | src/hostif/handlers/src/hostIf_msgHandler.cpp:327-348 | every order of the keys selects the same manager for a parameter if and only if all matching keys carry the same manager |
| `Routing.TableIndependentIff` | src/hostif/handlers/src/hostIf_msgHandler.cpp:325-348 | routing never depends on the order if and only if a key and any longer key it is a prefix of carry the same manager |
| `Routing.WebConfigIsInherited` | conf/mgrlist.conf:1-16 | defect at its input: no build recognises the manager of the X_RDK_WebConfig line, and the parameter gets the manager of the line before it |
| `Routing.ShippedPairsIff` | conf/mgrlist.conf:1-16 | for the table built from the shipped list in any build, exactly two pairs of keys violate that condition: Device.DeviceInfo with Device.DeviceInfo.X_RDK_SNMP, and Device.X_RDK_ with Device.X_RDK_WebConfig |
| `Routing.ShippedRoutingIff` | conf/mgrlist.conf:1-16 | under the shipped list the manager of a parameter depends on the order of the keys if and only if the parameter starts with one of the two longer keys |
| `Routing.RecognisedAlways` | conf/mgrlist.conf:1-16 | the seven lines that every build recognises |
| `Routing.BuildExists` | src/hostif/handlers/src/hostIf_msgHandler.cpp:231-300 | there is a build for every choice of the seven optional managers |

## Left out

- The tokeniser of yajl and its UTF-8 checks: streams start at the events. A reply value of unknown type, which the code writes as a key without a value, is excluded by the six value types.
- The libraries around it (soup, curl, IARM, rbus, libparodus, safec, glib): their results are parameters. The string-length ceiling of safec's `strcpy_s` is not modelled.
- The profile handlers and their name dispatch, attribute requests, the GET branch of the HTTP server with its wildcard expansion and default values, value-change events, start-up and shut-down: they add branches without a property that spans them.
- The data model look-up and the wildcard test used by the HTTP server are parameters of `SetPipeline.Context`.
- The source name and the content type that sendNotification adds to every message.
- Allocation failures, and name lengths beyond the message buffers.
- Resets between the test of a loop and its update: each iteration of `sendAddRemoveEvents` is one step.
- The `UnsignedLong` value type: the SET pipeline never produces it, since unsigned longs become unsigned ints there.
- `stripSpaces`: the same in-place compaction as in `getKeyValue` with other characters.
- The reading of words by `fscanf`: the manager list is a sequence of word pairs. The hash table is taken as a map on strings although it is created with an integer comparison.
- InstancePaths.NestedPathRoundTrip: interface and instance numbers are below 10^9, because longer numbers do not match at all (`PrintedNumberMatches`).
- TableHandlers.IPClientReqHandler.CheckForUpdates: the interface count is below 100, the size of the counter arrays.
- TableHandlers.EthernetClientReqHandler.RunHistory: the counts read are not negative.
- MacNormalise.MacToLower: addresses of 32 bytes or more are excluded, because the copy in the 32-byte buffer is then not terminated.
- MacSubstitution.ReplaceMacWord: the word is not empty, because the counting loop does not end otherwise.
- ValueCodec.RoundTrip: unsigned numbers are at most INT_MAX; `UnsignedPreservedIff` says what happens above.
- NotificationHandOff.StepKeepsInv: push, pop, one send and the freeing are atomic steps; the one-millisecond wait of the pop is a pop that may find the queue empty.
