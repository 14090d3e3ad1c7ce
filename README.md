# Aseba bridges and HTTP switch: a verified model

This project models the sequential core of several Aseba programs and proves
properties about it in Dafny.

- **Medulla** is the bridge between an Aseba network and D-Bus. The model covers:
  - the conversions between D-Bus value lists and Aseba vectors;
  - the list of `GetVariable` calls that wait for a `Variables` reply;
  - the event-filter multimap and the node-name table;
  - variable-name resolution;
  - the hub's forwarding rule.
- **The HTTP switch** covers:
  - the per-connection response queues, the requests held for a variable's value, and the event subscriptions;
  - the route handlers (events, reset, load, node events, node info, variable or event) and their responsibility predicates;
  - the request object: blocking state, response, header lookup, and the reading of request line, header fields and Content-Length body (sections 3.1.1 and 3.3.2 of RFC 7230);
  - the JSON integer-array form parser.
- **The DNS-SD TXT record** of an Aseba target (section 6 of RFC 6763) covers the length-prefixed `key=value` strings, value truncation, and decimal and packed vector values.
- **The Scratch front end** covers:
  - clamping and the LED dial and colour-wheel vectors;
  - the per-node dial, LED and busy-motion state, and the motion arithmetic;
  - the write-through variable cache;
  - the fixed-layout `R_state` payload.

Outputs (D-Bus replies and signals, messages to nodes, stream writes) are recorded as values appended to output logs. Integers keep the source's widths where they matter: `short` and `unsigned` wrap-around, C's truncating `/` and `%`.

Files:

| file | module | contents |
|---|---|---|
| `common.dfy` | `Wrappers`, `CLib` | `Option`; C arithmetic, `find`, decimal numerals, `atoi` |
| `aseba_messages.dfy` | `AsebaTypes` | messages, node descriptions, named values |
| `medulla.dfy` | `Medulla` | the D-Bus network object and the hub |
| `http_request.dfy` | `HttpRequests` | `HttpRequest` and the request parser |
| `http_interface.dfy` | `HttpInterfaceState` | `HttpInterface`'s shared state and response queues |
| `json_form.dfy` | `JsonForm` | `parse_json_form` |
| `http_handlers.dfy` | `HttpHandlers` | the route handlers |
| `txt_record.dfy` | `Zeroconf` | `TxtRecord` |
| `scratch.dfy` | `Scratch` | `ScratchInterface` |

## Model

| member | source | states |
|---|---|---|
| AsebaTypes.IndexOfName | medulla/medulla.cpp:80-84 | the index of the first event with the name, no earlier one has it, and `None` exactly when none has it |
| AsebaTypes.FindVariable | medulla/medulla.cpp:350-357 | a described variable with the name, or `None` when no described variable has it |
| CLib.U32 | examples/clients/scratch/scratch.cpp:169 | conversion to `unsigned` keeps values below 2^32 and otherwise wraps modulo 2^32 |
| CLib.CDiv | examples/clients/scratch/scratch.cpp:131 | C division truncates toward zero: Euclidean for a non-negative dividend, the negated quotient of the negation otherwise |
| CLib.CRem | examples/clients/scratch/scratch.cpp:175 | C remainder: dividend = quotient * divisor + remainder, with the remainder taking the dividend's sign |
| CLib.Abs | examples/clients/scratch/scratch.cpp:293-294 | `abs`: the magnitude, the value or its negation |
| CLib.FindFrom | switches/http/HttpInterfaceHandlers.cpp:157 | the first occurrence at or after the start, none earlier; `None` when there is none |
| CLib.DigitChar | examples/clients/scratch/scratch.cpp:24-29 | a digit value is written as a decimal digit character |
| CLib.DigitValue | examples/clients/scratch/scratch.cpp:377 | a digit character reads as a value below 10, written back as the same character |
| CLib.Find | switches/http/HttpInterfaceHandlers.cpp:182 | `find` gives the first occurrence and `npos` when there is none |
| CLib.NatToDecimal | examples/clients/scratch/scratch.cpp:24-29 | a non-empty digit string without a leading zero |
| CLib.IntToDecimal | examples/clients/scratch/scratch.cpp:131 | digits, preceded by '-' exactly for negative values |
| CLib.LeadingDigits | examples/clients/scratch/scratch.cpp:377 | the longest digit prefix `atoi` reads |
| CLib.SkipSpaces | examples/clients/scratch/scratch.cpp:377 | the suffix after leading white space, which `atoi` skips |
| CLib.LeadingDigitsOfDigits | switches/http/HttpInterfaceHandlers.cpp:238 | `atoi` reads an all-digit token whole |
| CLib.NoSpacesBeforeDigit | examples/clients/scratch/scratch.cpp:377 | a token that starts with a digit has no space or sign for `atoi` to skip |
| CLib.AtoiOfDecimal | examples/clients/scratch/scratch.cpp:372-381 | `atoi` reads back every numeral `to_string` writes |
| CLib.AtoiOfNatural | examples/clients/scratch/scratch.cpp:24-29 | `atoi` of an unsigned numeral is its value |
| CLib.AtoiOfDigits | switches/http/HttpInterfaceHandlers.cpp:238 | `atoi` of a digit string is its decimal value |
| CLib.AtoiOfNegative | examples/clients/scratch/scratch.cpp:377 | `atoi` of '-' followed by a numeral is the negative value |
| CLib.DigitsValueOfDecimal | examples/clients/scratch/scratch.cpp:24-29 | a decimal numeral's digits have the numeral's value |
| CLib.DecimalInjective | examples/clients/scratch/scratch.cpp:304 | distinct integers have distinct numerals |
| Medulla.ToAsebaVector | medulla/medulla.cpp:51-58 | the Aseba vector has the list's length and elements, in order |
| Medulla.FromAsebaVector | medulla/medulla.cpp:60-66 | the D-Bus list has the vector's length and elements, in order |
| Medulla.VectorRoundTrip | medulla/medulla.cpp:51-66 | `fromAsebaVector(toAsebaVector(v)) == v` |
| Medulla.U16 | medulla/medulla.cpp:78-99 | an event index is narrowed to 16 bits; indexes below 2^16 are unchanged |
| Medulla.FirstWaiting | medulla/medulla.cpp:141-154 | the first pending read on (node, position), none before it; `None` when no read waits there |
| Medulla.AfterReplySkip | medulla/medulla.cpp:141-154 | a read waiting on another address stays in front of what the reply leaves |
| Medulla.ReplyAnswersOneWaiter | medulla/medulla.cpp:141-154 | a reply removes exactly one waiter on its address; duplicate waiters are not merged; with no waiter nothing is removed |
| Medulla.ReplyKeepsOthers | medulla/medulla.cpp:141-154 | the reads on other addresses stay, in their order |
| Medulla.WaiterFoundIffWaiting | medulla/medulla.cpp:141-154 | a reply finds a waiter exactly when some read waits on its address |
| Medulla.FiltersOfCount | medulla/medulla.cpp:162-169 | a filter gets an event once for every (event, filter) pair registered |
| Medulla.RemoveEntry | medulla/medulla.cpp:177-180 | `remove(key, value)` drops every equal pair and keeps the count of every other pair |
| Medulla.WithoutFilter | medulla/medulla.cpp:182-187 | no pair names the filter; every other pair keeps its count |
| Medulla.EventsOf | medulla/medulla.cpp:184 | every event the filter is registered under is listed |
| Medulla.WithoutNoEvents | medulla/medulla.cpp:182-187 | removing under no event changes nothing |
| Medulla.RemoveOneMoreEvent | medulla/medulla.cpp:184-186 | the loop body removes the filter's pairs under one more event |
| Medulla.AllEventsRemoved | medulla/medulla.cpp:182-187 | after every listed event, the filter's pairs are all gone and the rest stays in order |
| Medulla.ResolveVariable | medulla/medulla.cpp:337-402 | the user-defined map wins when it gives a position; the description is consulted only otherwise; `None` exactly when neither resolves |
| Medulla.EventName | medulla/medulla.cpp:162-165 | the event table's name for an event in range, "?" otherwise |
| Medulla.Signals | medulla/medulla.cpp:166-169 | one signal per filter, in order |
| Medulla.SignalsAppend | medulla/medulla.cpp:166-169 | one more filter gives one more signal at the end |
| Medulla.AsebaNetworkInterface.constructor | medulla/medulla.cpp:107-118 | empty registries, counter 0, empty logs |
| Medulla.AsebaNetworkInterface.ProcessMessage | medulla/medulla.cpp:120-158 | the message goes to the hub; a user message signals the filters; a `Variables` reply answers and drops the first matching pending read; other messages touch nothing else |
| Medulla.AsebaNetworkInterface.ProcessVariables | medulla/medulla.cpp:136-155 | pending reads become `AfterReply`; one reply goes to the first waiter, none when nothing waits |
| Medulla.AsebaNetworkInterface.SendEventOnDBus | medulla/medulla.cpp:160-170 | one signal, named by `EventName`, to exactly the filters under the event |
| Medulla.AsebaNetworkInterface.ListenEvent | medulla/medulla.cpp:172-175 | adds the pair; the filter now heads the event's list; other events are unchanged |
| Medulla.AsebaNetworkInterface.IgnoreEvent | medulla/medulla.cpp:177-180 | removes the pair; every other pair keeps its count |
| Medulla.AsebaNetworkInterface.FilterDestroyed | medulla/medulla.cpp:182-187 | afterwards no event maps to the filter; other pairs keep their counts |
| Medulla.AsebaNetworkInterface.ListenEventName | medulla/medulla.cpp:78-85 | listens under the named event, or replies with an error when no event has the name |
| Medulla.AsebaNetworkInterface.IgnoreEventName | medulla/medulla.cpp:92-99 | ignores under the named event, or replies with an error when no event has the name |
| Medulla.AsebaNetworkInterface.GetNodesList | medulla/medulla.cpp:279-287 | every known node name, each once, in `QMap` key order |
| Medulla.AsebaNetworkInterface.GetVariablesList | medulla/medulla.cpp:289-321 | empty for an unknown node; otherwise the described variables in order, then every user-defined name once, in `std::map` key order |
| Medulla.KeysInOrder | medulla/medulla.cpp:306-312 | a map's keys, each once, strictly increasing in the character-code order `std::map` and `QMap` iterate them |
| Medulla.FirstKeyExists | medulla/medulla.cpp:306-312 | a non-empty key set has a first key, before every other one |
| Medulla.AsebaNetworkInterface.SetVariable | medulla/medulla.cpp:323-362 | an error reply and no message for an unknown node or variable; otherwise one `SetVariables` at the resolved position |
| Medulla.AsebaNetworkInterface.GetVariable | medulla/medulla.cpp:364-419 | an error reply, no message and no pending read for an unknown node or variable; otherwise one `GetVariables` and one pending read appended at the end |
| Medulla.AsebaNetworkInterface.SendEvent | medulla/medulla.cpp:421-429 | local filters get the signal, then one user message goes to the network |
| Medulla.AsebaNetworkInterface.SendEventName | medulla/medulla.cpp:431-438 | sends by name, or replies with an error and sends nothing |
| Medulla.AsebaNetworkInterface.CreateEventFilter | medulla/medulla.cpp:440-445 | a new filter under `/events_filters/<counter>`; the counter goes up by one |
| Medulla.AsebaNetworkInterface.NodeDescriptionReceived | medulla/medulla.cpp:447-450 | the node's name maps to its id; an unknown id gets an empty description |
| Medulla.AsebaNetworkInterface.DescriptionReceived | medulla/medulla.cpp:447-450 | the description is stored and its name maps to the node |
| Medulla.DeliveriesAppend | medulla/medulla.cpp:487-504 | one more stream adds at most its own write at the end |
| Medulla.DeliveredTo | medulla/medulla.cpp:476-505 | a stream receives the message iff its write does not fail and, while forwarding, it is not the source; one failure does not stop the others |
| Medulla.Hub.constructor | medulla/medulla.cpp:460-474 | the streams and the forwarding flag as given; nothing written |
| Medulla.Hub.SendMessage | medulla/medulla.cpp:476-505 | writes exactly the `Deliveries`, in stream order |
| HttpRequests.Segments | switches/http/HttpRequest.h:54 | every piece is non-empty and free of the separator; the header declares only the member, and the rule is read from section 3.1.1 of RFC 7230 |
| HttpRequests.SplitOn | switches/http/HttpRequest.h:54 | path tokens are non-empty and contain no '/'; the header declares only the member, and the rule is read from section 3.1.1 of RFC 7230 |
| HttpRequests.SegmentsAbsorb | switches/http/HttpRequest.h:54 | separator-free text joins the current piece; the header declares only the member, and the rule is read from section 3.1.1 of RFC 7230 |
| HttpRequests.SegmentsOfJoin | switches/http/HttpRequest.h:54 | splitting a joined path gives the pieces after the current one; the header declares only the member, and the rule is read from section 3.1.1 of RFC 7230 |
| HttpRequests.SplitJoin | switches/http/HttpRequest.h:54 | splitting `/p1/p2/...` gives back `p1`, `p2`, ...; the header declares only the member, and the rule is read from section 3.1.1 of RFC 7230 |
| HttpRequests.StripEol | switches/http/HttpRequest.h:75 | the line without its end-of-line; the header declares only the member, and the rule is read from section 3.5 of RFC 7230 |
| HttpRequests.SkipBlanks | switches/http/HttpRequest.h:70 | the suffix of the text, starting at its first non-blank; the header declares only the member, and the rule is read from section 3.2 of RFC 7230 |
| HttpRequests.IndexOfChar | switches/http/HttpRequest.h:70 | the first occurrence of the character, or `None` when it is absent; the header declares only the member, and the rule is read from section 3.2 of RFC 7230 |
| HttpRequests.ParseRequestLine | switches/http/HttpRequest.h:69 | a request line is exactly three space-separated words; the header declares only the member, and the rule is read from section 3.1.1 of RFC 7230 |
| HttpRequests.ParseHeaderField | switches/http/HttpRequest.h:70 | the name has no colon; `None` iff the line has no colon; the header declares only the member, and the rule is read from section 3.2 of RFC 7230 |
| HttpRequests.ReadContent | switches/http/HttpRequest.h:36-71 | no Content-Length gives an empty body; otherwise exactly that many bytes, refused above the 40000-byte limit or beyond the data; the header declares only the member, and the rule is read from section 3.3.2 of RFC 7230 |
| HttpRequests.FirstBlank | switches/http/HttpRequest.h:70 | the first blank line, with none before it; the header declares only the member, and the rule is read from section 3 of RFC 7230 |
| HttpRequests.Fields | switches/http/HttpRequest.h:70 | succeeds iff every line is a header field; keeps earlier fields; the header declares only the member, and the rule is read from section 3.2 of RFC 7230 |
| HttpRequests.AllFieldLinesTail | switches/http/HttpRequest.h:70 | a block is all fields iff its head and its tail are; the header declares only the member, and the rule is read from section 3.2 of RFC 7230 |
| HttpRequests.ParseRequest | switches/http/HttpRequest.h:41 | tokens are the split URI, each a non-empty piece without '/'; the body is within the limit; no lines means no request; the header declares only the member, and the rule is read from section 3 of RFC 7230 |
| HttpRequests.HttpRequest.constructor | tests/test-http.cpp:63-70 | a fresh request has empty method, URI, protocol, tokens, headers and content |
| HttpRequests.HttpRequest.SetBlocking | switches/http/HttpRequest.h:44-48 | blocking is set; a blocking request is never ready; otherwise ready iff a response exists |
| HttpRequests.HttpRequest.IsBlocking | switches/http/HttpRequest.h:49 | returns the blocking flag |
| HttpRequests.HttpRequest.GetHeader | switches/http/HttpRequest.h:58-66 | the stored value of a present header, "" for an absent one |
| HttpRequests.HttpRequest.Respond | switches/http/HttpRequest.h:42 | the response is created once and kept afterwards |
| HttpRequests.HttpRequest.SetStatus | switches/http/HttpInterfaceHandlers.cpp:157 | only the response's status changes |
| HttpRequests.HttpRequest.SetHeader | switches/http/HttpInterfaceHandlers.cpp:78-80 | only that header of the response changes |
| HttpRequests.HttpRequest.SetContent | switches/http/HttpInterfaceHandlers.cpp:293 | only the response's body changes |
| HttpRequests.HttpRequest.Send | switches/http/HttpInterfaceHandlers.cpp:81 | only the response's sent flag changes |
| HttpRequests.HttpRequest.Receive | switches/http/HttpRequest.h:41-71 | valid iff the request parses; the fields then hold what was parsed, and are unchanged otherwise |
| HttpRequests.HttpRequest.Store | switches/http/HttpRequest.h:84-89 | the fields hold the received request |
| HttpRequests.ReadHeaders | switches/http/HttpRequest.h:70 | the loop computes `Fields` of the header block |
| HttpRequests.StripCrLf | switches/http/HttpRequest.h:75 | a CRLF line loses exactly its CRLF |
| HttpRequests.RequestLineWords | switches/http/HttpRequest.h:69 | `verb target protocol` CRLF reads as those three words |
| HttpRequests.IndexPastPrefix | switches/http/HttpRequest.h:70 | the first colon after a colon-free name is at the name's length |
| HttpRequests.SkipOneBlank | switches/http/HttpRequest.h:70 | one blank before a value is skipped |
| HttpRequests.ColonAfterName | switches/http/HttpRequest.h:70 | in `name: value` the colon follows the name |
| HttpRequests.HeaderFieldLine | switches/http/HttpRequest.h:70 | `name: value` CRLF reads back as (name, value) |
| HttpRequests.ContentLengthField | tests/test-http.cpp:89-99 | `Content-Length: 19` reads as that field |
| HttpRequests.FirstTestHeaders | tests/test-http.cpp:89-99 | the first test's header block holds Content-Length 19 |
| HttpRequests.DigitsNineteen | tests/test-http.cpp:97-98 | "19" is digits of value 19 |
| HttpRequests.AtoiNineteen | tests/test-http.cpp:97-98 | `atoi("19") == 19` |
| HttpRequests.FirstTestContent | tests/test-http.cpp:97-98 | the body is the 19-byte payload |
| HttpRequests.FirstTestLineText | tests/test-http.cpp:89-99 | the request line is its three words joined |
| HttpRequests.FirstTestLine | tests/test-http.cpp:89-99 | `GET /uri/a/b/c HTTP/1.1` parses to its three words |
| HttpRequests.FirstTestTokens | tests/test-http.cpp:94-96 | `/uri/a/b/c` splits into uri, a, b, c |
| HttpRequests.FirstTestRequest | tests/test-http.cpp:89-99 | the whole first request: method, URI, tokens, header and 19-byte body |
| HttpRequests.SecondTestLine | tests/test-http.cpp:101-111 | `GET /uri HTTP/1.1` parses to its three words |
| HttpRequests.SecondTestTokens | tests/test-http.cpp:107-109 | `/uri` splits into the single token uri |
| HttpRequests.SecondTestRequest | tests/test-http.cpp:101-111 | the second request has URI `/uri`, token uri and empty content |
| HttpInterfaceState.Names | switches/http/HttpInterfaceHandlers.cpp:73-75 | the set of names in the list |
| HttpInterfaceState.HoldIn | switches/http/HttpInterfaceHandlers.cpp:346 | the request joins the set for its address; no other address changes |
| HttpInterfaceState.RemoveAll | switches/http/http.h:107 | the request is gone; the rest comes from the queue |
| HttpInterfaceState.Scheduled | switches/http/http.h:105 | the stream now has a queue; `ScheduleAppends` proves the request joins its tail and other streams keep theirs |
| HttpInterfaceState.Unscheduled | switches/http/http.h:107 | the stream now has a queue; `UnscheduleKeepsOthers` proves the request leaves it, the rest stay in order and other streams keep theirs |
| HttpInterfaceState.UnscheduledAll | switches/http/http.h:108 | the stream now has a queue; `UnscheduleAllEmpties` proves it is empty and other streams keep theirs |
| HttpInterfaceState.ScheduleAppends | tests/test-http.cpp:136-150 | scheduling appends to the tail of the stream's queue; other streams are untouched |
| HttpInterfaceState.UnscheduleKeepsOthers | tests/test-http.cpp:176-179 | unscheduling removes the request, keeps the rest in order, and leaves other streams alone |
| HttpInterfaceState.RemoveAbsent | tests/test-http.cpp:180-186 | removing an absent request changes nothing |
| HttpInterfaceState.RemoveAppend | tests/test-http.cpp:176-179 | removal distributes over concatenation, so order is kept |
| HttpInterfaceState.RemoveCounts | tests/test-http.cpp:176-179 | every other request keeps its number of occurrences |
| HttpInterfaceState.UnscheduleAbsent | tests/test-http.cpp:180-186 | unscheduling a request not queued is a no-op |
| HttpInterfaceState.UnscheduleIdempotent | tests/test-http.cpp:180-186 | unscheduling twice is unscheduling once |
| HttpInterfaceState.UnscheduleAllEmpties | tests/test-http.cpp:187-190 | the stream's queue is empty; other streams are untouched |
| HttpInterfaceState.QueueScenario | tests/test-http.cpp:125-197 | the test's scheduling and unscheduling sequence yields the asserted queues |
| HttpInterfaceState.HttpInterface.constructor | switches/http/http.h:77-94 | all maps and logs start empty |
| HttpInterfaceState.HttpInterface.Subscribe | switches/http/HttpInterfaceHandlers.cpp:73-75 | the request's set becomes the old set plus the names |
| HttpInterfaceState.HttpInterface.Hold | switches/http/HttpInterfaceHandlers.cpp:346 | the waiters become `HoldIn` |
| HttpInterfaceState.HttpInterface.ScheduleResponse | switches/http/http.h:105 | the queues become `Scheduled` |
| HttpInterfaceState.HttpInterface.UnscheduleResponse | switches/http/http.h:107 | the loop leaves the queues as `Unscheduled` |
| HttpInterfaceState.HttpInterface.UnscheduleAllResponses | switches/http/http.h:108 | the queues become `UnscheduledAll` |
| HttpInterfaceState.HttpInterface.Emit | switches/http/HttpInterfaceHandlers.cpp:108-111 | the action is appended to the log |
| JsonForm.SkipWs | switches/http/http.h:115 | the first non-white-space position at or after the start |
| JsonForm.SkippedSpaces | switches/http/http.h:115 | everything skipped is white space |
| JsonForm.DigitsEnd | switches/http/http.h:115 | the end of the digit run |
| JsonForm.DigitsRun | switches/http/http.h:115 | everything stepped over is a digit |
| JsonForm.NumeralAt | switches/http/http.h:115 | the end of an integer literal, or `None` exactly when none starts there |
| JsonForm.NumeralIsNumeral | switches/http/http.h:115 | the delimited text is an integer literal |
| JsonForm.ElementsAreNumerals | switches/http/http.h:115 | every element read is an integer literal |
| JsonForm.NumeralsCons | switches/http/http.h:115 | a literal in front of literals gives literals |
| JsonForm.ParseJsonForm | switches/http/http.h:115 | the result holds only integer literals; blank input gives nothing; success means the first non-blank is '[' |
| JsonForm.ParseJsonFormInto | switches/http/http.h:115 | the values gain the parsed elements, or stay as they were |
| JsonForm.Joined | switches/http/http.h:115 | a rendered list starts with a digit or '-' |
| JsonForm.Numerals | switches/http/http.h:115 | one numeral per value |
| JsonForm.DigitsEndOver | switches/http/http.h:115 | a digit run followed by a non-digit ends there |
| JsonForm.NumeralOfDecimalAt | switches/http/http.h:115 | a decimal numeral followed by a non-digit is read whole |
| JsonForm.LastStep | switches/http/http.h:115 | a numeral, ']' and the end read as the last element |
| JsonForm.ConsStep | switches/http/http.h:115 | a numeral and ',' put one element in front of the rest |
| JsonForm.LastPartsAt | switches/http/http.h:115 | a single rendered value ends just before the closing ']' |
| JsonForm.JoinedLastAt | switches/http/http.h:115 | one rendered value reads back as its numeral |
| JsonForm.JoinedParts | switches/http/http.h:115 | a rendered list is its first numeral, ',' and the rest |
| JsonForm.JoinedTailAt | switches/http/http.h:115 | the first numeral and comma are followed by the rest of the list |
| JsonForm.NextElementAt | switches/http/http.h:115 | after the first numeral and comma, the rest reads back |
| JsonForm.ElementsOfJoinedAt | switches/http/http.h:115 | a rendered list reads back as its numerals |
| JsonForm.ParseRender | switches/http/http.h:115 | every rendered integer array parses to its numerals in order |
| JsonForm.RenderedValues | switches/http/http.h:115 | the parsed texts convert back to the rendered values |
| JsonForm.EmptyBody | tests/test-http.cpp:201-209 | "" yields nothing |
| JsonForm.OneElement | tests/test-http.cpp:217-225 | "[42]" yields ["42"] |
| JsonForm.NoElement | tests/test-http.cpp:227-234 | "[]" yields no values |
| JsonForm.WhiteSpaceAround | tests/test-http.cpp:245-254 | white space around the array and elements is allowed: ["42", "63"] |
| JsonForm.SpacedSecond | tests/test-http.cpp:245-254 | the second element is found past the white space |
| JsonForm.BadSeparator | tests/test-http.cpp:256-263 | "[42;63]" yields nothing |
| JsonForm.NoOpening | tests/test-http.cpp:265-272 | "42,63]" yields nothing |
| JsonForm.NoClosing | tests/test-http.cpp:274-281 | "[42,63" yields nothing |
| JsonForm.StringElement | tests/test-http.cpp:236-243 | an array with a string element yields nothing (all or nothing) |
| JsonForm.StringAfterFirst | tests/test-http.cpp:236-243 | reading stops at the string element |
| JsonForm.StringAfterSecond | tests/test-http.cpp:236-243 | reading fails after the second element |
| JsonForm.ObjectBody | tests/test-http.cpp:283-290 | a top-level object yields nothing |
| JsonForm.ObjectElement | tests/test-http.cpp:292-300 | an array with an object element yields nothing |
| JsonForm.ObjectAfterFirst | tests/test-http.cpp:292-300 | reading fails at the object element |
| HttpHandlers.FindAtStart | switches/http/HttpInterfaceHandlers.cpp:182 | `find(p) == 0` iff `p` is a prefix |
| HttpHandlers.ResponsibilityRules | switches/http/HttpInterfaceHandlers.cpp:145-217 | node events iff at least two tokens and the second starts with "events"; load implies node info; node events excludes both others |
| HttpHandlers.Subscribed | switches/http/HttpInterfaceHandlers.cpp:70-76 | "*" for one token; exactly the tokens after the first otherwise |
| HttpHandlers.EventStreamHeaders | switches/http/HttpInterfaceHandlers.cpp:78-80 | the text/event-stream, no-cache and keep-alive headers are set; other headers are kept |
| HttpHandlers.HandleSubscription | switches/http/HttpInterfaceHandlers.cpp:67-83 | the subscription set gains `Subscribed`; the headers are sent; the request blocks and is never ready |
| HttpHandlers.SubscriptionUnion | switches/http/HttpInterfaceHandlers.cpp:70-76 | earlier subscriptions are kept: the set union |
| HttpHandlers.LoadedScript | switches/http/HttpInterfaceHandlers.cpp:156-166 | `None` iff the body has no "file="; otherwise the rest, of length size − pos − 5 |
| HttpHandlers.LoadActions | switches/http/HttpInterfaceHandlers.cpp:160-165 | one load per selected node, in order |
| HttpHandlers.HandleLoad | switches/http/HttpInterfaceHandlers.cpp:150-167 | 400 and no load without "file="; otherwise every selected node is loaded with the script |
| HttpHandlers.CommaListLength | switches/http/HttpInterfaceHandlers.cpp:231-236 | the length of a comma list |
| HttpHandlers.OffsetPrefix | switches/http/HttpInterfaceHandlers.cpp:231-236 | a member's position depends only on those before it |
| HttpHandlers.CommaListMember | switches/http/HttpInterfaceHandlers.cpp:231-236 | every member sits at its offset, followed by a comma unless it is last |
| HttpHandlers.MemberBeforeLast | switches/http/HttpInterfaceHandlers.cpp:231-236 | appending keeps the earlier members in place |
| HttpHandlers.CommaBeforeLast | switches/http/HttpInterfaceHandlers.cpp:231-236 | appending keeps the earlier commas, and puts one before the new member |
| HttpHandlers.LastMember | switches/http/HttpInterfaceHandlers.cpp:231-236 | the last member closes the list |
| HttpHandlers.PrefixOccurs | switches/http/HttpInterfaceHandlers.cpp:231-236 | text already written stays where it is when more is appended |
| HttpHandlers.ListEntries | switches/http/HttpInterfaceHandlers.cpp:231-236 | one {node, name, protocolVersion} entry per description, in map order |
| HttpHandlers.IndexOfNode | switches/http/HttpInterfaceHandlers.cpp:251 | `allVariables.find(node)`: the node's entry, or `None` |
| HttpHandlers.NamedVariablesLeak | switches/http/HttpInterfaceHandlers.cpp:251-257 | as written, a later node's variables appear in an earlier node's output; corrected, only its own do |
| HttpHandlers.OneMember | switches/http/HttpInterfaceHandlers.cpp:253-256 | one variable is written as `"name":size` |
| HttpHandlers.IndexOfNodeAppend | switches/http/HttpInterfaceHandlers.cpp:251 | another node's entry does not move the node's entry |
| HttpHandlers.NamedVariablesIgnoreOthers | switches/http/HttpInterfaceHandlers.cpp:249-263 | the node's `namedVariables` do not depend on any other node's variables |
| HttpHandlers.NodeDetail | switches/http/HttpInterfaceHandlers.cpp:240-285 | the one-node object extends its head (the `namedVariables` as the handler writes them: the node's and every later node's compiled variables; see Findings) |
| HttpHandlers.FirstMatch | switches/http/HttpInterfaceHandlers.cpp:238-286 | a found index is in range; `FirstMatchSound`, `FirstMatchIs` and `FirstMatchNone` prove it is the first node whose id is `atoi` of the token or whose name starts with it |
| HttpHandlers.FirstMatchSound | switches/http/HttpInterfaceHandlers.cpp:238-286 | the found node matches (id == atoi(token) or name prefix); no earlier node does |
| HttpHandlers.FirstMatchIs | switches/http/HttpInterfaceHandlers.cpp:238-286 | the first matching node is the one found |
| HttpHandlers.FirstMatchNone | switches/http/HttpInterfaceHandlers.cpp:238-291 | no matching node, nothing found |
| HttpHandlers.NodeListJson | switches/http/HttpInterfaceHandlers.cpp:229-237 | the listing is at least "[]"; `NodeListing` proves every description's entry appears in order inside the brackets, comma-separated |
| HttpHandlers.ListingStep | switches/http/HttpInterfaceHandlers.cpp:231-236 | one more pass of the loop adds the next entry |
| HttpHandlers.SelectedAt | switches/http/HttpInterfaceHandlers.cpp:238-286 | the first selected node's object is written (the `namedVariables` as the handler writes them: the node's and every later node's compiled variables; see Findings) |
| HttpHandlers.NodeListing | switches/http/HttpInterfaceHandlers.cpp:221-237 | with no token, each description's entry appears in the array, in order, comma-separated |
| HttpHandlers.ListedAt | switches/http/HttpInterfaceHandlers.cpp:231-236 | entry k sits at its offset inside the brackets |
| HttpHandlers.NodeSelection | switches/http/HttpInterfaceHandlers.cpp:238-291 | with a token: the first matching node's object, or "[]" when none matches (the `namedVariables` as the handler writes them: the node's and every later node's compiled variables; see Findings) |
| HttpHandlers.InfoListing | switches/http/HttpInterfaceHandlers.cpp:221-237 | no tokens gives the full listing |
| HttpHandlers.InfoNone | switches/http/HttpInterfaceHandlers.cpp:290-291 | no match gives "[]" |
| HttpHandlers.InfoSelected | switches/http/HttpInterfaceHandlers.cpp:238-286 | a match gives the first matching node's object (the `namedVariables` as the handler writes them: the node's and every later node's compiled variables; see Findings) |
| HttpHandlers.WriteListEntry | switches/http/HttpInterfaceHandlers.cpp:233-235 | a comma unless first, then the entry |
| HttpHandlers.HandleNodeInfo | switches/http/HttpInterfaceHandlers.cpp:219-294 | the response body is `NodeInfoJson` (the `namedVariables` as the handler writes them: the node's and every later node's compiled variables; see Findings) |
| HttpHandlers.WriteNodeInfo | switches/http/HttpInterfaceHandlers.cpp:221-291 | the loop writes `NodeInfoJson` (the `namedVariables` as the handler writes them: the node's and every later node's compiled variables; see Findings) |
| HttpHandlers.Step | switches/http/HttpInterfaceHandlers.cpp:314-365 | an event iff the name is an event, with data [name] + tokens[2..] for three or more tokens and just [name] otherwise, since the body is parsed from its end as written (see Findings); set iff POST or at least 3 tokens, with values tokens[1..] for three or more tokens and otherwise the name followed by the parsed body; get at the resolved address; unknown otherwise |
| HttpHandlers.EventData | switches/http/HttpInterfaceHandlers.cpp:351-365 | the event data evidently meant: the name first, then tokens[2..] for three or more tokens |
| HttpHandlers.EventBodyDropped | switches/http/HttpInterfaceHandlers.cpp:360 | as written, a `POST` to an event with a non-empty array body sends only the name; the intended data has one more element per value |
| HttpHandlers.PostSetsBody | switches/http/HttpInterfaceHandlers.cpp:314-323 | a two-token `POST` of a rendered array to a name that is not an event sets that name, then every value's numeral in order, each read back by `atoi` as the value |
| HttpHandlers.EventDataCarriesBody | switches/http/HttpInterfaceHandlers.cpp:356-362 | with the intended parse, a `POST` event sends the name, then every value of the body, in order |
| HttpHandlers.HandleVariableOrEvent | switches/http/HttpInterfaceHandlers.cpp:307-367 | the effects are `Handled` over the selected nodes; an event `POST` with two tokens sends only the name, as written (see `Step`) |
| HttpHandlers.HandleNode | switches/http/HttpInterfaceHandlers.cpp:314-365 | one node's effects are `Apply` of its `Step` |
| HttpHandlers.EventsHoldNothing | switches/http/HttpInterfaceHandlers.cpp:351-365 | an event never touches `pendingVariables` |
| HttpHandlers.HeldStays | switches/http/HttpInterfaceHandlers.cpp:333-350 | held requests stay held |
| HttpHandlers.ReadIsHeld | switches/http/HttpInterfaceHandlers.cpp:335-349 | a known variable's read holds the request at (node, start) |
| HttpHandlers.UnknownReads | switches/http/HttpInterfaceHandlers.cpp:335-341 | an unknown variable answers 404 and holds nothing |
| HttpHandlers.ResetStream | switches/http/HttpInterfaceHandlers.cpp:105-125 | `Reset` then `Run` on the stream, then only node-side actions |
| HttpHandlers.ResetThenRunAppend | switches/http/HttpInterfaceHandlers.cpp:99-132 | the reset-then-run order survives concatenation |
| HttpHandlers.ResetRoundThenRun | switches/http/HttpInterfaceHandlers.cpp:105-127 | one description's reset restarts every node right after resetting it |
| HttpHandlers.ResetAllThenRun | switches/http/HttpInterfaceHandlers.cpp:99-132 | the whole reset never resets without restarting right after |
| HttpHandlers.ResetThrough | switches/http/HttpInterfaceHandlers.cpp:106-125 | the log gains `ResetStream` |
| HttpHandlers.ResetRoundThrough | switches/http/HttpInterfaceHandlers.cpp:105-127 | the log gains `ResetRound` |
| HttpHandlers.HandleReset | switches/http/HttpInterfaceHandlers.cpp:97-132 | the log gains `ResetAll`; the response is created when there are descriptions |
| Zeroconf.LowByte | common/zeroconf/txtrecord.cpp:53-74 | `put` keeps the low byte: below 256 and congruent modulo 256 |
| Zeroconf.Truncated | common/zeroconf/txtrecord.cpp:57-60 | at most 20 bytes, a prefix of the value |
| Zeroconf.PackedPairAsWritten | common/zeroconf/txtrecord.cpp:74 | as written the first byte is always 0 and the second is `value % 0xff` |
| Zeroconf.PackedPairLosesHighByte | common/zeroconf/txtrecord.cpp:74 | as written, 255 packs like 0 and 256 like 1 |
| Zeroconf.PackedAsWritten | common/zeroconf/txtrecord.cpp:70-76 | the packing as written: two bytes per element, each a byte |
| Zeroconf.PackedAsWrittenElement | common/zeroconf/txtrecord.cpp:73-74 | element i sits at bytes 2i and 2i+1 as its as-written pair |
| Zeroconf.StoredIdsCollide | common/zeroconf/txtrecord.cpp:74 | as written, the id lists [0] and [255] are stored alike, and so are [1] and [256] |
| Zeroconf.PackedPair | common/zeroconf/txtrecord.cpp:68-74 | two bytes per element |
| Zeroconf.PackedPairValue | common/zeroconf/txtrecord.cpp:68-74 | the big-endian pair holds the element modulo 2^16, exactly for unsigned 16-bit values |
| Zeroconf.Packed | common/zeroconf/txtrecord.cpp:70-76 | 2n bytes for n elements |
| Zeroconf.PackedElement | common/zeroconf/txtrecord.cpp:73-74 | element i sits at bytes 2i and 2i+1 |
| Zeroconf.Unpacked | common/zeroconf/txtrecord.cpp:69 | the element count is half the value's length |
| Zeroconf.PackedPairReadsBack | common/zeroconf/txtrecord.cpp:68-74 | an unsigned 16-bit element reads back from its big-endian pair |
| Zeroconf.UnpackedSnoc | common/zeroconf/txtrecord.cpp:70-76 | one more packed pair unpacks to one more element at the end |
| Zeroconf.UnpackPacked | common/zeroconf/txtrecord.cpp:68-76 | unsigned 16-bit elements read back from their packing, in order |
| Zeroconf.StoredIdsReadBack | common/zeroconf/txtrecord.cpp:42-76 | with the intended packing, up to ten ids are stored whole and read back (the corrected half of the Findings row) |
| Zeroconf.RecordFields | common/zeroconf/txtrecord.cpp:31-40 | present iff all five keys exist (`fields.at`), in fixed order |
| Zeroconf.SplitFields | common/zeroconf/txtrecord.cpp:52 | one field per string |
| Zeroconf.SplitOfField | common/zeroconf/txtrecord.cpp:52 | `key=value` splits back into key and value |
| Zeroconf.EntryStrings | common/zeroconf/txtrecord.cpp:50-55 | a length byte and `key=value` read back as one string |
| Zeroconf.DecodeCons | common/zeroconf/txtrecord.cpp:50-55 | one `key=value` entry in front of a decodable record decodes to one more pair in front |
| Zeroconf.DecodeEntries | common/zeroconf/txtrecord.cpp:31-55 | decoding the entries gives the fields back, in order |
| Zeroconf.InitialFields | common/zeroconf/txtrecord.cpp:42-49 | the constructor's fields are valid, with txtvers "1"; ids and pids are packed as written |
| Zeroconf.InitialFieldsValid | common/zeroconf/txtrecord.cpp:42-49 | five keys with values that fit are valid |
| Zeroconf.TxtRecord.constructor | common/zeroconf/txtrecord.cpp:42-49 | the fields are `InitialFields`, and the record is valid; ids and pids are packed as written |
| Zeroconf.TxtRecord.AssignString | common/zeroconf/txtrecord.cpp:57-60 | the key maps to the truncated value, replacing an earlier one; validity kept |
| Zeroconf.TxtRecord.AssignInt | common/zeroconf/txtrecord.cpp:62-67 | the key maps to the decimal numeral; validity kept |
| Zeroconf.TxtRecord.AssignVector | common/zeroconf/txtrecord.cpp:70-76 | the key maps to the truncated packing as written; validity kept |
| Zeroconf.TxtRecord.Record | common/zeroconf/txtrecord.cpp:31-40 | a valid record always serialises |
| Zeroconf.DecimalLength | common/zeroconf/txtrecord.cpp:62-67 | a number below 10^k has at most k digits |
| Zeroconf.Power10 | common/zeroconf/txtrecord.cpp:62-67 | powers of ten are positive |
| Zeroconf.DecimalOfInt32Fits | common/zeroconf/txtrecord.cpp:62-67 | an `int`'s numeral has at most 11 characters, so it is never cut |
| Zeroconf.TenDigits | common/zeroconf/txtrecord.cpp:62-67 | 10^10 |
| Zeroconf.StoredIntReadsBack | common/zeroconf/txtrecord.cpp:62-67 | a stored integer reads back with `atoi` |
| Zeroconf.StoredVector | common/zeroconf/txtrecord.cpp:70-76 | min(2n, 20) bytes are kept; element i of the first ten is its as-written pair: a zero byte, then a non-negative element's remainder by 255 |
| Zeroconf.LengthPrefix | common/zeroconf/txtrecord.cpp:50-60 | the length byte is len(key=value), at most key length + 21 |
| Zeroconf.RecordDecodes | common/zeroconf/txtrecord.cpp:31-55 | a valid record decodes to txtvers, protovers, type, ids, pids in that order |
| Zeroconf.FizbinFields | common/zeroconf/txtrecord.cpp:42-49 | the sample target's ids, pids, version and type values |
| Scratch.Clamp | examples/clients/scratch/scratch.cpp:31-34 | min below, max above, the value otherwise; in [min, max] when min ≤ max |
| Scratch.ClampIdempotent | examples/clients/scratch/scratch.cpp:31-34 | clamping twice is clamping once |
| Scratch.ToShort | examples/clients/scratch/scratch.cpp:377 | conversion to `short` wraps modulo 2^16 |
| Scratch.Stoi | examples/clients/scratch/scratch.cpp:131 | when `stoi` succeeds, it agrees with `atoi` |
| Scratch.StoiOfDecimal | examples/clients/scratch/scratch.cpp:131 | every `int` numeral reads back |
| Scratch.Numerals | examples/clients/scratch/scratch.cpp:24-29 | one numeral per value |
| Scratch.NumeralsReadBack | examples/clients/scratch/scratch.cpp:24-29 | each numeral is digits and reads back as its value |
| Scratch.NumeralsOfZeros | examples/clients/scratch/scratch.cpp:192-207 | zeros are written "0" |
| Scratch.AppendNumerals | examples/clients/scratch/scratch.cpp:24-29 | the result is followed by the values' numerals |
| Scratch.CircleLeds | examples/clients/scratch/scratch.cpp:385-395 | 8 values in {0, 8, 24, 32}: 32 at ring (dial/72)%9, 24 at ring (dial/8)%9 unless overwritten, 8 at dial%8 unless overwritten |
| Scratch.LedsCircleVector | examples/clients/scratch/scratch.cpp:385-395 | "V_leds_circle" and 8 values |
| Scratch.RgbLeds | examples/clients/scratch/scratch.cpp:397-413 | 3 components in [0, 33]; on the wheel one is 33 and one is 0; off the wheel all 0 |
| Scratch.RgbWheelContinuous | examples/clients/scratch/scratch.cpp:397-413 | neighbouring colours differ by at most one level per component |
| Scratch.LedsTopVector | examples/clients/scratch/scratch.cpp:397-413 | "V_leds_top" and 3 values |
| Scratch.LedsBottomVector | examples/clients/scratch/scratch.cpp:226-231 | "V_leds_bottom", the side, and 3 values |
| Scratch.BottomFromTop | examples/clients/scratch/scratch.cpp:219-260 | the bottom arguments are the top ones renamed with the side inserted |
| Scratch.MoveMotion | examples/clients/scratch/scratch.cpp:291-301 | both wheels share one signed speed, positive iff mm > 0; the speed and time follow from \|mm\| clamped to [20, 150] |
| Scratch.MoveTime | examples/clients/scratch/scratch.cpp:293-294 | the time is 5·\|mm\| below 20 and 100 ticks within [20, 150] |
| Scratch.NextDialValue | examples/clients/scratch/scratch.cpp:173-188 | defined iff the limit is not 0; the next dial value below the limit, wrapping to 0 |
| Scratch.DialLimitOfPositive | examples/clients/scratch/scratch.cpp:175 | a positive argument's limit is its remainder by 648, zero for a multiple of 648 |
| Scratch.DialLimitOfNegative | examples/clients/scratch/scratch.cpp:175 | a negative argument wraps to a huge unsigned limit |
| Scratch.Slots | examples/clients/scratch/scratch.cpp:224-231 | bit 0 selects the top LED, bit 1 the left bottom LED, bit 2 the right bottom LED |
| Scratch.LedMask | examples/clients/scratch/scratch.cpp:222-238 | `n & 7` is below 8 |
| Scratch.SlotsOfMasks | examples/clients/scratch/scratch.cpp:224-231 | masks 1, 2 and 4 select one slot each; 7 selects all; 0 selects none |
| Scratch.PaintedSlots | examples/clients/scratch/scratch.cpp:202-231 | exactly the selected slots of the node change, to the value |
| Scratch.Shifted | examples/clients/scratch/scratch.cpp:241-253 | the moved colour is on the wheel, (level + delta) % 198 without overflow |
| Scratch.Pow2 | examples/clients/scratch/scratch.cpp:701-705 | powers of two are positive |
| Scratch.ButtonAlwaysReleased | examples/clients/scratch/scratch.cpp:701-705 | as written, every button reads 0 |
| Scratch.Button | examples/clients/scratch/scratch.cpp:641-705 | a button bit is 0 or 1 |
| Scratch.ButtonsRecombine | examples/clients/scratch/scratch.cpp:641-643 | the five bits give back the low five bits of the buttons word |
| Scratch.LowBits | examples/clients/scratch/scratch.cpp:641-643 | the first k bits add up to the value modulo 2^k |
| Scratch.SplitMod | examples/clients/scratch/scratch.cpp:701-705 | the remainder modulo 2p is the remainder modulo p plus p times the next bit |
| Scratch.DivModUnique | examples/clients/scratch/scratch.cpp:701-705 | quotient and remainder are unique for a positive divisor |
| Scratch.StateEntries | examples/clients/scratch/scratch.cpp:699-722 | one entry per state variable, named in payload order; each button as written, `(value >> k) % 1` |
| Scratch.ShortStatePasses | examples/clients/scratch/scratch.cpp:82-87 | a one-value payload passes the guard as written but is too short |
| Scratch.StateGuardSuffices | examples/clients/scratch/scratch.cpp:82-87 | the corrected guard admits payloads the report can read |
| Scratch.LimitBeforeNextDial | examples/clients/scratch/scratch.cpp:173-188 | "scratch_next_dial_limit" takes the limit branch, although "scratch_next_dial" is its prefix |
| Scratch.DiffersAt | examples/clients/scratch/scratch.cpp:127-188 | a command name that differs from a prefix at some position does not start with it, so `find(...)==0` skips that branch |
| Scratch.WrittenValues | examples/clients/scratch/scratch.cpp:375-377 | one cached value per argument after the name |
| Scratch.WrittenValuesStep | examples/clients/scratch/scratch.cpp:376-377 | one more argument caches one more value, `atoi` as `short` |
| Scratch.WrittenNumber | examples/clients/scratch/scratch.cpp:372-381 | a write of one integer caches it as `short` |
| Scratch.ZeroWritten | examples/clients/scratch/scratch.cpp:160-163 | writing "0" caches 0 |
| Scratch.WriteThrough | examples/clients/scratch/scratch.cpp:434-444 | a resolved address takes the values and other addresses keep theirs; an unresolved name changes nothing |
| Scratch.ShiftedLevels | examples/clients/scratch/scratch.cpp:241-253 | three moved colours |
| Scratch.RecolouredSlots | examples/clients/scratch/scratch.cpp:239-257 | exactly the selected slots move round the wheel, each from its own level |
| Scratch.DialsSet | examples/clients/scratch/scratch.cpp:167-172 | every named node's dial is the value; others are kept |
| Scratch.DialsSetStep | examples/clients/scratch/scratch.cpp:167-172 | one more node is one more update |
| Scratch.StoredNamesAddressed | examples/clients/scratch/scratch.cpp:699-722 | every entry's name gets an address; names without one sit at (0, 0) |
| Scratch.StoredResolved | examples/clients/scratch/scratch.cpp:699-722 | with distinct addresses, each entry is cached at its own address |
| Scratch.ResolvedAddresses | examples/clients/scratch/scratch.cpp:649-697 | exactly the names the node resolves, at (node, position) |
| Scratch.ResolvedStep | examples/clients/scratch/scratch.cpp:649-697 | one more name adds its address when the node has it |
| Scratch.StateReport | examples/clients/scratch/scratch.cpp:699-722 | acc = data[0..3), angle.front = data[3], every button cached as 0 as written, prox.horizontal = data[21..28), temperature = data[28] |
| Scratch.ScratchInterface.constructor | examples/clients/scratch/scratch.cpp:46-55 | empty dials, LEDs, busy set, cache, addresses and log |
| Scratch.ScratchInterface.AddressOf | examples/clients/scratch/scratch.cpp:445-460 | an address iff the node has the variable, at (node, position) |
| Scratch.ScratchInterface.IncomingVariables | examples/clients/scratch/scratch.cpp:57-61 | the reported values replace the cache entry at their address |
| Scratch.ScratchInterface.SetCachedVal | examples/clients/scratch/scratch.cpp:434-444 | the cache becomes `WriteThrough`; true iff resolved and non-empty |
| Scratch.ScratchInterface.GetCachedVal | examples/clients/scratch/scratch.cpp:423-433 | the cached values of a resolved name, none for an unresolved one; true iff there are some; a missing entry is inserted empty |
| Scratch.Touched | examples/clients/scratch/scratch.cpp:423-433 | reading through `operator[]` inserts a missing entry empty and keeps every entry already there |
| Scratch.ScratchInterface.SendSetVariable | examples/clients/scratch/scratch.cpp:372-381 | the cache is written through with the `atoi` values before the write is sent |
| Scratch.ScratchInterface.StartMotors | examples/clients/scratch/scratch.cpp:127-138 | both targets are written as ×32/10 |
| Scratch.ScratchInterface.ChangeSpeed | examples/clients/scratch/scratch.cpp:139-155 | `SpeedChanged`: both targets are looked up first; a miss answers nothing, sends nothing and may insert an empty entry; with both cached, a missing or non-numeric argument aborts, and otherwise each target moves by ×32/10 of its argument and both writes are sent |
| Scratch.ScratchInterface.AddToTargets | examples/clients/scratch/scratch.cpp:144-151 | both writes are sent in order, and both targets are written through with the cached offset added |
| Scratch.ScratchInterface.SendNumber | examples/clients/scratch/scratch.cpp:372-381 | one integer write: its numeral is sent and the cache takes it as `short` |
| Scratch.ScratchInterface.StopMotors | examples/clients/scratch/scratch.cpp:156-166 | both targets are set to 0 |
| Scratch.ScratchInterface.SetDialOf | examples/clients/scratch/scratch.cpp:167-172 | the dial takes the value as `unsigned`; the circle LEDs show it |
| Scratch.ScratchInterface.NextDialOf | examples/clients/scratch/scratch.cpp:173-188 | the dial advances modulo the limit; a zero limit changes nothing |
| Scratch.ScratchInterface.SendZeros | examples/clients/scratch/scratch.cpp:192-208 | the name followed by n zeros is sent |
| Scratch.ScratchInterface.ClearLedsOf | examples/clients/scratch/scratch.cpp:189-218 | all three slots become 200; the zero vectors are sent |
| Scratch.ScratchInterface.SetLedsOf | examples/clients/scratch/scratch.cpp:219-234 | exactly the masked slots take the colour, each shown once |
| Scratch.ScratchInterface.LightSlot | examples/clients/scratch/scratch.cpp:225-231 | the slot takes the colour and the event is sent |
| Scratch.ScratchInterface.LightSlotIf | examples/clients/scratch/scratch.cpp:224-231 | a guarded slot update: with the mask bit set the slot takes the colour and the event is sent, otherwise nothing changes |
| Scratch.ScratchInterface.ShiftLevel | examples/clients/scratch/scratch.cpp:241-253 | the slot moves by delta round the wheel |
| Scratch.ScratchInterface.SendBottom | examples/clients/scratch/scratch.cpp:246-256 | the bottom-LED event for the side is sent |
| Scratch.ScratchInterface.ChangeLedsOf | examples/clients/scratch/scratch.cpp:235-260 | exactly the masked slots move round the wheel; each new colour is shown |
| Scratch.ScratchInterface.MoveOf | examples/clients/scratch/scratch.cpp:289-306 | the motion is queued, the id becomes busy, and the reply is 200 with the id |
| Scratch.ScratchInterface.Route | examples/clients/scratch/scratch.cpp:92-370 | a `poll` request is `NotModelled`, since `evPoll` is left out; non-node and unknown requests are passed on; a failing `stoi` or a missing token aborts; every other command acts on the first node as `Acted` states (its reply, the state it changes, the rest unchanged); `scratch_set_dial` sets every named node's dial |
| Scratch.ScratchInterface.SetDials | examples/clients/scratch/scratch.cpp:167-172 | every named node gets the dial and a 204 (no return in this branch) |
| Scratch.ScratchInterface.RouteToFirst | examples/clients/scratch/scratch.cpp:127-366 | `Acted` per command: the reply, the new dials, LEDs, busy set, cache and log in terms of the old ones, and every other part unchanged; abort on a zero limit |
| Scratch.ScratchInterface.RouteMotors | examples/clients/scratch/scratch.cpp:127-306 | `Acted` for start, change speed, stop and move: the reply, the new cache, busy set and log |
| Scratch.ScratchInterface.RouteLights | examples/clients/scratch/scratch.cpp:173-260 | `Acted` for the dial and LED commands: the reply or the abort, the new dials, LEDs and log |
| Scratch.ScratchInterface.IncomingUserMsg | examples/clients/scratch/scratch.cpp:63-90 | `Q_motion_ended` erases data[0] from the busy set; a full `R_state` payload updates the cache; nothing else changes |
| Scratch.ScratchInterface.ReceiveStateVariables | examples/clients/scratch/scratch.cpp:636-725 | addresses are resolved on first use, then the payload's entries are stored; the buttons are stored as written, always 0 |
| Scratch.ScratchInterface.ResolveStateAddresses | examples/clients/scratch/scratch.cpp:649-697 | the addresses become `ResolvedAddresses` of the report names |
| Scratch.ScratchInterface.StoreState | examples/clients/scratch/scratch.cpp:699-722 | the cache and addresses become `Stored` |

## Left out

- Stream, bus and D-Bus I/O: message serialisation, `flush`, D-Bus registration and connection choice, the `run` loops and `usleep`. Messages sent and replies given are entries in output logs.
- `LoadScripts` in medulla (Qt DOM parsing and the compiler) and `aeslLoadMemory` are foreign calls. A load is the logged action `Loaded`, and the user-defined variables and event table are plain fields.
- `getIdsFromArgs`, `getVarPos`, `DescriptionsManager` and the body of `HttpInterface::sendGetVariables` are not part of this model. The selected node ids and a variable-position function are parameters.
- The bodies of `scheduleResponse`, `unscheduleResponse`, `unscheduleAllResponses`, `parse_json_form` and `HttpRequest::receive` are not part of this model. They are modelled from their declarations and from the assertions of `tests/test-http.cpp`.
- `readLine` and `readRaw` are parameters of `Receive`: the lines read and the raw bytes after them.
- Node-id substitution, `sendAvailableResponses` and `HttpInterface::incomingVariables` are declared but their bodies are not part of this model.
- `scratch.h` is not part of this model. The field types come from their uses in `scratch.cpp`.
- `evPoll` and `sendPollVariables` are left out: they format a text report and send wire messages, and `evPoll` reads the clock.
- `scratch_avoid` is left out because it uses `rand()`. `scratch_turn` and `scratch_arc` are left out because they use floating point. `Route` reports them as `NotModelled`.
- The `time()` call at the end of `receiveStateVariables` is left out.
- Scratch.ScratchInterface.Route: a `stoi` that throws is modelled as aborting the request before any effect of its branch. The C++ exception propagates out of `routeRequest`. In `scratch_start` and `scratch_change_speed` the second `stoi` runs after the first write is sent; the model drops that write. A request that lacks a token the branch reads (fewer than 3 tokens, or no token 3 or 4 where `stoi(req->tokens[3])` or `[4]` is read, scratch.cpp:127, 131, 134, 147, 150, 169, 175, 221-222, 237-238, 291-292, 310-311, 336-337) is also modelled as aborting; in C++ that read is past the end of the `std::vector`, which is undefined behaviour, so the model states no particular outcome of the source.
- Scratch.MoveMotion: does not model the 32-bit `int` overflow of `abs(mm) * 100` when \|mm\| > 21474836, nor `abs(INT_MIN)`, both undefined behaviour in C++ (scratch.cpp:293-294); the model computes the time on unbounded integers. `Scratch.ScratchInterface.MoveOf` inherits this.
- Scratch.ScratchInterface.RouteToFirst: the division by a zero limit in `scratch_next_dial_limit` is modelled as `Aborted`. It is undefined behaviour in C++.
- Scratch.ScratchInterface.StartMotors: `stoi(...) * 32` is computed on unbounded integers. The C `int` overflow of very large arguments is not modelled.
- Scratch.ScratchInterface.ChangeSpeed: the same applies to `stoi(...) * 32`. When the right `stoi` throws, the model drops the left write that scratch.cpp:147-150 has already sent, and aborts with nothing changed.
- Scratch.ScratchInterface.ClearLedsOf: the LED table is stated after the whole branch. The interleaving of table updates with the events sent is not stated.
- Scratch.ScratchInterface.IncomingUserMsg: the `R_state` branch runs under the corrected guard (the full 29-value payload; see Findings). The base-class `incomingUserMsg` is not modelled.
- Medulla.AsebaNetworkInterface.GetVariable: the delayed D-Bus reply is a log entry. The empty `Values` returned to Qt are the method's result.
- Both `main` functions (command line, help and version text) are left out. The hub's `-l` flag is the `forward` parameter of `Hub`.
- The zeroconf registration wrappers over dns_sd and their watcher thread are left out. So are the zeroconf tests, which need a live mDNS daemon.

## Findings

The model follows each of these as written, except the `R_state` guard: as written it lets `receiveStateVariables` read past a short payload, so the model runs that branch under the corrected guard. Each corrected member proves the evidently intended property.

| source | as written | input that shows it | evidently intended | confidence | as-written member | corrected member |
|---|---|---|---|---|---|---|
| switches/http/HttpInterfaceHandlers.cpp:251-257 | the `namedVariables` loop starts at `allVariables.find(nodeId)` and runs to the end of the map, so it lists the variables of every later node as well | nodes 1 and 2, each with one compiled variable: node 1's object lists both variables | list only the node's own compiled variables | not executed | HttpHandlers.NamedVariablesLeak | HttpHandlers.NamedVariablesIgnoreOthers |
| examples/clients/scratch/scratch.cpp:701-705 | each button is `(data[4] >> k) % 1`, which is 0 for every payload | a buttons word of 31 (all pressed) still caches 0 for every button | bit k of the word: `(data[4] >> k) % 2` | not executed | Scratch.ButtonAlwaysReleased | Scratch.ButtonsRecombine |
| examples/clients/scratch/scratch.cpp:84 | `receiveStateVariables` runs for any payload of at least one value, but reads data[0] to data[28] | an `R_state` event with the single value 0 | require the full 29-value payload | not executed | Scratch.ShortStatePasses | Scratch.StateGuardSuffices |
| common/zeroconf/txtrecord.cpp:74 | each element is packed as `put(value << 8), put(value % 0xff)`: the first byte is always 0 and the second is the remainder by 255 | the values 0 and 255 both pack as bytes 0, 0; 256 packs as 0, 1 | big-endian 16 bits: `put(value >> 8), put(value & 0xff)` | not executed | Zeroconf.PackedPairLosesHighByte | Zeroconf.UnpackPacked |
| switches/http/HttpInterfaceHandlers.cpp:360 | the event branch parses `std::string(getContent(), getContent().size())`, the body from its end, which is always empty | a `POST` to an event with the body `[1,2]`: only the name is sent | parse the whole body, `parse_json_form(getContent(), data)` | not executed | HttpHandlers.EventBodyDropped | HttpHandlers.EventDataCarriesBody |
